/** mmr.py: the ratings table pulled from the lounge API — response validation, the parsers that
    rebuild the table, the lookups guarded by the first-run flag and the refresh with one retry. */
module Ratings {
  import opened Wrappers
  import opened Common
  import opened Json
  import opened Roster

  /** The rating-request failures the validators raise (all are caught by the pull). */
  datatype RatingFailure = BadRatingData | BadPlayerDataLength | BadPlayerData

  /** How a validator ends: accepted, a caught rating failure, or another exception (a TypeError on
      data of the wrong shape) that propagates. */
  datatype Validation = Accepted | Rejected(failure: RatingFailure) | Raised

  /** `RatingsNotReady`, raised by the lookups before the first successful pull. */
  datatype NotReady = RatingsNotReady

  /** The HTTP outcome of the ratings request: its status and decoded body. */
  datatype Response = Response(status: int, body: Json)

  /** What `_pull_ratings` does: stores the ratings (True), fails (False), or lets an exception out. */
  datatype PullStatus = Stored | Failed | Crashed

  /** The table: stringified Discord id to (rating, lounge name). */
  type Table = map<string, (int, string)>

  const Mk8dxRequiredPlayers: nat := 10000
  const MkwRequiredPlayers: nat := 1000

  /** The list of players under `key`, when the response is a dictionary holding a non-null,
      iterable value there. */
  function PlayersOf(results: Json, key: string): Option<seq<Json>>
  {
    if !results.JObject? then None
    else match GetNonNull(results, key)
      case None => None
      case Some(v) => Items(v)
  }

  /** The checks of one MK8DX player entry: `name` present and a string, `discordId` and `mmr` of
      the right type when present. */
  function Mk8dxPlayerCheck(player: Json): Validation
  {
    if !player.JObject? then
      // `"name" in player` on a non-dictionary: absent, or the subscript that follows fails
      if In("name", player) == Some(false) then Rejected(BadPlayerData) else Raised
    else match Get(player, "name")
      case None => Rejected(BadPlayerData)
      case Some(name) =>
        if !IsInstance(name, Str) then Rejected(BadPlayerData)
        else if Get(player, "discordId").Some? && !IsInstance(Get(player, "discordId").value, Str) then
          Rejected(BadPlayerData)
        else if Get(player, "mmr").Some? && !IsInstance(Get(player, "mmr").value, Int) then
          Rejected(BadPlayerData)
        else Accepted
  }

  /** The checks of one MKW player entry: the three fields present, then the id a string or null,
      the rating an int and the name a string. */
  function MkwPlayerCheck(player: Json): Validation
  {
    if !player.JObject? then
      // the `in` tests on a non-dictionary, then `player.get`, which only a dictionary has
      if In("player_name", player) == Some(false) then Rejected(BadPlayerData)
      else if In("player_name", player).None? then Raised
      else if In("discord_user_id", player) == Some(false) then Rejected(BadPlayerData)
      else if In("discord_user_id", player).None? then Raised
      else if In("current_mmr", player) == Some(false) then Rejected(BadPlayerData)
      else Raised
    else if Get(player, "player_name").None? || Get(player, "discord_user_id").None?
         || Get(player, "current_mmr").None? then
      Rejected(BadPlayerData)
    else
      var id := Get(player, "discord_user_id").value;
      if !(IsInstance(id, Str) || id.JNull?) then Rejected(BadPlayerData)
      else if !IsInstance(Get(player, "current_mmr").value, Int) then Rejected(BadPlayerData)
      else if !IsInstance(Get(player, "player_name").value, Str) then Rejected(BadPlayerData)
      else Accepted
  }

  /** The loop over the players: the first player that fails decides the outcome. */
  function CheckPlayers(players: seq<Json>, check: Json -> Validation): Validation
  {
    if players == [] then Accepted
    else if check(players[0]) != Accepted then check(players[0])
    else CheckPlayers(players[1..], check)
  }

  /** The players pass exactly when each one does; otherwise the outcome is that of the first one
      that does not. */
  lemma {:induction false} CheckPlayersSpec(players: seq<Json>, check: Json -> Validation)
    ensures CheckPlayers(players, check) == Accepted <==>
            forall i :: 0 <= i < |players| ==> check(players[i]) == Accepted
    ensures CheckPlayers(players, check) != Accepted ==>
            exists i :: 0 <= i < |players| && CheckPlayers(players, check) == check(players[i]) &&
                        forall j :: 0 <= j < i ==> check(players[j]) == Accepted
  {
    if players != [] {
      CheckPlayersSpec(players[1..], check);
      assert forall i :: 1 <= i < |players| ==> players[1..][i - 1] == players[i];
      if check(players[0]) == Accepted && CheckPlayers(players, check) != Accepted {
        var i :| 0 <= i < |players[1..]| && CheckPlayers(players[1..], check) == check(players[1..][i]) &&
                 forall j :: 0 <= j < i ==> check(players[1..][j]) == Accepted;
        assert CheckPlayers(players, check) == check(players[i + 1]);
        assert forall j :: 0 <= j < i + 1 ==> check(players[j]) == Accepted by {
          forall j | 0 < j < i + 1 ensures check(players[j]) == Accepted {
            assert players[j] == players[1..][j - 1];
          }
        }
      }
    }
  }

  /** A null `mmr` is rejected, so the placement rating the parser substitutes only ever stands in
      for an absent one. */
  lemma NullRatingRejected(player: Json)
    requires player.JObject? && Get(player, "name").Some? && IsInstance(Get(player, "name").value, Str)
    requires Get(player, "discordId").None?
    requires Get(player, "mmr") == Some(JNull)
    ensures Mk8dxPlayerCheck(player) == Rejected(BadPlayerData)
  {
  }

  /** `_validate_mk8dx_response`. */
  function ValidateMk8dx(results: Json): Validation
  {
    if !results.JObject? || GetNonNull(results, "players").None? then Rejected(BadRatingData)
    else match PlayersOf(results, "players")
      case None => Raised
      case Some(players) =>
        if |players| < Mk8dxRequiredPlayers then Rejected(BadPlayerDataLength)
        else CheckPlayers(players, Mk8dxPlayerCheck)
  }

  /** `_validate_mkw_response`. */
  function ValidateMkw(results: Json): Validation
  {
    if !results.JObject? || GetNonNull(results, "status").None? then Rejected(BadRatingData)
    else if GetNonNull(results, "status") != Some(JStr("success")) then Rejected(BadRatingData)
    else if GetNonNull(results, "results").None? then Rejected(BadRatingData)
    else match PlayersOf(results, "results")
      case None => Raised
      case Some(players) =>
        if |players| < MkwRequiredPlayers then Rejected(BadPlayerDataLength)
        else CheckPlayers(players, MkwPlayerCheck)
  }

  /** The validator the server uses; MKWorld shares the MK8DX API. */
  function Validate(server: Server, results: Json): Validation
  {
    if server == MKW then ValidateMkw(results) else ValidateMk8dx(results)
  }

  /** The key under which the server lists its players. */
  function PlayersKey(server: Server): string
  {
    if server == MKW then "results" else "players"
  }

  /** A parsed entry: the id it is stored under (None when it is skipped), its rating and name. */
  datatype Entry = Entry(id: Option<string>, rating: int, name: string)

  /** An int field as Python stores it; a boolean counts as 0 or 1. */
  function AsInt(j: Json): int
  {
    match j
    case JInt(i) => i
    case JBool(b) => if b then 1 else 0
    case _ => 0
  }

  function AsStr(j: Json): string
  {
    if j.JStr? then j.s else ""
  }

  /** One MK8DX player as `_parse_mk8dx_ratings` reads it: skipped without `discordId`, placement
      rating without `mmr`. */
  function Mk8dxEntry(player: Json, placementMmr: int): Entry
  {
    if !player.JObject? then Entry(None, 0, "")
    else
      var id := match GetNonNull(player, "discordId") case Some(JStr(s)) => Some(s) case _ => None;
      var rating := match GetNonNull(player, "mmr") case None => placementMmr case Some(m) => AsInt(m);
      var name := match Get(player, "name") case Some(n) => AsStr(n) case None => "";
      Entry(id, rating, name)
  }

  /** One MKW player as `_parse_mkw_ratings` reads it: skipped when the id is null. */
  function MkwEntry(player: Json): Entry
  {
    if !player.JObject? then Entry(None, 0, "")
    else
      var id := match GetNonNull(player, "discord_user_id") case Some(JStr(s)) => Some(s) case _ => None;
      var rating := match Get(player, "current_mmr") case Some(m) => AsInt(m) case None => 0;
      var name := match Get(player, "player_name") case Some(n) => AsStr(n) case None => "";
      Entry(id, rating, name)
  }

  function EntryOf(server: Server, player: Json, placementMmr: int): Entry
  {
    if server == MKW then MkwEntry(player) else Mk8dxEntry(player, placementMmr)
  }

  /** The entries a parser reads from the players, in order. */
  function EntriesOf(server: Server, players: seq<Json>, placementMmr: int): (r: seq<Entry>)
    ensures |r| == |players|
    ensures forall i :: 0 <= i < |players| ==> r[i] == EntryOf(server, players[i], placementMmr)
  {
    seq(|players|, i requires 0 <= i < |players| => EntryOf(server, players[i], placementMmr))
  }

  /** The table a parser builds from the first `n` entries: later entries overwrite earlier ones. */
  function TableOf(entries: seq<Entry>, n: nat): Table
    requires n <= |entries|
  {
    if n == 0 then map[]
    else
      var e := entries[n - 1];
      var t := TableOf(entries, n - 1);
      if e.id.Some? then t[e.id.value := (e.rating, e.name)] else t
  }

  /** The table holds exactly the ids of the entries that are not skipped. */
  lemma {:induction false} TableOfKeys(entries: seq<Entry>, n: nat, id: string)
    requires n <= |entries|
    ensures id in TableOf(entries, n) <==> exists i :: 0 <= i < n && entries[i].id == Some(id)
  {
    if n > 0 {
      TableOfKeys(entries, n - 1, id);
    }
  }

  /** An id holds the rating and name of the last entry listed under it. */
  lemma {:induction false} TableOfLastWins(entries: seq<Entry>, n: nat, i: nat)
    requires i < n <= |entries|
    requires entries[i].id.Some?
    requires forall j :: i < j < n ==> entries[j].id != entries[i].id
    ensures entries[i].id.value in TableOf(entries, n)
    ensures TableOf(entries, n)[entries[i].id.value] == (entries[i].rating, entries[i].name)
  {
    if i < n - 1 {
      TableOfLastWins(entries, n - 1, i);
    }
  }

  /** `str(id)` for a Discord id. */
  function IntToString(i: int): (s: string)
    ensures |s| > 0
  {
    if i < 0 then "-" + NatToString(-i) else NatToString(i)
  }

  function Digit(d: nat): (c: char)
    requires d < 10
    ensures '0' <= c <= '9'
  {
    ['0', '1', '2', '3', '4', '5', '6', '7', '8', '9'][d]
  }

  function NatToString(n: nat): (s: string)
    ensures |s| > 0 && '0' <= s[0] <= '9'
  {
    if n < 10 then [Digit(n)] else NatToString(n / 10) + [Digit(n % 10)]
  }

  /** Reading a decimal numeral back, the inverse of `str`. */
  function ParseNat(s: string): nat
  {
    if s == [] then 0
    else
      var c := s[|s| - 1];
      ParseNat(s[..|s| - 1]) * 10 + (if '0' <= c <= '9' then (c - '0') as nat else 0)
  }

  function ParseInt(s: string): int
  {
    if |s| > 0 && s[0] == '-' then -(ParseNat(s[1..]) as int) else ParseNat(s)
  }

  lemma DigitValue(d: nat)
    requires d < 10
    ensures (Digit(d) - '0') as nat == d
  {
  }

  lemma {:induction false} ParseNatToString(n: nat)
    ensures ParseNat(NatToString(n)) == n
  {
    var s := NatToString(n);
    if n < 10 {
      DigitValue(n);
      assert s[..0] == [];
    } else {
      ParseNatToString(n / 10);
      DigitValue(n % 10);
      assert s[..|s| - 1] == NatToString(n / 10);
    }
  }

  /** `str` on ids can be read back, so two ids never share a key of the table. */
  lemma ParseIntToString(i: int)
    ensures ParseInt(IntToString(i)) == i
  {
    var s := IntToString(i);
    if i < 0 {
      ParseNatToString(-i);
      assert s[0] == '-';
      assert s[1..] == NatToString(-i);
    } else {
      ParseNatToString(i);
      assert s == NatToString(i);
      assert s[0] != '-';
    }
  }

  lemma IntToStringInjective(i: int, j: int)
    ensures IntToString(i) == IntToString(j) ==> i == j
  {
    ParseIntToString(i);
    ParseIntToString(j);
  }

  /** The players `get_rating` returns for `members`: those whose id is in the table, in order, with
      the table's rating and name. */
  function RatedPlayers(table: Table, members: seq<MemberId>): seq<Player>
  {
    if members == [] then []
    else
      var rest := RatedPlayers(table, members[..|members| - 1]);
      var key := IntToString(members[|members| - 1]);
      if key in table then rest + [Player(members[|members| - 1], table[key].1, table[key].0, false, false)]
      else rest
  }

  /** Members are looked up one by one, so the result for a list is the results for its parts, in
      order. */
  lemma {:induction false} RatedPlayersAppend(table: Table, a: seq<MemberId>, b: seq<MemberId>)
    ensures RatedPlayers(table, a + b) == RatedPlayers(table, a) + RatedPlayers(table, b)
    decreases |b|
  {
    if b == [] {
      assert a + b == a;
    } else {
      assert (a + b)[..|a + b| - 1] == a + b[..|b| - 1];
      RatedPlayersAppend(table, a, b[..|b| - 1]);
    }
  }

  /** A member yields a player exactly when their id is in the table, so the result is never
      longer than the input. */
  lemma {:induction false} RatedPlayersMembers(table: Table, members: seq<MemberId>, m: MemberId)
    ensures |RatedPlayers(table, members)| <= |members|
    ensures m in members && IntToString(m) in table <==>
            exists k :: 0 <= k < |RatedPlayers(table, members)| && RatedPlayers(table, members)[k].member == m
  {
    if members != [] {
      var init := members[..|members| - 1];
      var last := members[|members| - 1];
      RatedPlayersMembers(table, init, m);
      assert members == init + [last];
      assert m in members <==> m in init || m == last;
      var rest := RatedPlayers(table, init);
      if IntToString(last) in table {
        var r := rest + [Player(last, table[IntToString(last)].1, table[IntToString(last)].0, false, false)];
        assert forall k :: 0 <= k < |rest| ==> r[k] == rest[k];
        assert r[|rest|].member == last;
      }
    }
  }

  /** Every player carries the table's rating and name for their id, and is neither confirmed nor
      a host. */
  lemma {:induction false} RatedPlayersValues(table: Table, members: seq<MemberId>)
    ensures forall p :: p in RatedPlayers(table, members) ==>
              IntToString(p.member) in table && p.mmr == table[IntToString(p.member)].0 &&
              p.loungeName == table[IntToString(p.member)].1 && !p.confirmed && !p.host
  {
    if members != [] {
      RatedPlayersValues(table, members[..|members| - 1]);
    }
  }

  /** The ratings table object. */
  class Ratings {
    var firstRunComplete: bool
    var ratings: Table

    constructor ()
      ensures !firstRunComplete && ratings == map[]
    {
      firstRunComplete := false;
      ratings := map[];
    }

    /** `_parse_mk8dx_ratings` / `_parse_mkw_ratings`: clear the table and refill it from the
        players. */
    method Parse(server: Server, results: Json, placementMmr: int)
      requires PlayersOf(results, PlayersKey(server)).Some?
      modifies this
      ensures ratings == ParsedTable(server, PlayersOf(results, PlayersKey(server)).value, placementMmr)
      ensures firstRunComplete == old(firstRunComplete)
    {
      var players := PlayersOf(results, PlayersKey(server)).value;
      var entries := EntriesOf(server, players, placementMmr);
      ratings := map[];
      for i := 0 to |players|
        invariant ratings == TableOf(entries, i)
        invariant firstRunComplete == old(firstRunComplete)
      {
        var e := entries[i];
        if e.id.Some? {
          ratings := ratings[e.id.value := (e.rating, e.name)];
        }
      }
    }

    /** `_pull_ratings`: a non-200 status or a rejected response fails and leaves the table as it
        was; an accepted one is parsed. */
    method PullRatings(server: Server, response: Response, placementMmr: int) returns (status: PullStatus)
      modifies this
      ensures status == PullOutcome(server, response)
      ensures ratings == (if status == Stored then NewTable(server, response, placementMmr) else old(ratings))
      ensures firstRunComplete == old(firstRunComplete)
    {
      if response.status != 200 {
        return Failed;
      }
      match Validate(server, response.body)
      case Raised => status := Crashed;
      case Rejected(_) => status := Failed;
      case Accepted =>
        ValidatedHasPlayers(server, response.body);
        Parse(server, response.body, placementMmr);
        status := Stored;
    }

    /** `update_ratings`: pull, and on failure pull once more; the flag is set only after a pull that
        stored the ratings. An exception from the first pull ends the refresh. */
    method UpdateRatings(server: Server, first: Response, retry: Response, placementMmr: int)
      modifies this
      ensures firstRunComplete == (old(firstRunComplete) || RefreshSucceeds(server, first, retry))
      ensures ratings ==
        if PullOutcome(server, first) == Stored then NewTable(server, first, placementMmr)
        else if PullOutcome(server, first) == Failed && PullOutcome(server, retry) == Stored then
          NewTable(server, retry, placementMmr)
        else old(ratings)
    {
      var status := PullRatings(server, first, placementMmr);
      if status == Crashed {
        return;
      }
      if status != Stored {
        status := PullRatings(server, retry, placementMmr);
        if status != Stored {
          return;
        }
      }
      firstRunComplete := true;
    }

    /** `get_rating_from_discord_id`. */
    function GetRatingFromDiscordId(id: MemberId): (r: Result<Option<int>, NotReady>)
      reads this
      ensures r.Failure? <==> !firstRunComplete
      ensures r.Success? && r.value.Some? <==> firstRunComplete && IntToString(id) in ratings
      ensures r.Success? && r.value.Some? ==> r.value.value == ratings[IntToString(id)].0
    {
      if !firstRunComplete then Failure(RatingsNotReady)
      else if IntToString(id) in ratings then Success(Some(ratings[IntToString(id)].0))
      else Success(None)
    }

    /** `get_rating`. */
    method GetRating(members: seq<MemberId>) returns (r: Result<seq<Player>, NotReady>)
      ensures r == if firstRunComplete then Success(RatedPlayers(ratings, members)) else Failure(RatingsNotReady)
    {
      if !firstRunComplete {
        return Failure(RatingsNotReady);
      }
      var allPlayers: seq<Player> := [];
      for i := 0 to |members|
        invariant allPlayers == RatedPlayers(ratings, members[..i])
      {
        assert members[..i + 1][..i] == members[..i];
        var key := IntToString(members[i]);
        if key in ratings {
          var (rating, name) := ratings[key];
          allPlayers := allPlayers + [Player(members[i], name, rating, false, false)];
        }
      }
      assert members[..|members|] == members;
      return Success(allPlayers);
    }
  }

  /** What a pull of this response comes to. */
  function PullOutcome(server: Server, response: Response): PullStatus
  {
    if response.status != 200 then Failed
    else match Validate(server, response.body)
      case Raised => Crashed
      case Rejected(_) => Failed
      case Accepted => Stored
  }

  /** Whether a refresh ends with the ratings stored: on the first pull, or on the retry after a
      failed (not crashed) first pull. */
  predicate RefreshSucceeds(server: Server, first: Response, retry: Response)
  {
    PullOutcome(server, first) == Stored ||
    (PullOutcome(server, first) == Failed && PullOutcome(server, retry) == Stored)
  }

  /** The table a stored response yields. */
  function NewTable(server: Server, response: Response, placementMmr: int): Table
  {
    match PlayersOf(response.body, PlayersKey(server))
    case Some(players) => ParsedTable(server, players, placementMmr)
    case None => map[]
  }

  /** The table a parser leaves behind after reading all the players. */
  function ParsedTable(server: Server, players: seq<Json>, placementMmr: int): Table
  {
    TableOf(EntriesOf(server, players, placementMmr), |players|)
  }

  /** The MK8DX validator's failures in order: not a dictionary or no `players` is bad rating data,
      then fewer than 10000 players is a short list, then the first bad player decides; it accepts
      exactly when the list is long enough and every player passes. */
  lemma ValidateMk8dxOrder(results: Json)
    ensures ValidateMk8dx(results) == Rejected(BadRatingData) <==>
            !results.JObject? || GetNonNull(results, "players").None?
    ensures ValidateMk8dx(results) == Rejected(BadPlayerDataLength) <==>
            PlayersOf(results, "players").Some? && |PlayersOf(results, "players").value| < Mk8dxRequiredPlayers
    ensures ValidateMk8dx(results) == Accepted <==>
            PlayersOf(results, "players").Some? && |PlayersOf(results, "players").value| >= Mk8dxRequiredPlayers &&
            forall i :: 0 <= i < |PlayersOf(results, "players").value| ==>
              Mk8dxPlayerCheck(PlayersOf(results, "players").value[i]) == Accepted
  {
    if results.JObject? && GetNonNull(results, "players").Some? && PlayersOf(results, "players").Some? {
      var ps := PlayersOf(results, "players").value;
      if |ps| >= Mk8dxRequiredPlayers {
        CheckPlayersSpec(ps, Mk8dxPlayerCheck);
        if CheckPlayers(ps, Mk8dxPlayerCheck) != Accepted {
          var i :| 0 <= i < |ps| && CheckPlayers(ps, Mk8dxPlayerCheck) == Mk8dxPlayerCheck(ps[i]);
        }
      }
    }
  }

  /** The MKW validator's failures in order: not a dictionary, no `status`, a status other than
      "success" or no `results` is bad rating data, then fewer than 1000 players is a short list;
      it accepts exactly when the list is long enough and every player passes. */
  lemma ValidateMkwOrder(results: Json)
    ensures ValidateMkw(results) == Rejected(BadRatingData) <==>
            !results.JObject? || GetNonNull(results, "status") != Some(JStr("success")) ||
            GetNonNull(results, "results").None?
    ensures ValidateMkw(results) == Rejected(BadPlayerDataLength) <==>
            results.JObject? && GetNonNull(results, "status") == Some(JStr("success")) &&
            PlayersOf(results, "results").Some? && |PlayersOf(results, "results").value| < MkwRequiredPlayers
    ensures ValidateMkw(results) == Accepted <==>
            results.JObject? && GetNonNull(results, "status") == Some(JStr("success")) &&
            PlayersOf(results, "results").Some? && |PlayersOf(results, "results").value| >= MkwRequiredPlayers &&
            forall i :: 0 <= i < |PlayersOf(results, "results").value| ==>
              MkwPlayerCheck(PlayersOf(results, "results").value[i]) == Accepted
  {
    if results.JObject? && GetNonNull(results, "status") == Some(JStr("success")) &&
       GetNonNull(results, "results").Some? && PlayersOf(results, "results").Some? {
      var ps := PlayersOf(results, "results").value;
      if |ps| >= MkwRequiredPlayers {
        CheckPlayersSpec(ps, MkwPlayerCheck);
        if CheckPlayers(ps, MkwPlayerCheck) != Accepted {
          var i :| 0 <= i < |ps| && CheckPlayers(ps, MkwPlayerCheck) == MkwPlayerCheck(ps[i]);
        }
      }
    }
  }

  /** A validated MK8DX player is stored under its `discordId` string and skipped exactly when it
      has none, gets the placement rating when it has no `mmr`, and keeps its name. */
  lemma Mk8dxEntryOfValidPlayer(player: Json, placementMmr: int)
    requires Mk8dxPlayerCheck(player) == Accepted
    ensures player.JObject?
    ensures var e := Mk8dxEntry(player, placementMmr);
            (e.id.None? <==> GetNonNull(player, "discordId").None?) &&
            (e.id.Some? ==> Get(player, "discordId") == Some(JStr(e.id.value))) &&
            (GetNonNull(player, "mmr").None? ==> e.rating == placementMmr) &&
            (forall m :: Get(player, "mmr") == Some(JInt(m)) ==> e.rating == m) &&
            Get(player, "name") == Some(JStr(e.name))
  {
  }

  /** A validated MKW player is stored under its `discord_user_id` string and skipped exactly when
      that id is null, and keeps its name. */
  lemma MkwEntryOfValidPlayer(player: Json)
    requires MkwPlayerCheck(player) == Accepted
    ensures player.JObject?
    ensures var e := MkwEntry(player);
            (e.id.None? <==> Get(player, "discord_user_id") == Some(JNull)) &&
            (e.id.Some? ==> Get(player, "discord_user_id") == Some(JStr(e.id.value))) &&
            (forall m :: Get(player, "current_mmr") == Some(JInt(m)) ==> e.rating == m) &&
            Get(player, "player_name") == Some(JStr(e.name))
  {
  }

  /** The MK8DX parser stores exactly the `discordId` strings of the validated players. */
  lemma Mk8dxParsedTableKeys(players: seq<Json>, placementMmr: int, id: string)
    requires forall k :: 0 <= k < |players| ==> Mk8dxPlayerCheck(players[k]) == Accepted
    ensures id in ParsedTable(MK8DX, players, placementMmr) <==>
            exists i :: 0 <= i < |players| && players[i].JObject? && Get(players[i], "discordId") == Some(JStr(id))
  {
    var entries := EntriesOf(MK8DX, players, placementMmr);
    TableOfKeys(entries, |players|, id);
    forall i | 0 <= i < |players|
      ensures entries[i].id == Some(id) <==> players[i].JObject? && Get(players[i], "discordId") == Some(JStr(id))
    {
      Mk8dxEntryOfValidPlayer(players[i], placementMmr);
    }
  }

  /** Under an MK8DX id the table holds the last player listed with it: its `mmr`, or the placement
      rating when that is missing or null, and its `name`. */
  lemma Mk8dxParsedTableLast(players: seq<Json>, placementMmr: int, i: nat, id: string)
    requires forall k :: 0 <= k < |players| ==> Mk8dxPlayerCheck(players[k]) == Accepted
    requires i < |players| && players[i].JObject? && Get(players[i], "discordId") == Some(JStr(id))
    requires forall j :: i < j < |players| && players[j].JObject? ==> Get(players[j], "discordId") != Some(JStr(id))
    ensures var table := ParsedTable(MK8DX, players, placementMmr);
            id in table && Get(players[i], "name") == Some(JStr(table[id].1)) &&
            (GetNonNull(players[i], "mmr").None? ==> table[id].0 == placementMmr) &&
            (forall m :: Get(players[i], "mmr") == Some(JInt(m)) ==> table[id].0 == m)
  {
    var entries := EntriesOf(MK8DX, players, placementMmr);
    Mk8dxEntryOfValidPlayer(players[i], placementMmr);
    forall j | i < j < |players|
      ensures entries[j].id != entries[i].id
    {
      Mk8dxEntryOfValidPlayer(players[j], placementMmr);
    }
    TableOfLastWins(entries, |players|, i);
  }

  /** The MKW parser stores exactly the non-null `discord_user_id` strings of the validated players. */
  lemma MkwParsedTableKeys(players: seq<Json>, placementMmr: int, id: string)
    requires forall k :: 0 <= k < |players| ==> MkwPlayerCheck(players[k]) == Accepted
    ensures id in ParsedTable(MKW, players, placementMmr) <==>
            exists i :: 0 <= i < |players| && players[i].JObject? &&
                        Get(players[i], "discord_user_id") == Some(JStr(id))
  {
    var entries := EntriesOf(MKW, players, placementMmr);
    TableOfKeys(entries, |players|, id);
    forall i | 0 <= i < |players|
      ensures entries[i].id == Some(id) <==>
              players[i].JObject? && Get(players[i], "discord_user_id") == Some(JStr(id))
    {
      MkwEntryOfValidPlayer(players[i]);
    }
  }

  /** Under an MKW id the table holds the last player listed with it: its `current_mmr` and its
      `player_name`. */
  lemma MkwParsedTableLast(players: seq<Json>, placementMmr: int, i: nat, id: string)
    requires forall k :: 0 <= k < |players| ==> MkwPlayerCheck(players[k]) == Accepted
    requires i < |players| && players[i].JObject? && Get(players[i], "discord_user_id") == Some(JStr(id))
    requires forall j :: i < j < |players| && players[j].JObject? ==>
               Get(players[j], "discord_user_id") != Some(JStr(id))
    ensures var table := ParsedTable(MKW, players, placementMmr);
            id in table && Get(players[i], "player_name") == Some(JStr(table[id].1)) &&
            (forall m :: Get(players[i], "current_mmr") == Some(JInt(m)) ==> table[id].0 == m)
  {
    var entries := EntriesOf(MKW, players, placementMmr);
    MkwEntryOfValidPlayer(players[i]);
    forall j | i < j < |players|
      ensures entries[j].id != entries[i].id
    {
      MkwEntryOfValidPlayer(players[j]);
    }
    TableOfLastWins(entries, |players|, i);
  }

  /** An accepted response has its list of players where the parser looks for it. */
  lemma ValidatedHasPlayers(server: Server, results: Json)
    requires Validate(server, results) == Accepted
    ensures PlayersOf(results, PlayersKey(server)).Some?
  {
  }
}
