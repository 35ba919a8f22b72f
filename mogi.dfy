/** mogi_objects.py: an event (a "mogi") as an object whose flags, roster, rooms and extension the
    queue cog updates in place. Its read-only queries (`count_registered`, `num_players`,
    `max_possible_rooms`, `check_player`, ...) are the functions of module Roster applied to its
    `teams`. */
module Mogis {
  import opened Wrappers
  import opened Roster
  import opened Schedule

  /** `Mogi`. `format`, `hasCheckedAutoExtend` are used by the queue cog but not set by the
      constructor shown for the class; the model gives them the values the cog relies on: the format
      the event was created with, and no automatic extension yet. The event's channel and the room
      threads are not part of this model. */
  class Mogi {
    var started: bool
    var gathering: bool
    var makingRoomsRun: bool
    const sqId: int
    const maxPlayersPerTeam: nat
    const playersPerRoom: nat
    var teams: seq<Team>
    var rooms: seq<Room>
    const isAutomated: bool
    const startTime: Option<Time>
    const displayTime: Option<Time>
    /** Seconds added to the event's closing time by staff or by the automatic extension. */
    var additionalExtension: int
    const format: Option<string>
    var hasCheckedAutoExtend: bool

    /** `Mogi.__init__`: a new event has not started, gathers nobody and has no rooms; its start and
        display times are kept only for an automated event. */
    constructor (sqId: int, maxPlayersPerTeam: nat, playersPerRoom: nat, isAutomated: bool,
                 startTime: Option<Time>, displayTime: Option<Time>, format: Option<string>,
                 additionalExtensionMinutes: int)
      ensures !started && !gathering && !makingRoomsRun && teams == [] && rooms == []
      ensures this.sqId == sqId && this.maxPlayersPerTeam == maxPlayersPerTeam
      ensures this.playersPerRoom == playersPerRoom && this.isAutomated == isAutomated
      ensures this.startTime == (if isAutomated then startTime else None)
      ensures this.displayTime == (if isAutomated then displayTime else None)
      ensures this.format == format && additionalExtension == 60 * additionalExtensionMinutes
      ensures !hasCheckedAutoExtend
    {
      started := false;
      gathering := false;
      makingRoomsRun := false;
      this.sqId := sqId;
      this.maxPlayersPerTeam := maxPlayersPerTeam;
      this.playersPerRoom := playersPerRoom;
      teams := [];
      rooms := [];
      this.isAutomated := isAutomated;
      this.startTime := if isAutomated then startTime else None;
      this.displayTime := if isAutomated then displayTime else None;
      this.format := format;
      additionalExtension := 60 * additionalExtensionMinutes;
      hasCheckedAutoExtend := false;
    }
  }

  /** The position of the first player of a list with member `m`. */
  function FirstMemberIndex(ps: seq<Player>, m: MemberId): (r: Option<nat>)
    ensures r.None? <==> forall j :: 0 <= j < |ps| ==> ps[j].member != m
    ensures r.Some? ==> r.value < |ps| && ps[r.value].member == m &&
                        forall j :: 0 <= j < r.value ==> ps[j].member != m
  {
    if ps == [] then None
    else if ps[0].member == m then Some(0)
    else
      match FirstMemberIndex(ps[1..], m)
      case None => None
      case Some(i) => Some(i + 1)
  }

  /** `player = squad.get_player(member); player.host = host`: the team with the host flag of its
      first player with member `m` changed. */
  function WithHost(t: Team, m: MemberId, host: bool): Team
  {
    match FirstMemberIndex(t.players, m)
    case None => t
    case Some(i) => Team(t.players[i := t.players[i].(host := host)])
  }

  /** The player `get_player` finds is the one whose flag changes: afterwards it is found again with
      the new flag, and every other position of the team is untouched. */
  lemma WithHostChangesFoundPlayer(t: Team, m: MemberId, host: bool)
    requires GetPlayer(t, m).Some?
    ensures GetPlayer(WithHost(t, m, host), m) == Some(GetPlayer(t, m).value.(host := host))
    ensures exists i :: 0 <= i < |t.players| && t.players[i] == GetPlayer(t, m).value &&
                        WithHost(t, m, host).players == t.players[i := t.players[i].(host := host)]
  {
    var i := FirstMemberIndex(t.players, m).value;
    var ps := t.players;
    var qs := WithHost(t, m, host).players;
    var k :| 0 <= k < |ps| && ps[k] == GetPlayer(t, m).value && forall j :: 0 <= j < k ==> ps[j].member != m;
    assert k == i;
    assert qs[i].member == m && qs[i] in qs;
    var r := GetPlayer(WithHost(t, m, host), m);
    assert r.Some?;
    var k' :| 0 <= k' < |qs| && qs[k'] == r.value && forall j :: 0 <= j < k' ==> qs[j].member != m;
    assert k' == i;
  }

  /** Changing a host flag keeps who is on the team and whether the team is fully confirmed. */
  lemma WithHostKeepsRoster(t: Team, m: MemberId, host: bool, x: MemberId)
    ensures HasPlayer(WithHost(t, m, host), x) <==> HasPlayer(t, x)
    ensures AllRegistered(WithHost(t, m, host)) <==> AllRegistered(t)
    ensures |WithHost(t, m, host).players| == |t.players|
  {
    var ps := t.players;
    var qs := WithHost(t, m, host).players;
    assert |qs| == |ps|;
    assert forall j :: 0 <= j < |ps| ==> qs[j].member == ps[j].member && qs[j].confirmed == ps[j].confirmed;
    if HasPlayer(t, x) {
      var p :| p in ps && p.member == x;
      var j :| 0 <= j < |ps| && ps[j] == p;
      assert qs[j] in qs;
    }
    if HasPlayer(WithHost(t, m, host), x) {
      var p :| p in qs && p.member == x;
      var j :| 0 <= j < |qs| && qs[j] == p;
      assert ps[j] in ps;
    }
    if AllRegistered(t) {
      forall p | p in qs ensures p.confirmed {
        var j :| 0 <= j < |qs| && qs[j] == p;
        assert ps[j] in ps;
      }
    }
    if AllRegistered(WithHost(t, m, host)) {
      forall p | p in ps ensures p.confirmed {
        var j :| 0 <= j < |ps| && ps[j] == p;
        assert qs[j] in qs;
      }
    }
  }

  /** `check_room_threads` without threads: rooms numbered `from + 1` to `to`, not yet filled. */
  function UnfilledRooms(from: nat, to: nat): (r: seq<Room>)
    ensures |r| == if to > from then to - from else 0
    ensures forall j :: 0 <= j < |r| ==> r[j] == Room(None, from + j + 1)
  {
    if to <= from then [] else UnfilledRooms(from, to - 1) + [Room(None, to)]
  }

  /** One room's seats: each proposed player as a team of one, in list order. */
  function SeatedTeams(chunk: seq<Player>): (r: seq<Team>)
    ensures |r| == |chunk|
    ensures forall i :: 0 <= i < |chunk| ==> r[i] == Team([chunk[i]])
  {
    seq(|chunk|, i requires 0 <= i < |chunk| => Team([chunk[i]]))
  }

  /** The rooms after the seating loop of `add_teams_to_rooms`: room `k` receives the `k`-th chunk of
      the proposed list when that chunk passes the rating check, and is otherwise left as it was
      (the room is cancelled). */
  function SeatRooms(rooms: seq<Room>, chunks: seq<seq<Player>>, allowed: seq<Player> -> bool, n: nat): (r: seq<Room>)
    requires n <= |chunks| <= |rooms|
    ensures |r| == |rooms|
  {
    if n == 0 then rooms
    else
      var prev := SeatRooms(rooms, chunks, allowed, n - 1);
      if allowed(chunks[n - 1]) then prev[n - 1 := prev[n - 1].(teams := Some(SeatedTeams(chunks[n - 1])))]
      else prev
  }

  /** After seating, each room holds exactly its chunk, one player per team, when the chunk passed
      the check; every other room, and every room number, is as before. */
  lemma {:induction false} SeatRoomsSeats(rooms: seq<Room>, chunks: seq<seq<Player>>, allowed: seq<Player> -> bool,
                                          n: nat, k: nat)
    requires n <= |chunks| <= |rooms| && k < |rooms|
    ensures var r := SeatRooms(rooms, chunks, allowed, n);
            r[k].roomNum == rooms[k].roomNum &&
            r[k] == if k < n && allowed(chunks[k]) then rooms[k].(teams := Some(SeatedTeams(chunks[k]))) else rooms[k]
  {
    if n > 0 {
      SeatRoomsSeats(rooms, chunks, allowed, n - 1, k);
    }
  }

  /** The players seated in a room are that room's chunk of the proposed list, one per team and in
      list order, so a seated room holds exactly the players that passed the rating check. */
  lemma {:induction false} SeatedRoomPlayers(chunk: seq<Player>, roomNum: int)
    ensures PlayerLists(SeatedTeams(chunk)) == seq(|chunk|, i requires 0 <= i < |chunk| => [chunk[i]])
    ensures RoomPlayers(Room(Some(SeatedTeams(chunk)), roomNum)) == chunk
    decreases |chunk|
  {
    if chunk != [] {
      var init := chunk[..|chunk| - 1];
      var last := chunk[|chunk| - 1];
      SeatedRoomPlayers(init, roomNum);
      assert SeatedTeams(chunk) == SeatedTeams(init) + [Team([last])];
      PlayerListsAppend(SeatedTeams(init), Team([last]));
      assert init + [last] == chunk;
    }
  }
}
