/** mogi_objects.py: the room-making algorithms of `Mogi` — `_minimize_range` (the tightest
    window of k players by rating), `_one_room_final_list_algorithm` (admitting late players one
    at a time until a window passes the rating check), the MK8DX truncation rule and
    `generate_proposed_list`. */
module RoomAssignment {
  import opened Wrappers
  import opened Common
  import opened Roster

  /** The `ALGORITHM_STATUS_*` constants of `Mogi`. */
  datatype AlgorithmStatus = InsufficientPlayers | TwoOrMoreRooms | SuccessFound | SuccessEmpty

  /** The integer each status stands for in the source. */
  function StatusCode(s: AlgorithmStatus): int
  {
    match s
    case InsufficientPlayers => 1
    case TwoOrMoreRooms => 2
    case SuccessFound => 3
    case SuccessEmpty => 4
  }

  /** Players in ascending order of rating. */
  predicate SortedByRating(s: seq<Player>)
  {
    forall i, j :: 0 <= i < j < |s| ==> s[i].mmr <= s[j].mmr
  }

  /** Inserts `p` after every player rated at most `p.mmr`, keeping equal ratings in arrival order. */
  function InsertByRating(s: seq<Player>, p: Player): (r: seq<Player>)
    ensures |r| == |s| + 1
  {
    if s == [] || s[|s| - 1].mmr <= p.mmr then s + [p]
    else InsertByRating(s[..|s| - 1], p) + [s[|s| - 1]]
  }

  /** Python's stable `sorted` on players (`Player.__lt__` compares `mmr`), as a stable insertion sort. */
  function SortByRating(s: seq<Player>): (r: seq<Player>)
    ensures |r| == |s|
  {
    if s == [] then [] else InsertByRating(SortByRating(s[..|s| - 1]), s[|s| - 1])
  }

  lemma {:induction false} InsertByRatingMultiset(s: seq<Player>, p: Player)
    ensures multiset(InsertByRating(s, p)) == multiset(s) + multiset{p}
    decreases |s|
  {
    if !(s == [] || s[|s| - 1].mmr <= p.mmr) {
      var init := s[..|s| - 1];
      InsertByRatingMultiset(init, p);
      assert s == init + [s[|s| - 1]];
    }
  }

  lemma {:induction false} InsertByRatingBounded(s: seq<Player>, p: Player, b: int)
    requires forall i :: 0 <= i < |s| ==> s[i].mmr <= b
    requires p.mmr <= b
    ensures forall i :: 0 <= i < |InsertByRating(s, p)| ==> InsertByRating(s, p)[i].mmr <= b
    decreases |s|
  {
    if !(s == [] || s[|s| - 1].mmr <= p.mmr) {
      InsertByRatingBounded(s[..|s| - 1], p, b);
    }
  }

  lemma {:induction false} InsertByRatingSorted(s: seq<Player>, p: Player)
    requires SortedByRating(s)
    ensures SortedByRating(InsertByRating(s, p))
    decreases |s|
  {
    if !(s == [] || s[|s| - 1].mmr <= p.mmr) {
      var init := s[..|s| - 1];
      var last := s[|s| - 1];
      InsertByRatingSorted(init, p);
      InsertByRatingBounded(init, p, last.mmr);
    }
  }

  /** `sorted` yields an ascending permutation of its input. */
  lemma {:induction false} SortByRatingCorrect(s: seq<Player>)
    ensures SortedByRating(SortByRating(s))
    ensures multiset(SortByRating(s)) == multiset(s)
    decreases |s|
  {
    if s != [] {
      var init := s[..|s| - 1];
      SortByRatingCorrect(init);
      InsertByRatingSorted(SortByRating(init), s[|s| - 1]);
      InsertByRatingMultiset(SortByRating(init), s[|s| - 1]);
      assert s == init + [s[|s| - 1]];
    }
  }

  /** Sorting a list that is already in ascending order leaves it unchanged. */
  lemma {:induction false} SortByRatingOfSorted(s: seq<Player>)
    requires SortedByRating(s)
    ensures SortByRating(s) == s
    decreases |s|
  {
    if s != [] {
      var init := s[..|s| - 1];
      SortByRatingOfSorted(init);
      assert s == init + [s[|s| - 1]];
    }
  }

  /** Rating spread (highest minus lowest) of the window `s[i .. i + k]` of a sorted list. */
  function Spread(s: seq<Player>, i: nat, k: nat): int
    requires k >= 1 && i + k <= |s|
  {
    s[i + k - 1].mmr - s[i].mmr
  }

  /** The window start the scan of `_minimize_range` settles on after looking at the windows starting
      at `0 ..= n`: a later window replaces the best one only when it is strictly tighter. */
  function TightestStart(s: seq<Player>, k: nat, n: nat): (r: nat)
    requires k >= 1 && n + k <= |s|
    ensures r <= n
    decreases n
  {
    if n == 0 then 0
    else
      var b := TightestStart(s, k, n - 1);
      if Spread(s, n, k) < Spread(s, b, k) then n else b
  }

  /** One step of the scan: the window starting at `n` replaces the best one so far only when it is
      strictly tighter. */
  lemma TightestStartStep(s: seq<Player>, k: nat, n: nat)
    requires k >= 1 && 1 <= n && n + k <= |s|
    ensures TightestStart(s, k, n) ==
            if Spread(s, n, k) < Spread(s, TightestStart(s, k, n - 1), k) then n
            else TightestStart(s, k, n - 1)
  {
  }

  /** The scan's window is the one starting where the scan over all window starts settles. */
  lemma ScanWindowAt(s: seq<Player>, k: nat, i: nat)
    requires 1 <= k <= |s| && i == TightestStart(s, k, |s| - k)
    ensures ScanWindow(s, k) == s[i .. i + k]
  {
  }

  /** The scan's choice among the windows starting at `0 ..= n` has the least spread of them all, and
      every earlier window is strictly wider: it is the first tightest window. */
  lemma {:induction false} TightestStartIsFirstTightest(s: seq<Player>, k: nat, n: nat)
    requires k >= 1 && n + k <= |s|
    ensures forall j :: 0 <= j <= n ==> Spread(s, TightestStart(s, k, n), k) <= Spread(s, j, k)
    ensures forall j :: 0 <= j < TightestStart(s, k, n) ==> Spread(s, TightestStart(s, k, n), k) < Spread(s, j, k)
    decreases n
  {
    if n > 0 {
      TightestStartIsFirstTightest(s, k, n - 1);
    }
  }

  /** `i` starts the first window of length `k` in `s` whose spread is the least of all windows. */
  predicate IsFirstTightest(s: seq<Player>, k: nat, i: nat)
    requires k >= 1 && k <= |s|
  {
    i + k <= |s| &&
    (forall j :: 0 <= j <= |s| - k ==> Spread(s, i, k) <= Spread(s, j, k)) &&
    (forall j :: 0 <= j < i ==> Spread(s, i, k) < Spread(s, j, k))
  }

  /** The scan finds exactly the first tightest window: a start is the first tightest one if and only
      if it is the one the scan over all window starts settles on. */
  lemma FirstTightestIsTightestStart(s: seq<Player>, k: nat, i: nat)
    requires k >= 1 && k <= |s|
    ensures IsFirstTightest(s, k, i) <==> i == TightestStart(s, k, |s| - k)
  {
    TightestStartIsFirstTightest(s, k, |s| - k);
  }

  /** The window of `k` consecutive players of a sorted list that the scan settles on. */
  function ScanWindow(s: seq<Player>, k: nat): (w: seq<Player>)
    requires 1 <= k <= |s|
    ensures |w| == k
  {
    var i := TightestStart(s, k, |s| - k);
    s[i .. i + k]
  }

  /** The scan's window is the first window of least spread; over exactly `k` players it is all of them. */
  lemma ScanWindowIsFirstTightest(s: seq<Player>, k: nat)
    requires 1 <= k <= |s|
    ensures var i := TightestStart(s, k, |s| - k);
            IsFirstTightest(s, k, i) && ScanWindow(s, k) == s[i .. i + k]
    ensures |s| == k ==> ScanWindow(s, k) == s
  {
    TightestStartIsFirstTightest(s, k, |s| - k);
  }

  /** The scan's window of a sorted list is sorted and part of the list. */
  lemma ScanWindowSorted(s: seq<Player>, k: nat)
    requires 1 <= k <= |s|
    requires SortedByRating(s)
    ensures SortedByRating(ScanWindow(s, k))
    ensures multiset(ScanWindow(s, k)) <= multiset(s)
  {
    var i := TightestStart(s, k, |s| - k);
    WindowOfSorted(s, i, i + k);
  }

  /** What `_minimize_range(players, k)` returns: `None` when fewer than `k` players are given or
      `k <= 1`; otherwise the scan's window over the rating-sorted players. */
  function TightestWindow(players: seq<Player>, k: nat): (r: Option<seq<Player>>)
    ensures r.None? <==> |players| < k || k <= 1
    ensures r.Some? ==> |r.value| == k
  {
    if |players| < k || k <= 1 then None
    else Some(ScanWindow(SortByRating(players), k))
  }

  /** `_minimize_range` returns `k` of the given players, in ascending rating order. */
  lemma TightestWindowSorted(players: seq<Player>, k: nat)
    requires k <= |players| && k >= 2
    ensures var w := TightestWindow(players, k).value;
            SortedByRating(w) && multiset(w) <= multiset(players)
  {
    SortByRatingCorrect(players);
    ScanWindowSorted(SortByRating(players), k);
  }

  /** The players `_minimize_range` returns are the first window of consecutive rating-sorted players
      whose spread is the least of all windows (the only such window, by `FirstTightestIsTightestStart`);
      given exactly `k` players, that window is all of them. */
  lemma TightestWindowIsFirstTightest(players: seq<Player>, k: nat)
    requires k <= |players| && k >= 2
    ensures var w := TightestWindow(players, k).value;
            var s := SortByRating(players);
            var i := TightestStart(s, k, |s| - k);
            IsFirstTightest(s, k, i) && w == s[i .. i + k]
    ensures |players| == k ==> TightestWindow(players, k).value == SortByRating(players)
  {
    ScanWindowIsFirstTightest(SortByRating(players), k);
  }

  /** A slice of a sorted list is sorted and is part of the list. */
  lemma WindowOfSorted(s: seq<Player>, lo: nat, hi: nat)
    requires lo <= hi <= |s|
    requires SortedByRating(s)
    ensures SortedByRating(s[lo .. hi])
    ensures multiset(s[lo .. hi]) <= multiset(s)
    ensures lo == 0 && hi == |s| ==> s[lo .. hi] == s
  {
    assert s == s[..lo] + s[lo .. hi] + s[hi..];
    assert multiset(s) == multiset(s[..lo]) + multiset(s[lo .. hi]) + multiset(s[hi..]);
  }

  /** The sliding scan of `Mogi._minimize_range` over the rating-sorted players: starts from the
      lowest `k` and slides the window up one player at a time, keeping a window only when its spread
      is strictly smaller. The best window is kept by its start index and sliced once at the end. */
  method ScanTightest(sorted: seq<Player>, k: nat) returns (best: seq<Player>)
    requires 1 <= k <= |sorted|
    ensures best == ScanWindow(sorted, k)
  {
    var bestStart: nat := 0;
    var curMin := sorted[k - 1].mmr - sorted[0].mmr;
    for lowest := 1 to |sorted| - k + 1
      invariant bestStart == TightestStart(sorted, k, lowest - 1)
      invariant curMin == Spread(sorted, bestStart, k)
    {
      var highest := sorted[lowest + k - 1];
      var low := sorted[lowest];
      var curRange := highest.mmr - low.mmr;
      assert curRange == Spread(sorted, lowest, k);
      TightestStartStep(sorted, k, lowest);
      if curRange < curMin {
        curMin := curRange;
        bestStart := lowest;
      }
    }
    ScanWindowAt(sorted, k, bestStart);
    best := sorted[bestStart .. bestStart + k];
  }

  /** `Mogi._minimize_range`: no window when fewer than `k` players are given or `k <= 1`; otherwise
      the scan's window over the players sorted by rating. */
  method MinimizeRange(players: seq<Player>, k: nat) returns (r: Option<seq<Player>>)
    ensures r == TightestWindow(players, k)
  {
    if |players| < k {
      return None;
    }
    if k <= 1 {
      return None;
    }
    var sorted := SortByRating(players);
    var best := ScanTightest(sorted, k);
    return Some(best);
  }

  /** The window the algorithm checks when its pool holds `pool` (at least `ppr` players). */
  function BestWindow(pool: seq<Player>, ppr: nat): seq<Player>
    requires ppr >= 2 && |pool| >= ppr
  {
    TightestWindow(pool, ppr).value
  }

  /** Whether the pool of the first `m` confirmed players has a tightest window passing the check. */
  function PoolPasses(c: seq<Player>, ppr: nat, valid: seq<Player> -> bool): nat -> bool
    requires ppr >= 2
  {
    m => ppr <= m <= |c| && valid(BestWindow(c[..m], ppr))
  }

  /** A pool passes exactly when `_minimize_range` over it yields a window the check accepts. */
  lemma PoolPassesMeans(c: seq<Player>, ppr: nat, valid: seq<Player> -> bool, m: nat)
    requires ppr >= 2 && ppr <= m <= |c|
    ensures PoolPasses(c, ppr, valid)(m) <==> valid(TightestWindow(c[..m], ppr).value)
  {
    assert BestWindow(c[..m], ppr) == TightestWindow(c[..m], ppr).value;
  }

  /** The first `m'` in `m ..= hi` for which `passes` holds, trying them in increasing order. */
  function FirstPassing(passes: nat -> bool, m: nat, hi: nat): (r: Option<nat>)
    requires m <= hi
    ensures r.Some? ==> m <= r.value <= hi
    decreases hi - m
  {
    if passes(m) then Some(m)
    else if m == hi then None
    else FirstPassing(passes, m + 1, hi)
  }

  /** The search finds the least `m'` in `m ..= hi` that passes, and finds none exactly when none passes. */
  lemma {:induction false} FirstPassingIsLeast(passes: nat -> bool, m: nat, hi: nat)
    requires m <= hi
    ensures FirstPassing(passes, m, hi).None? <==> forall m' :: m <= m' <= hi ==> !passes(m')
    ensures var r := FirstPassing(passes, m, hi);
            r.Some? ==> passes(r.value) && forall m' :: m <= m' < r.value ==> !passes(m')
    decreases hi - m
  {
    if !passes(m) && m < hi {
      FirstPassingIsLeast(passes, m + 1, hi);
    }
  }

  /** The result of `_one_room_final_list_algorithm` for the confirmed players of `teams`. */
  function OneRoomFinalList(teams: seq<Team>, ppr: nat, valid: seq<Player> -> bool): (seq<Player>, AlgorithmStatus)
    requires ppr >= 2
  {
    var rooms := MaxPossibleRooms(teams, ppr);
    var c := PlayersOnConfirmedTeams(teams);
    NumPlayersIsConfirmedLength(teams);
    if rooms == 0 then ([], InsufficientPlayers)
    else if rooms > 1 then (c[..ppr * rooms], TwoOrMoreRooms)
    else
      match FirstPassing(PoolPasses(c, ppr, valid), ppr, |c|)
      case Some(m) => (BestWindow(c[..m], ppr), SuccessFound)
      case None => ([], SuccessEmpty)
  }

  /** `Mogi._one_room_final_list_algorithm`: with no full room there is nothing to do; with two or
      more rooms the first players in join order are taken unbalanced; with exactly one room the pool
      starts with the first `ppr` confirmed players and late players are appended one at a time, in
      join order, until the tightest window of the pool passes `valid`. */
  method OneRoomFinalListAlgorithm(teams: seq<Team>, ppr: nat, valid: seq<Player> -> bool)
    returns (list: seq<Player>, status: AlgorithmStatus)
    requires ppr >= 2
    ensures (list, status) == OneRoomFinalList(teams, ppr, valid)
  {
    var rooms := NumPlayers(teams) / ppr;
    if rooms == 0 {
      return [], InsufficientPlayers;
    }
    NumPlayersIsConfirmedLength(teams);
    if rooms > 1 {
      var confirmed := PlayersOnConfirmedTeams(teams);
      return confirmed[0 .. ppr * rooms], TwoOrMoreRooms;
    }
    var confirmed := PlayersOnConfirmedTeams(teams);
    var curCheckList := confirmed[0 .. ppr];
    var latePlayers := confirmed[ppr..];
    ghost var m: nat := ppr;
    while true
      invariant ppr <= m <= |confirmed|
      invariant curCheckList == confirmed[..m] && latePlayers == confirmed[m..]
      invariant FirstPassing(PoolPasses(confirmed, ppr, valid), ppr, |confirmed|) ==
                FirstPassing(PoolPasses(confirmed, ppr, valid), m, |confirmed|)
      decreases |latePlayers|
    {
      var best := MinimizeRange(curCheckList, ppr);
      PoolPassesMeans(confirmed, ppr, valid, m);
      if valid(best.value) {
        return best.value, SuccessFound;
      }
      if |latePlayers| == 0 {
        break;
      }
      curCheckList := curCheckList + [latePlayers[0]];
      latePlayers := latePlayers[1..];
      assert confirmed[..m] + [confirmed[m]] == confirmed[..m + 1];
      m := m + 1;
    }
    return [], SuccessEmpty;
  }

  /** The status of the one-room algorithm is decided first by the room count: no full room gives
      nothing with INSUFFICIENT_PLAYERS, two or more rooms give the first `ppr * rooms` confirmed players
      in join order, unbalanced, with 2_OR_MORE_ROOMS. */
  lemma OneRoomFinalListByRoomCount(teams: seq<Team>, ppr: nat, valid: seq<Player> -> bool)
    requires ppr >= 2
    ensures var r := OneRoomFinalList(teams, ppr, valid);
            (r.1 == InsufficientPlayers <==> MaxPossibleRooms(teams, ppr) == 0) &&
            (r.1 == InsufficientPlayers ==> r.0 == [])
    ensures var r := OneRoomFinalList(teams, ppr, valid);
            var rooms := MaxPossibleRooms(teams, ppr);
            (r.1 == TwoOrMoreRooms <==> rooms > 1) &&
            (r.1 == TwoOrMoreRooms ==> r.0 <= PlayersOnConfirmedTeams(teams) && |r.0| == ppr * rooms)
  {
    NumPlayersIsConfirmedLength(teams);
  }

  /** With exactly one possible room the search comes back empty (SUCCESS_EMPTY, no players) exactly
      when no pool — the first `ppr` confirmed players, then each extension by the next late player in
      join order — has a tightest window that passes the check. */
  lemma OneRoomFinalListEmpty(teams: seq<Team>, ppr: nat, valid: seq<Player> -> bool)
    requires ppr >= 2
    requires MaxPossibleRooms(teams, ppr) == 1
    ensures var c := PlayersOnConfirmedTeams(teams);
            ppr <= |c| &&
            (OneRoomFinalList(teams, ppr, valid).1 == SuccessEmpty <==>
               forall m :: ppr <= m <= |c| ==> !PoolPasses(c, ppr, valid)(m))
    ensures OneRoomFinalList(teams, ppr, valid).1 == SuccessEmpty ==> OneRoomFinalList(teams, ppr, valid).0 == []
  {
    NumPlayersIsConfirmedLength(teams);
    var c := PlayersOnConfirmedTeams(teams);
    FirstPassingIsLeast(PoolPasses(c, ppr, valid), ppr, |c|);
  }

  /** A successful one-room search returns `ppr` confirmed players that pass the check. */
  lemma OneRoomFinalListFound(teams: seq<Team>, ppr: nat, valid: seq<Player> -> bool)
    requires ppr >= 2
    requires OneRoomFinalList(teams, ppr, valid).1 == SuccessFound
    ensures var list := OneRoomFinalList(teams, ppr, valid).0;
            |list| == ppr && valid(list) && multiset(list) <= multiset(PlayersOnConfirmedTeams(teams))
  {
    NumPlayersIsConfirmedLength(teams);
    var c := PlayersOnConfirmedTeams(teams);
    var m := FirstPassing(PoolPasses(c, ppr, valid), ppr, |c|).value;
    FirstPassingIsLeast(PoolPasses(c, ppr, valid), ppr, |c|);
    var w := BestWindow(c[..m], ppr);
    assert OneRoomFinalList(teams, ppr, valid).0 == w;
    TightestWindowSorted(c[..m], ppr);
    PrefixMultiset(c, m);
  }

  lemma PrefixMultiset<T>(s: seq<T>, m: nat)
    requires m <= |s|
    ensures multiset(s[..m]) <= multiset(s)
  {
    assert s == s[..m] + s[m..];
  }

  /** The players of a successful one-room search are the tightest window of the first pool that
      passes the check, every smaller pool having failed. */
  lemma OneRoomFinalListFirstPassingPool(teams: seq<Team>, ppr: nat, valid: seq<Player> -> bool)
    requires ppr >= 2
    requires OneRoomFinalList(teams, ppr, valid).1 == SuccessFound
    ensures var c := PlayersOnConfirmedTeams(teams);
            var list := OneRoomFinalList(teams, ppr, valid).0;
            exists m :: ppr <= m <= |c| && list == BestWindow(c[..m], ppr) &&
                        forall m' :: ppr <= m' < m ==> !PoolPasses(c, ppr, valid)(m')
  {
    NumPlayersIsConfirmedLength(teams);
    var c := PlayersOnConfirmedTeams(teams);
    var m := FirstPassing(PoolPasses(c, ppr, valid), ppr, |c|).value;
    FirstPassingIsLeast(PoolPasses(c, ppr, valid), ppr, |c|);
    assert OneRoomFinalList(teams, ppr, valid).0 == BestWindow(c[..m], ppr);
  }

  /** `Mogi._mk8dx_generate_final_list`: the first `ppr * max_possible_rooms` confirmed players in join order. */
  function Mk8dxGenerateFinalList(teams: seq<Team>, ppr: nat): (r: seq<Player>)
    requires ppr > 0
    ensures |r| == ppr * MaxPossibleRooms(teams, ppr)
    ensures r <= PlayersOnConfirmedTeams(teams)
    ensures |PlayersOnConfirmedTeams(teams)| - |r| < ppr
  {
    NumPlayersIsConfirmedLength(teams);
    PlayersOnConfirmedTeams(teams)[..ppr * MaxPossibleRooms(teams, ppr)]
  }

  /** `Mogi.generate_proposed_list`: the MK8DX truncation rule, the MKW one-room algorithm, and a
      ValueError for any other server. */
  method GenerateProposedList(server: Server, teams: seq<Team>, ppr: nat, valid: seq<Player> -> bool)
    returns (r: Result<seq<Player>, string>)
    requires ppr >= 2
    ensures r == ProposedList(server, teams, ppr, valid)
  {
    if server == MK8DX {
      return Success(Mk8dxGenerateFinalList(teams, ppr));
    } else if server == MKW {
      var list, _ := OneRoomFinalListAlgorithm(teams, ppr, valid);
      return Success(list);
    } else {
      return Failure("Unknown server in config");
    }
  }

  /** The list `generate_proposed_list` proposes. */
  function ProposedList(server: Server, teams: seq<Team>, ppr: nat, valid: seq<Player> -> bool): Result<seq<Player>, string>
    requires ppr >= 2
  {
    if server == MK8DX then Success(Mk8dxGenerateFinalList(teams, ppr))
    else if server == MKW then Success(OneRoomFinalList(teams, ppr, valid).0)
    else Failure("Unknown server in config")
  }

  /** A proposed list only fails on a server without an algorithm; otherwise it consists of confirmed
      players and fills whole rooms of `ppr`, never more rooms than the roster can fill. */
  lemma ProposedListFillsWholeRooms(server: Server, teams: seq<Team>, ppr: nat, valid: seq<Player> -> bool)
    requires ppr >= 2
    ensures ProposedList(server, teams, ppr, valid).Failure? <==> server == MKWorld
    ensures var r := ProposedList(server, teams, ppr, valid);
            r.Success? ==> (exists n: nat :: n <= MaxPossibleRooms(teams, ppr) && |r.value| == ppr * n) &&
                           multiset(r.value) <= multiset(PlayersOnConfirmedTeams(teams))
  {
    var c := PlayersOnConfirmedTeams(teams);
    NumPlayersIsConfirmedLength(teams);
    var rooms := MaxPossibleRooms(teams, ppr);
    if server == MK8DX {
      var r := Mk8dxGenerateFinalList(teams, ppr);
      assert c == r + c[|r|..];
      assert |r| == ppr * rooms;
    } else if server == MKW {
      OneRoomFinalListByRoomCount(teams, ppr, valid);
      var (list, status) := OneRoomFinalList(teams, ppr, valid);
      if status == TwoOrMoreRooms {
        assert c == list + c[|list|..];
      } else if status == SuccessFound {
        OneRoomFinalListFound(teams, ppr, valid);
        assert |list| == ppr * 1;
      } else {
        assert |list| == ppr * 0;
      }
    }
  }
}
