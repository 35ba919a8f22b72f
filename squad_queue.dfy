/** cogs/SquadQueue.py: the queue cog as a state machine over the next, ongoing and old events, the
    two override lists and the flag that allows new events. Every command and every step of the
    scheduler is a method; the current time is a parameter, and Discord replies are returned as
    values. */
module SquadQueueCog {
  import opened Wrappers
  import opened Common
  import opened Roster
  import opened RoomAssignment
  import opened Schedule
  import opened Messages
  import opened QueueRules
  import opened Mogis
  import Ratings

  /** A text channel, known only by its id. */
  type ChannelId = int

  /** 2024-08-01 00:00:00 UTC, the day the forced-format rotation is counted from. */
  const ForcedFormatEpoch: Time := 1722470400

  const SecondsPerDay: int := 86400

  /** The configuration the cog reads when it is created; durations are in minutes there. */
  datatype QueueConfig = QueueConfig(
    queueOpenMinutes: int, joiningMinutes: int, displayOffsetMinutes: int, extensionMinutes: int,
    firstEventMinutes: int, forcedFormatHourlyOffset: int, forcedFormatOrder: seq<string>,
    queuesBetweenForcedFormatQueue: Option<int>, forcedFormatOrderOffset: int,
    forcedFormatAutoscheduleAmount: int, placementPlayerMmr: int, mogiLifetimeMinutes: int,
    roomMmrThreshold: int)

  /** The replies of `join_queue`. */
  datatype JoinReply =
    | QueueNotStarted
    | AlreadySignedUpAsHost
    | ChangedToNonHost
    | ChangedToHost
    | AlreadySignedUp
    | RatingsUnavailable
    | FetchFailed
    | Joined(player: Player, placement: bool)

  /** The replies of `drop` and `remove_player`. */
  datatype DropReply = DropNotStarted | NotInEvent | Removed(team: Team)

  /** How `add_teams_to_rooms` ends. `UnknownServer` is the error raised by `generate_proposed_list`
      on a server without a room algorithm. */
  datatype RoomsOutcome = InvalidOpenTime | AlreadyMakingRooms | NotEnoughPlayers | UnknownServer | RoomsMade

  /** `allowed_players_check` as the function value passed to `generate_proposed_list`. */
  function RoomCheck(server: Server, threshold: int, adjusted: Player -> int): seq<Player> -> bool
  {
    ps => AllowedPlayersCheck(server, ps, threshold, adjusted)
  }

  /** An event as the scheduler creates it: automated, with a start time, one player per team at most
      twelve per room. */
  predicate Scheduled(m: Mogi)
  {
    m.isAutomated && m.startTime.Some? && 0 < m.maxPlayersPerTeam <= PlayersPerRoom && m.playersPerRoom >= 2
  }

  /** What the close decision reads from an event. */
  function Facts(m: Mogi): EventFacts
    requires m.startTime.Some?
    reads m
  {
    EventFacts(m.isAutomated, m.started, m.makingRoomsRun, m.startTime.value, m.teams, m.maxPlayersPerTeam,
               m.playersPerRoom)
  }

  /** The minute of the hour of an instant (`start_time.minute`). */
  function MinuteOfHour(t: Time): (r: int)
    ensures 0 <= r < 60
  {
    (t % 3600) / 60
  }

  /** The old events kept by `delete_old_mogis`: those whose start time is not more than the
      lifetime before `now`. */
  function KeptEvents(events: seq<Mogi>, now: Time, lifetime: int): (r: seq<Mogi>)
    requires forall i :: 0 <= i < |events| ==> events[i].startTime.Some?
    ensures forall i :: 0 <= i < |r| ==> r[i] in events && !(now - lifetime > r[i].startTime.value)
    ensures forall i :: 0 <= i < |events| && !(now - lifetime > events[i].startTime.value) ==> events[i] in r
    ensures |r| <= |events|
  {
    if events == [] then []
    else
      var rest := KeptEvents(events[1..], now, lifetime);
      if now - lifetime > events[0].startTime.value then rest else [events[0]] + rest
  }

  /** The `delete_queue` of `delete_old_mogis`: the old events past their lifetime, in list order. */
  function ExpiredEvents(events: seq<Mogi>, now: Time, lifetime: int): (r: seq<Mogi>)
    requires forall i :: 0 <= i < |events| ==> events[i].startTime.Some?
    ensures forall i :: 0 <= i < |r| ==> r[i] in events && now - lifetime > r[i].startTime.value
    ensures forall i :: 0 <= i < |events| && now - lifetime > events[i].startTime.value ==> events[i] in r
  {
    if events == [] then []
    else
      var rest := ExpiredEvents(events[1..], now, lifetime);
      if now - lifetime > events[0].startTime.value then [events[0]] + rest else rest
  }

  /** The list without the members of `gone`, in order. */
  function Without(events: seq<Mogi>, gone: seq<Mogi>): (r: seq<Mogi>)
    ensures forall i :: 0 <= i < |r| ==> r[i] in events && r[i] !in gone
    ensures forall i :: 0 <= i < |events| && events[i] !in gone ==> events[i] in r
  {
    if events == [] then []
    else
      var rest := Without(events[1..], gone);
      if events[0] in gone then rest else [events[0]] + rest
  }

  predicate Distinct(events: seq<Mogi>)
  {
    forall i, j :: 0 <= i < j < |events| ==> events[i] != events[j]
  }

  /** Only which listed elements are gone matters. */
  lemma {:induction false} WithoutSameGone(events: seq<Mogi>, gone: seq<Mogi>, gone': seq<Mogi>)
    requires forall i :: 0 <= i < |events| ==> (events[i] in gone <==> events[i] in gone')
    ensures Without(events, gone) == Without(events, gone')
    decreases |events|
  {
    if events != [] {
      WithoutSameGone(events[1..], gone, gone');
    }
  }

  /** In a list without repeats, `list.remove` of a listed element that is not yet gone is the same
      as adding it to the gone elements. */
  lemma {:induction false} RemoveFirstWithout(events: seq<Mogi>, gone: seq<Mogi>, x: Mogi)
    requires Distinct(events) && x in events && x !in gone
    ensures RemoveFirst(Without(events, gone), x) == Without(events, gone + [x])
    decreases |events|
  {
    var rest := events[1..];
    assert Distinct(rest) by {
      forall i, j | 0 <= i < j < |rest| ensures rest[i] != rest[j] {
        assert rest[i] == events[i + 1] && rest[j] == events[j + 1];
      }
    }
    if events[0] == x {
      forall j | 0 <= j < |rest| ensures rest[j] in gone <==> rest[j] in gone + [x] {
        assert rest[j] == events[j + 1];
      }
      WithoutSameGone(rest, gone, gone + [x]);
    } else {
      assert x in rest;
      RemoveFirstWithout(rest, gone, x);
    }
  }

  /** Removing the expired events one by one leaves exactly the kept ones. */
  lemma {:induction false} WithoutExpiredIsKept(events: seq<Mogi>, now: Time, lifetime: int)
    requires forall i :: 0 <= i < |events| ==> events[i].startTime.Some?
    requires Distinct(events)
    ensures Without(events, ExpiredEvents(events, now, lifetime)) == KeptEvents(events, now, lifetime)
    decreases |events|
  {
    if events != [] {
      var rest := events[1..];
      assert Distinct(rest) by {
        forall i, j | 0 <= i < j < |rest| ensures rest[i] != rest[j] {
          assert rest[i] == events[i + 1] && rest[j] == events[j + 1];
        }
      }
      WithoutExpiredIsKept(rest, now, lifetime);
      var gone := ExpiredEvents(events, now, lifetime);
      var gone' := ExpiredEvents(rest, now, lifetime);
      forall j | 0 <= j < |rest| ensures rest[j] in gone <==> rest[j] in gone' {
        assert rest[j] == events[j + 1] && rest[j] != events[0];
      }
      WithoutSameGone(rest, gone, gone');
    }
  }

  /** Dropping nothing keeps the list. */
  lemma {:induction false} WithoutNothing(events: seq<Mogi>)
    ensures Without(events, []) == events
    decreases |events|
  {
    if events != [] {
      WithoutNothing(events[1..]);
    }
  }

  /** Dropping elements keeps a list without repeats. */
  lemma {:induction false} WithoutDistinct(events: seq<Mogi>, gone: seq<Mogi>)
    requires Distinct(events)
    ensures Distinct(Without(events, gone))
    decreases |events|
  {
    if events != [] {
      var rest := events[1..];
      assert Distinct(rest) by {
        forall i, j | 0 <= i < j < |rest| ensures rest[i] != rest[j] {
          assert rest[i] == events[i + 1] && rest[j] == events[j + 1];
        }
      }
      WithoutDistinct(rest, gone);
      var r := Without(rest, gone);
      assert events[0] !in r by {
        forall j | 0 <= j < |rest| ensures rest[j] != events[0] {
          assert rest[j] == events[j + 1];
        }
      }
    }
  }

  /** `for mogi in delete_queue: old_events.remove(mogi)`: in a list without repeats, removing the
      queued elements one by one drops exactly them. */
  method RemoveEach(events: seq<Mogi>, queue: seq<Mogi>) returns (remaining: seq<Mogi>)
    requires Distinct(events)
    requires forall k :: 0 <= k < |queue| ==> queue[k] in events
    ensures remaining == Without(events, queue)
  {
    remaining := events;
    WithoutNothing(events);
    for k := 0 to |queue|
      invariant remaining == Without(events, queue[..k])
    {
      var mogi := queue[k];
      assert queue[..k + 1] == queue[..k] + [mogi];
      RemoveOneMore(events, queue[..k], mogi);
      remaining := RemoveFirst(remaining, mogi);
    }
    assert queue[..|queue|] == queue;
  }

  /** One step of the removal loop: removing the next queued event from what is left is the same as
      adding it to the gone events, whether or not it was already removed. */
  lemma RemoveOneMore(events: seq<Mogi>, done: seq<Mogi>, mogi: Mogi)
    requires Distinct(events) && mogi in events
    ensures RemoveFirst(Without(events, done), mogi) == Without(events, done + [mogi])
  {
    if mogi in done {
      RemoveFirstAbsent(Without(events, done), mogi);
      forall i | 0 <= i < |events| ensures events[i] in done <==> events[i] in done + [mogi] {
      }
      WithoutSameGone(events, done, done + [mogi]);
    } else {
      RemoveFirstWithout(events, done, mogi);
    }
  }


  /** The proposed list fills at most as many rooms as its length allows. */
  lemma ChunkCountOfWholeRooms(list: seq<Player>, ppr: nat, n: nat)
    requires ppr > 0 && |list| == ppr * n
    ensures |DivideChunks(list, ppr)| <= n
  {
    DivideChunksCount(list, ppr);
  }

  /** A member is on at most one team of an event. */
  ghost predicate MembersUnique(teams: seq<Team>)
  {
    forall i, j, m :: 0 <= i < j < |teams| && HasPlayer(teams[i], m) ==> !HasPlayer(teams[j], m)
  }

  /** What `get_rating([member])` can return: at most one player, and only the member asked for. */
  predicate OnlyMember(rated: Result<seq<Player>, Ratings.NotReady>, member: MemberId)
  {
    rated.Success? ==> |rated.value| <= 1 && forall k :: 0 <= k < |rated.value| ==> rated.value[k].member == member
  }

  /** The ratings lookup of one member yields at most that member. */
  lemma RatedOnlyMember(table: Ratings.Table, member: MemberId)
    ensures OnlyMember(Success(Ratings.RatedPlayers(table, [member])), member)
  {
    assert [member][..0] == [];
  }

  /** `join_queue` on an event that takes joins: the reply and the event's new roster. A member
      already on a team only has the host flag of their entry changed; otherwise the ratings lookup
      decides, with the placement rating for a member with the placement role who has no rating. */
  function Join(teams: seq<Team>, member: MemberId, displayName: string, hasPlacementRole: bool, host: bool,
                rated: Result<seq<Player>, Ratings.NotReady>, placementMmr: int): (JoinReply, seq<Team>)
  {
    match CheckPlayer(teams, member)
    case Some(i) =>
      var wasHost := GetPlayer(teams[i], member).value.host;
      var reply := if wasHost && host then AlreadySignedUpAsHost
                   else if wasHost then ChangedToNonHost
                   else if host then ChangedToHost
                   else AlreadySignedUp;
      (reply, teams[i := WithHost(teams[i], member, host)])
    case None =>
      match rated
      case Failure(_) => (RatingsUnavailable, teams)
      case Success(players) =>
        if players == [] && !hasPlacementRole then (FetchFailed, teams)
        else
          var found := if players == [] then [Player(member, displayName, placementMmr, false, false)] else players;
          var p := found[0].(confirmed := true, host := host);
          (Joined(p, players == []), teams + [Team(found[0 := p])])
  }

  /** A member already signed up keeps their place: no team is added or removed, nobody joins or
      leaves a team, and the member's entry now carries the requested host flag. The reply says
      whether the flag changed. */
  lemma JoinRejoins(teams: seq<Team>, member: MemberId, displayName: string, hasPlacementRole: bool, host: bool,
                    rated: Result<seq<Player>, Ratings.NotReady>, placementMmr: int)
    requires CheckPlayer(teams, member).Some?
    ensures var (reply, after) := Join(teams, member, displayName, hasPlacementRole, host, rated, placementMmr);
            var i := CheckPlayer(teams, member).value;
            var before := GetPlayer(teams[i], member).value;
            reply in {AlreadySignedUpAsHost, ChangedToNonHost, ChangedToHost, AlreadySignedUp} &&
            ((reply == ChangedToHost || reply == ChangedToNonHost) <==> before.host != host) &&
            (reply == AlreadySignedUpAsHost <==> before.host && host) &&
            |after| == |teams| &&
            (forall k, x :: 0 <= k < |teams| ==> (HasPlayer(after[k], x) <==> HasPlayer(teams[k], x))) &&
            (forall k :: 0 <= k < |teams| && k != i ==> after[k] == teams[k]) &&
            GetPlayer(after[i], member) == Some(before.(host := host))
  {
    var i := CheckPlayer(teams, member).value;
    WithHostChangesFoundPlayer(teams[i], member, host);
    forall x ensures HasPlayer(WithHost(teams[i], member, host), x) <==> HasPlayer(teams[i], x) {
      WithHostKeepsRoster(teams[i], member, host, x);
    }
  }

  /** A member not yet signed up joins exactly when the ratings are loaded and either have a rating
      for them or they hold the placement role; the roster then gains one team, at the end, holding
      only them, confirmed and with the requested host flag. Otherwise the roster is unchanged. */
  lemma JoinAddsTeam(teams: seq<Team>, member: MemberId, displayName: string, hasPlacementRole: bool, host: bool,
                     rated: Result<seq<Player>, Ratings.NotReady>, placementMmr: int)
    requires CheckPlayer(teams, member).None?
    requires OnlyMember(rated, member)
    ensures var (reply, after) := Join(teams, member, displayName, hasPlacementRole, host, rated, placementMmr);
            (reply.Joined? <==> rated.Success? && (rated.value != [] || hasPlacementRole)) &&
            (!reply.Joined? ==> after == teams) &&
            (reply.Joined? ==>
               after == teams + [Team([reply.player])] &&
               reply.player.member == member && reply.player.confirmed && reply.player.host == host &&
               (reply.placement <==> rated.value == []) &&
               reply.player.mmr == (if reply.placement then placementMmr else rated.value[0].mmr))
    ensures Join(teams, member, displayName, hasPlacementRole, host, rated, placementMmr).0 == RatingsUnavailable
            <==> rated.Failure?
  {
    var (reply, _) := Join(teams, member, displayName, hasPlacementRole, host, rated, placementMmr);
    if reply.Joined? {
      var found := if rated.value == [] then [Player(member, displayName, placementMmr, false, false)] else rated.value;
      assert |found| == 1;
      assert found[0 := reply.player] == [reply.player];
    }
  }

  /** Joining keeps every member on at most one team. */
  lemma JoinKeepsMembersUnique(teams: seq<Team>, member: MemberId, displayName: string, hasPlacementRole: bool,
                               host: bool, rated: Result<seq<Player>, Ratings.NotReady>, placementMmr: int)
    requires MembersUnique(teams) && OnlyMember(rated, member)
    ensures MembersUnique(Join(teams, member, displayName, hasPlacementRole, host, rated, placementMmr).1)
  {
    var (reply, after) := Join(teams, member, displayName, hasPlacementRole, host, rated, placementMmr);
    if CheckPlayer(teams, member).Some? {
      JoinRejoins(teams, member, displayName, hasPlacementRole, host, rated, placementMmr);
    } else if reply.Joined? {
      JoinAddsTeam(teams, member, displayName, hasPlacementRole, host, rated, placementMmr);
      forall i, j, x | 0 <= i < j < |after| && HasPlayer(after[i], x) ensures !HasPlayer(after[j], x) {
        if j == |teams| {
          assert HasPlayer(after[j], x) ==> x == member;
        }
      }
    }
  }

  /** `drop` and `remove_player` on an event that takes drops: the team holding the member is
      removed whole. */
  function Drop(teams: seq<Team>, member: MemberId): (DropReply, seq<Team>)
  {
    match CheckPlayer(teams, member)
    case None => (NotInEvent, teams)
    case Some(i) => (Removed(teams[i]), RemoveAt(teams, i))
  }

  /** Dropping removes exactly the member's team, so that afterwards the member is on no team, and
      a member on no team gets "not in this event" with the roster unchanged. */
  lemma DropRemovesMember(teams: seq<Team>, member: MemberId)
    requires MembersUnique(teams)
    ensures var (reply, after) := Drop(teams, member);
            (reply.Removed? <==> exists k :: 0 <= k < |teams| && HasPlayer(teams[k], member)) &&
            (reply.NotInEvent? ==> after == teams) &&
            (reply.Removed? ==> HasPlayer(reply.team, member) && |after| == |teams| - 1 &&
                                multiset(after) + multiset{reply.team} == multiset(teams)) &&
            (forall k :: 0 <= k < |after| ==> !HasPlayer(after[k], member)) &&
            MembersUnique(after)
  {
    if CheckPlayer(teams, member).Some? {
      var i := CheckPlayer(teams, member).value;
      assert teams == teams[..i] + [teams[i]] + teams[i + 1..];
      var after := RemoveAt(teams, i);
      forall k | 0 <= k < |after| ensures !HasPlayer(after[k], member) {
        if k < i {
          assert after[k] == teams[k];
        } else {
          assert after[k] == teams[k + 1];
        }
      }
      forall a, b, x | 0 <= a < b < |after| && HasPlayer(after[a], x) ensures !HasPlayer(after[b], x) {
        var a' := if a < i then a else a + 1;
        var b' := if b < i then b else b + 1;
        assert after[a] == teams[a'] && after[b] == teams[b'];
      }
    }
  }

  /** How `add_teams_to_rooms` ends, from its checks in order: the opening minute, a second
      automatic run, a roster without one full room, a server without a room algorithm. */
  function RoomsDecision(openTime: int, startedAutomatically: bool, makingRoomsRun: bool, maxRooms: nat,
                         server: Server): RoomsOutcome
  {
    if openTime >= 60 || openTime < 0 then InvalidOpenTime
    else if makingRoomsRun && startedAutomatically then AlreadyMakingRooms
    else if maxRooms == 0 then NotEnoughPlayers
    else if server == MKWorld then UnknownServer
    else RoomsMade
  }

  /** The proposed list, cut into rooms. */
  function ProposedRooms(server: Server, teams: seq<Team>, ppr: nat, allowed: seq<Player> -> bool): seq<seq<Player>>
    requires ppr >= 2 && server != MKWorld
  {
    ProposedListFillsWholeRooms(server, teams, ppr, allowed);
    DivideChunks(ProposedList(server, teams, ppr, allowed).value, ppr)
  }

  lemma MulMonotone(a: nat, b: nat, c: nat)
    requires a <= b
    ensures a * c <= b * c
  {
  }

  /** A list of `n` whole rooms cuts into rooms of exactly `ppr` players, each drawn from the list. */
  lemma {:induction false} WholeRoomChunk(list: seq<Player>, ppr: nat, n: nat, k: nat)
    requires ppr > 0 && |list| == ppr * n
    requires k < |DivideChunks(list, ppr)|
    ensures |DivideChunks(list, ppr)[k]| == ppr
    ensures multiset(DivideChunks(list, ppr)[k]) <= multiset(list)
  {
    ChunkCountOfWholeRooms(list, ppr, n);
    DivideChunksAt(list, ppr, k);
    MulMonotone(k + 1, n, ppr);
    var lo, hi := k * ppr, k * ppr + ppr;
    assert hi <= |list|;
    assert list == list[..lo] + list[lo .. hi] + list[hi..];
  }

  /** Every proposed room is a full room of confirmed players, and there are no more proposed
      rooms than full rooms the roster allows. */
  lemma ProposedRoomsAreFull(server: Server, teams: seq<Team>, ppr: nat, allowed: seq<Player> -> bool)
    requires ppr >= 2 && server != MKWorld
    ensures var chunks := ProposedRooms(server, teams, ppr, allowed);
            |chunks| <= MaxPossibleRooms(teams, ppr) &&
            forall k :: 0 <= k < |chunks| ==>
              |chunks[k]| == ppr && multiset(chunks[k]) <= multiset(PlayersOnConfirmedTeams(teams))
  {
    ProposedListFillsWholeRooms(server, teams, ppr, allowed);
    var list := ProposedList(server, teams, ppr, allowed).value;
    var n: nat :| n <= MaxPossibleRooms(teams, ppr) && |list| == ppr * n;
    ChunkCountOfWholeRooms(list, ppr, n);
    forall k | 0 <= k < |DivideChunks(list, ppr)|
      ensures |DivideChunks(list, ppr)[k]| == ppr && multiset(DivideChunks(list, ppr)[k]) <= multiset(list)
    {
      WholeRoomChunk(list, ppr, n, k);
    }
  }

  /** A non-empty set of channels has a member. */
  lemma ChannelOf(channels: set<ChannelId>)
    requires channels != {}
    ensures exists c :: c in channels
  {
    if forall c :: c !in channels {
      assert false;
    }
  }

  class SquadQueue {
    const server: Server
    var next: Mogi?
    var ongoing: Mogi?
    var oldEvents: seq<Mogi>
    /** `sq_times`: instants at which a Squad Queue replaces the regular event, increasing. */
    var sqTimes: seq<Time>
    /** `forced_format_times`: (display time, format) pairs, increasing by time. */
    var forcedFormatTimes: seq<FormatOverride>
    const forcedFormatOrder: seq<string>
    const queuesBetweenForcedFormatQueue: Option<int>
    var lastExtensionMessageTimestamp: Time
    var curExtensionMessage: Option<ExtensionMessage>
    /** `msg_queue`: the messages waiting to be sent, per channel. */
    var msgQueue: map<ChannelId, seq<string>>
    var launchNewEvents: bool
    /** The instants at which a `call_later(allow_new_mogis)` is due; the event loop firing them is
        not part of this model. */
    var resumeTimers: seq<Time>
    const placementPlayerMmr: int
    /** Seconds an old event is kept. */
    const mogiLifetime: int
    const roomMmrThreshold: int
    /** Seconds between event openings (`QUEUE_OPEN_TIME`). */
    var queueOpenTime: int
    /** Seconds from an opening to the event's start (`JOINING_TIME`). */
    var joiningTime: int
    const displayOffset: int
    const extensionTime: int
    const firstEventTime: Time
    const forcedFormatFirstEvent: Time
    const forcedFormatOrderOffset: int
    const forcedFormatAutoscheduleAmount: int
    /** A player's rating for matchmaking (`adjusted_mmr`), which the shown Player lacks. */
    const adjusted: Player -> int
    /** An event's `any_room_cancelled`, as a function of its teams. */
    const anyRoomCancelled: seq<Team> -> bool
    const ratings: Ratings.Ratings

    /** The class invariant: the configured times are consistent, the override lists are sorted,
        the next event has not started, the ongoing one has, the old events are distinct and no
        longer gathering, and no event is in two places. Only the ongoing event can be gathering,
        and no member is on two teams of the next or the ongoing event. */
    ghost predicate Valid()
      reads this, next, ongoing, oldEvents
    {
      queueOpenTime > 0 && queueOpenTime >= joiningTime + extensionTime &&
      (queuesBetweenForcedFormatQueue.Some? ==> queuesBetweenForcedFormatQueue.value >= 0) &&
      StrictlyIncreasing(forcedFormatTimes) && TimesIncreasing(sqTimes) &&
      (next != null ==> Scheduled(next) && !next.started && !next.gathering && next != ongoing && next !in oldEvents &&
                        MembersUnique(next.teams)) &&
      (ongoing != null ==> Scheduled(ongoing) && ongoing.started && ongoing !in oldEvents && MembersUnique(ongoing.teams)) &&
      Distinct(oldEvents) &&
      (forall i :: 0 <= i < |oldEvents| ==> !oldEvents[i].gathering && oldEvents[i].startTime.Some?)
    }

    /** The ongoing event as a set, for frames. */
    function Current(): set<Mogi>
      reads this`ongoing
    {
      if ongoing == null then {} else {ongoing}
    }

    /** The state the close decision works on. */
    function CloseStateOf(): CloseState
      requires ongoing != null
      reads this`ongoing, this`curExtensionMessage, this`lastExtensionMessageTimestamp, ongoing
    {
      CloseState(ongoing.gathering, ongoing.additionalExtension, ongoing.hasCheckedAutoExtend, curExtensionMessage,
                 lastExtensionMessageTimestamp)
    }

    /** `SquadQueue.__init__`: no events, empty override lists, new events allowed. The daily
        schedule is anchored at today's midnight (UTC) plus the configured minutes, or at the current
        minute outside production; the forced-format rotation at 2024-08-01 plus the same minutes and
        the configured hours. The assertion that an event's joining and extension time fit in the
        interval between events is a precondition. */
    constructor (server: Server, config: QueueConfig, isProduction: bool, now: Time, ratings: Ratings.Ratings,
                 adjusted: Player -> int, anyRoomCancelled: seq<Team> -> bool)
      requires config.queueOpenMinutes > 0
      requires config.queueOpenMinutes >= config.joiningMinutes + config.extensionMinutes
      requires config.queuesBetweenForcedFormatQueue.Some? ==> config.queuesBetweenForcedFormatQueue.value >= 0
      ensures Valid()
      ensures next == null && ongoing == null && oldEvents == [] && sqTimes == [] && forcedFormatTimes == []
      ensures launchNewEvents && curExtensionMessage == None && msgQueue == map[] && resumeTimers == []
      ensures lastExtensionMessageTimestamp == TruncateToMinute(now)
      ensures queueOpenTime == 60 * config.queueOpenMinutes && joiningTime == 60 * config.joiningMinutes
      ensures extensionTime == 60 * config.extensionMinutes && displayOffset == 60 * config.displayOffsetMinutes
      ensures firstEventTime == if isProduction then now - now % SecondsPerDay + 60 * config.firstEventMinutes
                                else TruncateToMinute(now)
      ensures forcedFormatFirstEvent == ForcedFormatEpoch + 60 * config.firstEventMinutes +
                                        3600 * config.forcedFormatHourlyOffset
      ensures this.server == server && this.ratings == ratings
    {
      this.server := server;
      next := null;
      ongoing := null;
      oldEvents := [];
      sqTimes := [];
      forcedFormatTimes := [];
      forcedFormatOrder := config.forcedFormatOrder;
      queuesBetweenForcedFormatQueue := config.queuesBetweenForcedFormatQueue;
      lastExtensionMessageTimestamp := TruncateToMinute(now);
      curExtensionMessage := None;
      msgQueue := map[];
      launchNewEvents := true;
      resumeTimers := [];
      placementPlayerMmr := config.placementPlayerMmr;
      mogiLifetime := 60 * config.mogiLifetimeMinutes;
      roomMmrThreshold := config.roomMmrThreshold;
      queueOpenTime := 60 * config.queueOpenMinutes;
      joiningTime := 60 * config.joiningMinutes;
      displayOffset := 60 * config.displayOffsetMinutes;
      extensionTime := 60 * config.extensionMinutes;
      firstEventTime := if isProduction then now - now % SecondsPerDay + 60 * config.firstEventMinutes
                        else TruncateToMinute(now);
      forcedFormatFirstEvent := ForcedFormatEpoch + 60 * config.firstEventMinutes +
                                3600 * config.forcedFormatHourlyOffset;
      forcedFormatOrderOffset := config.forcedFormatOrderOffset;
      forcedFormatAutoscheduleAmount := config.forcedFormatAutoscheduleAmount;
      this.adjusted := adjusted;
      this.anyRoomCancelled := anyRoomCancelled;
      this.ratings := ratings;
    }

    /** Only the ongoing event can be gathering. */
    lemma AtMostOneGathering(m: Mogi)
      requires Valid()
      requires m == next || m == ongoing || m in oldEvents
      ensures m.gathering ==> m == ongoing
    {
    }

    /** `get_mogi`: the ongoing event, when the command comes from its channel. */
    function EventInChannel(inQueueChannel: bool): (m: Mogi?)
      reads this`ongoing
      ensures m != null ==> m == ongoing
    {
      if inQueueChannel then ongoing else null
    }

    /** Whether a player command finds an event that takes joins and drops. */
    predicate Accepting(inQueueChannel: bool)
      reads this`ongoing, ongoing
    {
      inQueueChannel && ongoing != null && ongoing.started && ongoing.gathering
    }

    /** `time_between_events` (a command of the companion cog): more than 15 minutes sets the interval
        between openings and makes the joining time fill it up to the extension time; otherwise
        nothing changes. */
    method TimeBetweenEvents(eventMinutes: int) returns (changed: bool)
      requires Valid()
      modifies this`queueOpenTime, this`joiningTime
      ensures Valid()
      ensures changed <==> eventMinutes > 15
      ensures changed ==> queueOpenTime == 60 * eventMinutes && joiningTime + extensionTime == queueOpenTime
      ensures !changed ==> queueOpenTime == old(queueOpenTime) && joiningTime == old(joiningTime)
    {
      if eventMinutes > 15 {
        queueOpenTime := 60 * eventMinutes;
        joiningTime := 60 * eventMinutes - extensionTime;
        return true;
      }
      return false;
    }

    /** `compute_next_event_open_time`: the latest opening of the daily schedule at or before
        `now`. `compute_first_event_of_date_open_time` computes the same formula for a given date in
        place of the current time, so it is this function applied to that date. */
    function ComputeNextEventOpenTime(now: Time): (r: Time)
      requires queueOpenTime > 0
      reads this`queueOpenTime
      ensures r <= now < r + queueOpenTime
      ensures (r - firstEventTime) % queueOpenTime == 0
    {
      OpenTimeAtOrBeforeBounds(now, firstEventTime, queueOpenTime);
      OpenTimeAtOrBefore(now, firstEventTime, queueOpenTime)
    }

    /** `schedule_forced_format_times`: a time in the past is rejected; otherwise the entry is added,
        replacing any entry at the same time, and the list stays sorted. */
    method ScheduleForcedFormatTime(now: Time, time: Time, format: string) returns (added: bool)
      requires Valid()
      modifies this`forcedFormatTimes
      ensures Valid()
      ensures added <==> !(now > time)
      ensures forcedFormatTimes == if added then InsertOverride(old(forcedFormatTimes), FormatOverride(time, format))
                                   else old(forcedFormatTimes)
    {
      if now > time {
        return false;
      }
      var e := FormatOverride(time, format);
      InsertOverrideSorted(forcedFormatTimes, e);
      forcedFormatTimes := InsertOverride(forcedFormatTimes, e);
      return true;
    }

    /** The gap between forced-format events: `QUEUES_BETWEEN_FORCED_FORMAT_QUEUE` intervals. */
    function ForcedFormatGap(): int
      requires queuesBetweenForcedFormatQueue.Some?
      reads this`queueOpenTime
    {
      queuesBetweenForcedFormatQueue.value * queueOpenTime
    }

    /** What `autoschedule_forced_format_times` works from at `now`. */
    function AutoPlan(now: Time): AutoschedulePlan
      requires queuesBetweenForcedFormatQueue.Some? && ForcedFormatGap() > 0
      reads this`queueOpenTime, this`joiningTime
    {
      var between := ForcedFormatGap();
      var c := SlotsUntil(forcedFormatFirstEvent, between, now);
      AutoschedulePlan(forcedFormatFirstEvent + c * between, c, forcedFormatOrder, forcedFormatOrderOffset, between,
                       joiningTime, displayOffset)
    }

    /** How many events one autoschedule adds: the configured amount of whole rotations. */
    function AutoscheduleCount(): nat
    {
      if forcedFormatAutoscheduleAmount * |forcedFormatOrder| > 0 then forcedFormatAutoscheduleAmount * |forcedFormatOrder|
      else 0
    }

    lemma GapPositive()
      requires queueOpenTime > 0 && queuesBetweenForcedFormatQueue.Some? && queuesBetweenForcedFormatQueue.value > 0
      ensures ForcedFormatGap() > 0
    {
      var q := queuesBetweenForcedFormatQueue.value;
      assert q * queueOpenTime >= queueOpenTime by {
        assert q * queueOpenTime == (q - 1) * queueOpenTime + queueOpenTime;
      }
    }

    /** `autoschedule_forced_format_times`: advance from the rotation's first event to the first
        slot not in the past, then add whole rotations of events one gap apart, each replacing an
        entry at the same time. */
    method AutoscheduleForcedFormatTimes(now: Time)
      requires Valid() && |forcedFormatOrder| > 0
      requires queuesBetweenForcedFormatQueue.Some? && queuesBetweenForcedFormatQueue.value > 0
      modifies this`forcedFormatTimes
      ensures Valid()
      ensures ForcedFormatGap() > 0
      ensures forcedFormatTimes == Autoschedule(old(forcedFormatTimes), AutoPlan(now), AutoscheduleCount())
    {
      GapPositive();
      var between := queuesBetweenForcedFormatQueue.value * queueOpenTime;
      var last, startIndex := FirstSlotNotBefore(forcedFormatFirstEvent, between, now);
      var total := forcedFormatAutoscheduleAmount * |forcedFormatOrder|;
      var plan := AutoschedulePlan(last, startIndex, forcedFormatOrder, forcedFormatOrderOffset, between,
                                   joiningTime, displayOffset);
      assert plan == AutoPlan(now);
      var updated := forcedFormatTimes;
      for i := 0 to if total > 0 then total else 0
        invariant updated == Autoschedule(forcedFormatTimes, plan, i)
      {
        var currentIndex := (startIndex + i + forcedFormatOrderOffset) % |forcedFormatOrder|;
        var format := forcedFormatOrder[currentIndex];
        var newEvent := FormatOverride(last + i * between + joiningTime + displayOffset, format);
        updated := InsertOverride(updated, newEvent);
      }
      AutoscheduleSorted(forcedFormatTimes, plan, AutoscheduleCount());
      forcedFormatTimes := updated;
    }

    /** `remove_forced_format_time`: every entry at the time goes; the reply says whether any did. */
    method RemoveForcedFormatTime(time: Time) returns (found: bool)
      requires Valid()
      modifies this`forcedFormatTimes
      ensures Valid()
      ensures forcedFormatTimes == RemoveOverridesAt(old(forcedFormatTimes), time)
      ensures found <==> exists i :: 0 <= i < |old(forcedFormatTimes)| && old(forcedFormatTimes)[i].time == time
    {
      var originalCount := |forcedFormatTimes|;
      RemoveOverridesAtSorted(forcedFormatTimes, time);
      RemoveOverridesAtShrinks(forcedFormatTimes, time);
      forcedFormatTimes := RemoveOverridesAt(forcedFormatTimes, time);
      found := |forcedFormatTimes| < originalCount;
    }

    /** `clear_forced_format_times`. */
    method ClearForcedFormatTimes()
      requires Valid()
      modifies this`forcedFormatTimes
      ensures Valid() && forcedFormatTimes == []
    {
      forcedFormatTimes := [];
    }

    /** `schedule_sq_times`: a time in the past is rejected; otherwise it joins the set of times,
        kept sorted. */
    method ScheduleSqTime(now: Time, time: Time) returns (added: bool)
      requires Valid()
      modifies this`sqTimes
      ensures Valid()
      ensures added <==> !(now > time)
      ensures sqTimes == if added then InsertTime(old(sqTimes), time) else old(sqTimes)
    {
      if now > time {
        return false;
      }
      InsertTimeSpec(sqTimes, time);
      sqTimes := InsertTime(sqTimes, time);
      return true;
    }

    /** `remove_sq_time`: a listed time is removed, anything else is reported as not found. */
    method RemoveSqTime(time: Time) returns (found: bool)
      requires Valid()
      modifies this`sqTimes
      ensures Valid()
      ensures found <==> time in old(sqTimes)
      ensures sqTimes == if found then RemoveFirst(old(sqTimes), time) else old(sqTimes)
    {
      if time in sqTimes {
        RemoveTimeSorted(sqTimes, time);
        sqTimes := RemoveFirst(sqTimes, time);
        return true;
      }
      return false;
    }

    /** `clear_sq_times`. */
    method ClearSqTimes()
      requires Valid()
      modifies this`sqTimes
      ensures Valid() && sqTimes == []
    {
      sqTimes := [];
    }

    /** `allow_new_mogis`, the timer callback. */
    method AllowNewMogis()
      requires Valid()
      modifies this`launchNewEvents
      ensures Valid() && launchNewEvents
    {
      launchNewEvents := true;
    }

    /** `pause_mogi_scheduling`: the gathering event carries on, no new ones are created. */
    method PauseMogiScheduling()
      requires Valid()
      modifies this`launchNewEvents
      ensures Valid() && !launchNewEvents
    {
      launchNewEvents := false;
    }

    /** `resume_mogi_scheduling`. */
    method ResumeMogiScheduling()
      requires Valid()
      modifies this`launchNewEvents
      ensures Valid() && launchNewEvents
    {
      launchNewEvents := true;
    }

    /** `annul_current_mogi`: both the next and the ongoing event are dropped (the ongoing one is not
        kept among the old events) and new events are stopped; when asked to resume, new events are
        allowed again at the start of the next scheduled event. */
    method AnnulCurrentMogi(resume: bool, now: Time)
      requires Valid()
      modifies this`next, this`ongoing, this`launchNewEvents, this`resumeTimers
      ensures Valid()
      ensures next == null && ongoing == null && !launchNewEvents
      ensures resumeTimers == if resume then old(resumeTimers) + [old(ComputeNextEventOpenTime(now)) + queueOpenTime]
                              else old(resumeTimers)
    {
      next := null;
      ongoing := null;
      launchNewEvents := false;
      if resume {
        var nextEventOpenTime := ComputeNextEventOpenTime(now);
        resumeTimers := resumeTimers + [nextEventOpenTime + queueOpenTime];
      }
    }

    /** `reset_bot`: every event is forgotten and new events are allowed. */
    method ResetBot()
      requires Valid()
      modifies this`next, this`ongoing, this`oldEvents, this`launchNewEvents
      ensures Valid()
      ensures next == null && ongoing == null && oldEvents == [] && launchNewEvents
    {
      next := null;
      ongoing := null;
      oldEvents := [];
      launchNewEvents := true;
    }

    /** `extend`: an event that takes joins gets `minutes` more (possibly negative) before it is
        forced to close; otherwise nothing changes. */
    method Extend(inQueueChannel: bool, minutes: int) returns (extended: bool)
      requires Valid()
      modifies Current()`additionalExtension
      ensures Valid()
      ensures extended <==> old(Accepting(inQueueChannel))
      ensures ongoing != null ==>
                ongoing.additionalExtension == old(ongoing.additionalExtension) + (if extended then 60 * minutes else 0)
    {
      var mogi := EventInChannel(inQueueChannel);
      if mogi == null || !mogi.started || !mogi.gathering {
        return false;
      }
      mogi.additionalExtension := mogi.additionalExtension + 60 * minutes;
      return true;
    }

    /** `check_close_event_change`, branch by branch; its outcome is the close decision `CloseStep`
        applied to the ongoing event. */
    method CheckCloseEventChange(now: Time) returns (closed: bool)
      requires Valid()
      modifies this`curExtensionMessage, this`lastExtensionMessageTimestamp
      modifies Current()`gathering, Current()`additionalExtension, Current()`hasCheckedAutoExtend
      ensures Valid()
      ensures old(ongoing) == null ==> !closed && curExtensionMessage == old(curExtensionMessage) &&
                                       lastExtensionMessageTimestamp == old(lastExtensionMessageTimestamp)
      ensures ongoing != null ==>
                (closed, CloseStateOf()) ==
                old(CloseStep(server, extensionTime, anyRoomCancelled(ongoing.teams), Facts(ongoing), CloseStateOf(), now))
    {
      var mogi := ongoing;
      if mogi == null {
        return false;
      }
      if !mogi.isAutomated || !mogi.started || mogi.makingRoomsRun || !mogi.gathering {
        return false;
      }
      var forceStartTime := mogi.startTime.value + extensionTime + mogi.additionalExtension;
      if forceStartTime <= now {
        mogi.gathering := false;
        curExtensionMessage := None;
        return true;
      }
      closed := WarnOrClose(mogi, forceStartTime, now);
    }

    /** The part of `check_close_event_change` after the forced start time check, for an eligible
        ongoing event whose forced start time is still ahead. */
    method WarnOrClose(mogi: Mogi, forceStartTime: int, now: Time) returns (closed: bool)
      requires Valid() && mogi == ongoing
      requires mogi.isAutomated && mogi.started && !mogi.makingRoomsRun && mogi.gathering
      requires forceStartTime == mogi.startTime.value + extensionTime + mogi.additionalExtension > now
      modifies this`curExtensionMessage, this`lastExtensionMessageTimestamp
      modifies mogi`gathering, mogi`additionalExtension, mogi`hasCheckedAutoExtend
      ensures Valid()
      ensures (closed, CloseStateOf()) ==
              old(CloseStep(server, extensionTime, anyRoomCancelled(mogi.teams), Facts(mogi), CloseStateOf(), now))
    {
      ghost var e := Facts(mogi);
      var teamsPerRoom := PlayersPerRoom / mogi.maxPlayersPerTeam;
      var numLeftoverTeams := CountRegistered(mogi.teams) % teamsPerRoom;
      assert numLeftoverTeams == LeftoverTeams(e);
      assert forceStartTime == ForceStartTime(e, CloseStateOf(), extensionTime);
      var numNeededTeams := teamsPerRoom - numLeftoverTeams;
      if server == MKW && forceStartTime - 60 <= now && numLeftoverTeams != 0 {
        if !mogi.hasCheckedAutoExtend {
          mogi.hasCheckedAutoExtend := true;
          var maxRooms := MaxPossibleRooms(mogi.teams, mogi.playersPerRoom);
          if (maxRooms == 0 && numNeededTeams <= 2) || numNeededTeams - 1 <= maxRooms {
            curExtensionMessage := Some(CriteriaMetExtended);
            mogi.additionalExtension := mogi.additionalExtension + AutoExtendSeconds;
          }
          return false;
        }
      }
      if mogi.startTime.value <= now && mogi.gathering {
        if numLeftoverTeams == 0 {
          if !anyRoomCancelled(mogi.teams) {
            mogi.gathering := false;
            curExtensionMessage := None;
            return true;
          } else {
            lastExtensionMessageTimestamp := TruncateToMinute(now);
            curExtensionMessage := Some(RoomsWillBeCancelled(MinutesShown(forceStartTime, now)));
          }
        } else {
          var curExtensionTimestamp := TruncateToMinute(now);
          if curExtensionTimestamp != lastExtensionMessageTimestamp {
            lastExtensionMessageTimestamp := curExtensionTimestamp;
            curExtensionMessage := Some(NeedMorePlayers(numNeededTeams, MinutesShown(forceStartTime, now)));
          }
        }
      }
      return false;
    }

    /** The next event as a set, for frames. */
    function Upcoming(): set<Mogi>
      reads this`next
    {
      if next == null then {} else {next}
    }

    /** The next and the ongoing event. */
    function Live(): set<Mogi>
      reads this`ongoing, this`next
    {
      Current() + Upcoming()
    }

    /** Whether `scheduler_mogi_start` finds the next event's joining period begun. */
    predicate StartDue(now: Time)
      reads this`next, this`joiningTime, next
    {
      next != null && next.startTime.Some? && next.startTime.value - joiningTime < now
    }

    /** `scheduler_mogi_start`: once the next event's joining period has begun it stops being the
        next event. It is dropped when the ongoing event is still gathering; otherwise the ongoing
        event moves to the old events and the next one becomes the ongoing event, started and
        gathering. */
    method SchedulerMogiStart(now: Time)
      requires Valid()
      modifies this`next, this`ongoing, this`oldEvents, Upcoming()`started, Upcoming()`gathering
      ensures Valid()
      ensures !old(StartDue(now)) ==> next == old(next) && ongoing == old(ongoing) && oldEvents == old(oldEvents)
      ensures old(StartDue(now)) ==> next == null
      ensures old(StartDue(now)) && old(ongoing != null && ongoing.gathering) ==>
                ongoing == old(ongoing) && oldEvents == old(oldEvents) && !old(next).started
      ensures old(StartDue(now)) && !old(ongoing != null && ongoing.gathering) ==>
                ongoing == old(next) && ongoing.started && ongoing.gathering &&
                oldEvents == old(oldEvents) + (if old(ongoing) == null then [] else [old(ongoing)])
    {
      var nextMogi := next;
      if nextMogi != null && nextMogi.startTime.value - joiningTime < now {
        next := null;
        if ongoing != null && ongoing.gathering {
          return;
        }
        if ongoing != null && ongoing.started {
          oldEvents := oldEvents + [ongoing];
        }
        ongoing := nextMogi;
        nextMogi.started := true;
        nextMogi.gathering := true;
      }
    }

    /** The display time of the event opening at the current slot. */
    function DisplayTimeAt(now: Time): Time
      requires queueOpenTime > 0
      reads this`queueOpenTime, this`joiningTime
    {
      ComputeNextEventOpenTime(now) + joiningTime + displayOffset
    }

    /** Whether `schedule_que_event` gets past its guards: the guild is known, new events are
        allowed and the current slot's joining period has not ended. */
    predicate Schedules(guildReady: bool, now: Time)
      requires queueOpenTime > 0
      reads this`queueOpenTime, this`joiningTime, this`launchNewEvents
    {
      guildReady && launchNewEvents && !(ComputeNextEventOpenTime(now) + joiningTime < now)
    }

    /** Whether the first forced-format entry is for the current slot. */
    predicate ForcedFormatDue(now: Time)
      requires queueOpenTime > 0
      reads this`queueOpenTime, this`joiningTime, this`forcedFormatTimes
    {
      |forcedFormatTimes| > 0 && forcedFormatTimes[0].time == DisplayTimeAt(now)
    }

    /** The format of the event created for the current slot. */
    function FormatAt(now: Time): Option<string>
      requires queueOpenTime > 0
      reads this`queueOpenTime, this`joiningTime, this`forcedFormatTimes
    {
      if ForcedFormatDue(now) then Some(forcedFormatTimes[0].format) else None
    }

    /** The forced-format list after the current slot's event is created: a due entry is used up,
        and when that empties a configured rotation, the next rotations are scheduled. */
    function ForcedFormatAfterOpening(now: Time): seq<FormatOverride>
      requires queueOpenTime > 0
      requires queuesBetweenForcedFormatQueue.Some? ==> queuesBetweenForcedFormatQueue.value >= 0
      reads this`queueOpenTime, this`joiningTime, this`forcedFormatTimes
    {
      if !ForcedFormatDue(now) then forcedFormatTimes
      else if |forcedFormatOrder| > 0 && queuesBetweenForcedFormatQueue.Some? &&
              queuesBetweenForcedFormatQueue.value != 0 && |forcedFormatTimes| == 1 then
        GapPositive();
        Autoschedule([], AutoPlan(now), AutoscheduleCount())
      else forcedFormatTimes[1..]
    }

    /** Whether the first Squad Queue time is the current slot. */
    predicate SqTimeDue(now: Time)
      requires queueOpenTime > 0
      reads this`queueOpenTime, this`joiningTime, this`sqTimes
    {
      |sqTimes| > 0 && sqTimes[0] == DisplayTimeAt(now)
    }

    /** The forced-format step of `schedule_que_event`: an entry for the current slot is used up and
        gives the event its format; emptying the list this way schedules the next rotations when a
        rotation is configured. */
    method TakeForcedFormat(now: Time) returns (format: Option<string>)
      requires Valid()
      modifies this`forcedFormatTimes
      ensures Valid()
      ensures format == old(FormatAt(now))
      ensures forcedFormatTimes == old(ForcedFormatAfterOpening(now))
    {
      format := None;
      var nextEventOpenTime := ComputeNextEventOpenTime(now);
      if |forcedFormatTimes| > 0 && nextEventOpenTime + joiningTime + displayOffset == forcedFormatTimes[0].time {
        var lastEvent := forcedFormatTimes[0];
        forcedFormatTimes := forcedFormatTimes[1..];
        format := Some(lastEvent.format);
        if |forcedFormatOrder| > 0 && queuesBetweenForcedFormatQueue.Some? &&
           queuesBetweenForcedFormatQueue.value != 0 && |forcedFormatTimes| == 0 {
          AutoscheduleForcedFormatTimes(now);
        }
      }
    }

    /** `schedule_que_event`: for the current slot of the daily schedule, unless its joining period
        is over, creates the next event (automated, one player per team, twelve per room) with the
        format of a due forced-format entry. A due Squad Queue time instead drops both events, stops
        new events and has them allowed again one interval after the slot opened. */
    method ScheduleQueEvent(guildReady: bool, now: Time)
      requires Valid()
      modifies this`next, this`ongoing, this`forcedFormatTimes, this`sqTimes, this`launchNewEvents, this`resumeTimers
      ensures Valid()
      ensures !old(Schedules(guildReady, now)) ==>
                next == old(next) && ongoing == old(ongoing) && forcedFormatTimes == old(forcedFormatTimes) &&
                sqTimes == old(sqTimes) && launchNewEvents == old(launchNewEvents) && resumeTimers == old(resumeTimers)
      ensures old(Schedules(guildReady, now)) ==> forcedFormatTimes == old(ForcedFormatAfterOpening(now))
      ensures old(Schedules(guildReady, now)) && old(SqTimeDue(now)) ==>
                sqTimes == old(sqTimes)[1..] && next == null && ongoing == null && !launchNewEvents &&
                resumeTimers == old(resumeTimers) + [ComputeNextEventOpenTime(now) + queueOpenTime]
      ensures old(Schedules(guildReady, now)) && !old(SqTimeDue(now)) ==>
                sqTimes == old(sqTimes) && ongoing == old(ongoing) && launchNewEvents && resumeTimers == old(resumeTimers) &&
                next != null && fresh(next) && next.teams == [] && next.isAutomated &&
                next.maxPlayersPerTeam == 1 && next.playersPerRoom == PlayersPerRoom &&
                next.startTime == Some(ComputeNextEventOpenTime(now) + joiningTime) &&
                next.displayTime == Some(old(DisplayTimeAt(now))) && next.format == old(FormatAt(now))
    {
      if !guildReady || !launchNewEvents {
        return;
      }
      var nextEventOpenTime := ComputeNextEventOpenTime(now);
      var nextEventStartTime := nextEventOpenTime + joiningTime;
      if nextEventStartTime < now {
        return;
      }
      var format := TakeForcedFormat(now);
      OpenSlot(now, format);
    }

    /** The last step of `schedule_que_event`: a Squad Queue time for the current slot is used up and
        stops new events until the slot after; otherwise the slot's event is created as the next one. */
    method OpenSlot(now: Time, format: Option<string>)
      requires Valid()
      modifies this`next, this`ongoing, this`sqTimes, this`launchNewEvents, this`resumeTimers
      ensures Valid()
      ensures old(SqTimeDue(now)) ==>
                sqTimes == old(sqTimes)[1..] && next == null && ongoing == null && !launchNewEvents &&
                resumeTimers == old(resumeTimers) + [old(ComputeNextEventOpenTime(now)) + queueOpenTime]
      ensures !old(SqTimeDue(now)) ==>
                sqTimes == old(sqTimes) && ongoing == old(ongoing) && launchNewEvents == old(launchNewEvents) &&
                resumeTimers == old(resumeTimers) &&
                next != null && fresh(next) && next.teams == [] && next.isAutomated &&
                next.maxPlayersPerTeam == 1 && next.playersPerRoom == PlayersPerRoom &&
                next.startTime == Some(old(ComputeNextEventOpenTime(now)) + joiningTime) &&
                next.displayTime == Some(old(DisplayTimeAt(now))) && next.format == format
    {
      var nextEventOpenTime := ComputeNextEventOpenTime(now);
      var nextEventStartTime := nextEventOpenTime + joiningTime;
      var nextEventDisplayTime := nextEventStartTime + displayOffset;
      if |sqTimes| > 0 && nextEventOpenTime + joiningTime + displayOffset == sqTimes[0] {
        sqTimes := sqTimes[1..];
        next := null;
        ongoing := null;
        launchNewEvents := false;
        resumeTimers := resumeTimers + [nextEventOpenTime + queueOpenTime];
        return;
      }
      next := new Mogi(1, 1, PlayersPerRoom, true, Some(nextEventStartTime), Some(nextEventDisplayTime), format, 0);
    }

    /** `check_room_threads` without threads: rooms are added, numbered on from the rooms already
        there, until there are as many as the event's full rooms. */
    method CheckRoomThreads(mogi: Mogi)
      requires mogi.playersPerRoom > 0
      modifies mogi`rooms
      ensures mogi.rooms == old(mogi.rooms) +
                            UnfilledRooms(|old(mogi.rooms)|, MaxPossibleRooms(mogi.teams, mogi.playersPerRoom))
      ensures |mogi.rooms| >= MaxPossibleRooms(mogi.teams, mogi.playersPerRoom)
    {
      var numCreatedRooms := |mogi.rooms|;
      var maxRooms := MaxPossibleRooms(mogi.teams, mogi.playersPerRoom);
      var i := numCreatedRooms;
      while i < maxRooms
        invariant numCreatedRooms <= i && (i <= maxRooms || i == numCreatedRooms)
        invariant mogi.rooms == old(mogi.rooms) + UnfilledRooms(numCreatedRooms, i)
      {
        mogi.rooms := mogi.rooms + [Room(None, i + 1)];
        i := i + 1;
      }
    }

    /** The seating part of `add_teams_to_rooms`: the proposed list is cut into rooms, and room `k`
        receives the `k`-th cut when it passes the rating check. A server without a room algorithm
        raises before any room is seated. */
    method SeatProposedRooms(mogi: Mogi) returns (seated: bool)
      requires mogi.playersPerRoom >= 2
      requires |mogi.rooms| >= MaxPossibleRooms(mogi.teams, mogi.playersPerRoom)
      modifies mogi`rooms
      ensures seated <==> server != MKWorld
      ensures !seated ==> mogi.rooms == old(mogi.rooms)
      ensures seated ==>
                var allowed := RoomCheck(server, roomMmrThreshold, adjusted);
                var chunks := ProposedRooms(server, mogi.teams, mogi.playersPerRoom, allowed);
                |chunks| <= |old(mogi.rooms)| && mogi.rooms == SeatRooms(old(mogi.rooms), chunks, allowed, |chunks|)
    {
      var allowed := RoomCheck(server, roomMmrThreshold, adjusted);
      var proposed := GenerateProposedList(server, mogi.teams, mogi.playersPerRoom, allowed);
      ProposedListFillsWholeRooms(server, mogi.teams, mogi.playersPerRoom, allowed);
      if proposed.Failure? {
        return false;
      }
      ProposedRoomsAreFull(server, mogi.teams, mogi.playersPerRoom, allowed);
      var chunks := DivideChunks(proposed.value, mogi.playersPerRoom);
      for roomIndex := 0 to |chunks|
        invariant mogi.rooms == SeatRooms(old(mogi.rooms), chunks, allowed, roomIndex)
      {
        var roomPlayers := chunks[roomIndex];
        if allowed(roomPlayers) {
          mogi.rooms := mogi.rooms[roomIndex := mogi.rooms[roomIndex].(teams := Some(SeatedTeams(roomPlayers)))];
        }
      }
      return true;
    }

    /** `add_teams_to_rooms` on the ongoing event. After the checks of `RoomsDecision` the event
        stops gathering, gets its rooms, and each proposed room that passes the rating check is
        seated, one player per team; the event then becomes an old event. A roster without a full
        room cancels the event; a server without a room algorithm stops after the rooms are made and
        leaves the event ongoing. */
    method AddTeamsToRooms(openTime: int, startedAutomatically: bool) returns (outcome: RoomsOutcome)
      requires Valid() && ongoing != null
      modifies this`ongoing, this`oldEvents, Current()`makingRoomsRun, Current()`gathering, Current()`rooms
      ensures Valid()
      ensures var m := old(ongoing);
              outcome == RoomsDecision(openTime, startedAutomatically, old(m.makingRoomsRun),
                                       MaxPossibleRooms(m.teams, m.playersPerRoom), server)
      ensures var m := old(ongoing);
              outcome in {InvalidOpenTime, AlreadyMakingRooms, NotEnoughPlayers} ==>
                oldEvents == old(oldEvents) && m.rooms == old(m.rooms) && m.gathering == old(m.gathering) &&
                m.makingRoomsRun == old(m.makingRoomsRun) &&
                ongoing == (if outcome == NotEnoughPlayers then null else m)
      ensures var m := old(ongoing);
              outcome in {UnknownServer, RoomsMade} ==>
                m.makingRoomsRun && !m.gathering &&
                (outcome == UnknownServer ==>
                   ongoing == m && oldEvents == old(oldEvents) &&
                   m.rooms == old(m.rooms) + UnfilledRooms(|old(m.rooms)|, MaxPossibleRooms(m.teams, m.playersPerRoom))) &&
                (outcome == RoomsMade ==>
                   ongoing == null && oldEvents == old(oldEvents) + [m] &&
                   var threaded := old(m.rooms) + UnfilledRooms(|old(m.rooms)|, MaxPossibleRooms(m.teams, m.playersPerRoom));
                   var allowed := RoomCheck(server, roomMmrThreshold, adjusted);
                   var chunks := ProposedRooms(server, m.teams, m.playersPerRoom, allowed);
                   |chunks| <= |threaded| && m.rooms == SeatRooms(threaded, chunks, allowed, |chunks|))
    {
      var mogi := ongoing;
      if openTime >= 60 || openTime < 0 {
        return InvalidOpenTime;
      }
      if mogi.makingRoomsRun && startedAutomatically {
        return AlreadyMakingRooms;
      }
      if MaxPossibleRooms(mogi.teams, mogi.playersPerRoom) == 0 {
        ongoing := null;
        return NotEnoughPlayers;
      }
      outcome := MakeRooms();
    }

    /** The room-making part of `add_teams_to_rooms`, once the event has at least one full room:
        the event stops gathering, gets a thread per room, and its proposed rooms are seated; it
        then becomes an old event, unless the server's rooms are not made here. */
    method MakeRooms() returns (outcome: RoomsOutcome)
      requires Valid() && ongoing != null
      modifies this`ongoing, this`oldEvents, Current()`makingRoomsRun, Current()`gathering, Current()`rooms
      ensures Valid()
      ensures outcome == if server == MKWorld then UnknownServer else RoomsMade
      ensures var m := old(ongoing);
                m.makingRoomsRun && !m.gathering &&
                (outcome == UnknownServer ==>
                   ongoing == m && oldEvents == old(oldEvents) &&
                   m.rooms == old(m.rooms) + UnfilledRooms(|old(m.rooms)|, MaxPossibleRooms(m.teams, m.playersPerRoom))) &&
                (outcome == RoomsMade ==>
                   ongoing == null && oldEvents == old(oldEvents) + [m] &&
                   var threaded := old(m.rooms) + UnfilledRooms(|old(m.rooms)|, MaxPossibleRooms(m.teams, m.playersPerRoom));
                   var allowed := RoomCheck(server, roomMmrThreshold, adjusted);
                   var chunks := ProposedRooms(server, m.teams, m.playersPerRoom, allowed);
                   |chunks| <= |threaded| && m.rooms == SeatRooms(threaded, chunks, allowed, |chunks|))
    {
      var mogi := ongoing;
      mogi.makingRoomsRun := true;
      mogi.gathering := false;
      CheckRoomThreads(mogi);
      var seated := SeatProposedRooms(mogi);
      if !seated {
        return UnknownServer;
      }
      oldEvents := oldEvents + [mogi];
      ongoing := null;
      return RoomsMade;
    }

    /** `launch_mogi`: rooms are made for the ongoing event, opening at its start minute, so the
        opening minute is never rejected. */
    method LaunchMogi() returns (outcome: Option<RoomsOutcome>)
      requires Valid()
      modifies this`ongoing, this`oldEvents, Current()`makingRoomsRun, Current()`gathering, Current()`rooms
      ensures Valid()
      ensures outcome.None? <==> old(ongoing) == null
      ensures outcome.None? ==> ongoing == null && oldEvents == old(oldEvents)
      ensures outcome.Some? ==>
                var m := old(ongoing);
                outcome.value != InvalidOpenTime &&
                outcome.value == RoomsDecision(MinuteOfHour(m.startTime.value), true, old(m.makingRoomsRun),
                                               MaxPossibleRooms(m.teams, m.playersPerRoom), server)
    {
      var mogi := ongoing;
      if mogi == null {
        return None;
      }
      var result := AddTeamsToRooms(MinuteOfHour(mogi.startTime.value), true);
      return Some(result);
    }

    /** `check_send_extension_message`: the pending notice is consumed, and sent only while there is
        an ongoing event. */
    method CheckSendExtensionMessage() returns (sent: Option<ExtensionMessage>)
      requires Valid()
      modifies this`curExtensionMessage
      ensures Valid()
      ensures curExtensionMessage == None
      ensures sent == if ongoing != null then old(curExtensionMessage) else None
    {
      var toSend := curExtensionMessage;
      curExtensionMessage := None;
      if ongoing != null {
        return toSend;
      }
      return None;
    }

    /** `delete_old_mogis`: the old events that started more than the lifetime ago are collected,
        then removed one by one; exactly the others remain, in order. */
    method DeleteOldMogis(now: Time)
      requires Valid()
      modifies this`oldEvents
      ensures Valid()
      ensures oldEvents == KeptEvents(old(oldEvents), now, mogiLifetime)
    {
      var deleteQueue := ExpiredEvents(oldEvents, now, mogiLifetime);
      var remaining := RemoveEach(oldEvents, deleteQueue);
      WithoutExpiredIsKept(oldEvents, now, mogiLifetime);
      WithoutDistinct(oldEvents, deleteQueue);
      forall i | 0 <= i < |remaining| ensures !remaining[i].gathering && remaining[i].startTime.Some? {
        var j :| 0 <= j < |oldEvents| && oldEvents[j] == remaining[i];
      }
      oldEvents := remaining;
    }

    /** What `get_rating([member])` returns for the table as it is. */
    function RatingLookup(member: MemberId): Result<seq<Player>, Ratings.NotReady>
      reads ratings
    {
      if ratings.firstRunComplete then Success(Ratings.RatedPlayers(ratings.ratings, [member]))
      else Failure(Ratings.RatingsNotReady)
    }

    /** The close decision on the ongoing event with `teams` as its roster. */
    function CloseAfterRosterChange(teams: seq<Team>, now: Time): (bool, CloseState)
      requires ongoing != null && Scheduled(ongoing)
      reads this`ongoing, this`curExtensionMessage, this`lastExtensionMessageTimestamp, ongoing
    {
      CloseStep(server, extensionTime, anyRoomCancelled(teams), Facts(ongoing).(teams := teams), CloseStateOf(), now)
    }

    /** The tail of `join_queue`, `drop` and `remove_player`: `check_close_event_change`, then
        `launch_mogi` when it closed the event. */
    method CloseAndLaunch(now: Time) returns (launched: Option<RoomsOutcome>)
      requires Valid()
      modifies this`ongoing, this`oldEvents, this`curExtensionMessage, this`lastExtensionMessageTimestamp
      modifies Current()`gathering, Current()`additionalExtension, Current()`hasCheckedAutoExtend
      modifies Current()`makingRoomsRun, Current()`rooms
      ensures Valid()
      ensures old(ongoing) == null ==> launched == None
      ensures old(ongoing) != null ==> (launched.Some? <==> old(CloseAfterRosterChange(ongoing.teams, now)).0)
    {
      var closed := CheckCloseEventChange(now);
      launched := None;
      if closed {
        launched := LaunchMogi();
      }
    }

    /** The roster part of `join_queue` on the ongoing event, which takes joins. */
    method AddToQueue(member: MemberId, displayName: string, hasPlacementRole: bool, host: bool)
      returns (reply: JoinReply)
      requires Valid() && Accepting(true)
      modifies Current()`teams
      ensures Valid()
      ensures (reply, ongoing.teams) ==
              old(Join(ongoing.teams, member, displayName, hasPlacementRole, host, RatingLookup(member), placementPlayerMmr))
    {
      var mogi := ongoing;
      var squadIndex := CheckPlayer(mogi.teams, member);
      if squadIndex.Some? {
        var i := squadIndex.value;
        var originalHostStatus := GetPlayer(mogi.teams[i], member).value.host;
        RatedOnlyMember(ratings.ratings, member);
        JoinKeepsMembersUnique(mogi.teams, member, displayName, hasPlacementRole, host, RatingLookup(member),
                               placementPlayerMmr);
        mogi.teams := mogi.teams[i := WithHost(mogi.teams[i], member, host)];
        if originalHostStatus && host {
          reply := AlreadySignedUpAsHost;
        } else if originalHostStatus && !host {
          reply := ChangedToNonHost;
        } else if !originalHostStatus && host {
          reply := ChangedToHost;
        } else {
          reply := AlreadySignedUp;
        }
        return reply;
      }
      var rated := ratings.GetRating([member]);
      RatedOnlyMember(ratings.ratings, member);
      JoinKeepsMembersUnique(mogi.teams, member, displayName, hasPlacementRole, host, rated, placementPlayerMmr);
      if rated.Failure? {
        return RatingsUnavailable;
      }
      var players := rated.value;
      var placement := false;
      if |players| == 0 {
        if hasPlacementRole {
          players := [Player(member, displayName, placementPlayerMmr, false, false)];
          placement := true;
        } else {
          return FetchFailed;
        }
      }
      var joined := players[0].(confirmed := true, host := host);
      players := players[0 := joined];
      mogi.teams := mogi.teams + [Team(players)];
      reply := Joined(joined, placement);
    }

    /** The roster part of `drop` and `remove_player` on the ongoing event, which takes drops. */
    method RemoveFromQueue(member: MemberId) returns (reply: DropReply)
      requires Valid() && Accepting(true)
      modifies Current()`teams
      ensures Valid()
      ensures (reply, ongoing.teams) == old(Drop(ongoing.teams, member))
      ensures forall k :: 0 <= k < |ongoing.teams| ==> !HasPlayer(ongoing.teams[k], member)
    {
      var mogi := ongoing;
      DropRemovesMember(mogi.teams, member);
      var squadIndex := CheckPlayer(mogi.teams, member);
      if squadIndex.None? {
        return NotInEvent;
      }
      var squad := mogi.teams[squadIndex.value];
      mogi.teams := RemoveAt(mogi.teams, squadIndex.value);
      reply := Removed(squad);
    }

    /** `join_queue` (`/c`, and `/ch` as a host). Outside an event that takes joins nothing
        changes; otherwise the roster becomes the one `Join` gives, and when a new team was added
        the close decision runs on the new roster and, when it closes the event, rooms are made. */
    method JoinQueue(inQueueChannel: bool, member: MemberId, displayName: string, hasPlacementRole: bool, host: bool,
                     now: Time) returns (reply: JoinReply, launched: Option<RoomsOutcome>)
      requires Valid()
      modifies this`ongoing, this`oldEvents, this`curExtensionMessage, this`lastExtensionMessageTimestamp
      modifies Current()`teams, Current()`gathering, Current()`additionalExtension, Current()`hasCheckedAutoExtend
      modifies Current()`makingRoomsRun, Current()`rooms
      ensures Valid()
      ensures !old(Accepting(inQueueChannel)) ==>
                reply == QueueNotStarted && launched == None && ongoing == old(ongoing) && oldEvents == old(oldEvents) &&
                curExtensionMessage == old(curExtensionMessage) && (ongoing != null ==> unchanged(ongoing))
      ensures old(Accepting(inQueueChannel)) ==>
                (reply, old(ongoing).teams) ==
                old(Join(ongoing.teams, member, displayName, hasPlacementRole, host, RatingLookup(member), placementPlayerMmr))
      ensures !reply.Joined? ==> launched == None
      ensures reply.Joined? ==>
                var roster := old(ongoing).teams;
                (launched.Some? <==> old(CloseAfterRosterChange(roster, now)).0)
    {
      var mogi := EventInChannel(inQueueChannel);
      if mogi == null || !mogi.started || !mogi.gathering {
        return QueueNotStarted, None;
      }
      reply := AddToQueue(member, displayName, hasPlacementRole, host);
      launched := None;
      if reply.Joined? {
        launched := CloseAndLaunch(now);
      }
    }

    /** `drop` (`/d`) and `remove_player`: outside an event that takes drops nothing changes;
        otherwise the member's team leaves the roster, so that afterwards the member is on no team,
        and the close decision runs on the new roster. */
    method DropPlayer(inQueueChannel: bool, member: MemberId, now: Time) returns (reply: DropReply, launched: Option<RoomsOutcome>)
      requires Valid()
      modifies this`ongoing, this`oldEvents, this`curExtensionMessage, this`lastExtensionMessageTimestamp
      modifies Current()`teams, Current()`gathering, Current()`additionalExtension, Current()`hasCheckedAutoExtend
      modifies Current()`makingRoomsRun, Current()`rooms
      ensures Valid()
      ensures !old(Accepting(inQueueChannel)) ==>
                reply == DropNotStarted && launched == None && ongoing == old(ongoing) && oldEvents == old(oldEvents) &&
                curExtensionMessage == old(curExtensionMessage) && (ongoing != null ==> unchanged(ongoing))
      ensures old(Accepting(inQueueChannel)) ==>
                (reply, old(ongoing).teams) == old(Drop(ongoing.teams, member)) &&
                forall k :: 0 <= k < |old(ongoing).teams| ==> !HasPlayer(old(ongoing).teams[k], member)
      ensures !reply.Removed? ==> launched == None
      ensures reply.Removed? ==>
                var roster := old(ongoing).teams;
                (launched.Some? <==> old(CloseAfterRosterChange(roster, now)).0)
    {
      var mogi := EventInChannel(inQueueChannel);
      if mogi == null || !mogi.started || !mogi.gathering {
        return DropNotStarted, None;
      }
      reply := RemoveFromQueue(member);
      launched := None;
      if reply.Removed? {
        launched := CloseAndLaunch(now);
      }
    }

    /** `queue_or_send` with message queueing on: the message joins its channel's queue. */
    method QueueMessage(channel: ChannelId, msg: string)
      requires Valid()
      modifies this`msgQueue
      ensures Valid()
      ensures msgQueue.Keys == old(msgQueue).Keys + {channel}
      ensures msgQueue[channel] == (if channel in old(msgQueue) then old(msgQueue)[channel] else []) + [msg]
      ensures forall c :: c in old(msgQueue) && c != channel ==> msgQueue[c] == old(msgQueue)[c]
    {
      if channel !in msgQueue {
        msgQueue := msgQueue[channel := []];
      }
      msgQueue := msgQueue[channel := msgQueue[channel] + [msg]];
    }

    /** `send_queued_messages`: every channel's queue is combined into as few messages as the
        length limit allows and emptied; the channels stay known. */
    method SendQueuedMessages() returns (sent: map<ChannelId, seq<string>>)
      requires Valid()
      modifies this`msgQueue
      ensures Valid()
      ensures msgQueue.Keys == old(msgQueue).Keys && sent.Keys == old(msgQueue).Keys
      ensures forall c :: c in sent ==> sent[c] == Combined(old(msgQueue)[c]) && msgQueue[c] == []
    {
      var channels := msgQueue.Keys;
      sent := map[];
      while channels != {}
        invariant channels <= old(msgQueue).Keys && msgQueue.Keys == old(msgQueue).Keys
        invariant sent.Keys == old(msgQueue).Keys - channels
        invariant forall c :: c in sent ==> sent[c] == Combined(old(msgQueue)[c]) && msgQueue[c] == []
        invariant forall c :: c in channels ==> msgQueue[c] == old(msgQueue)[c]
        decreases channels
      {
        assert exists c :: c in channels by {
          ChannelOf(channels);
        }
        var channel :| channel in channels;
        var sentMsgs := CombineQueue(msgQueue[channel]);
        msgQueue := msgQueue[channel := []];
        sent := sent[channel := sentMsgs];
        channels := channels - {channel};
      }
    }

    /** One run of `sqscheduler`: schedule the next event when none is ongoing, start it when due,
        then close the ongoing event and make its rooms when the close decision says so, and send
        the pending notice. An exception while making rooms skips the notice, as the try block
        around both does. */
    method Tick(guildReady: bool, now: Time) returns (outcome: Option<RoomsOutcome>, notice: Option<ExtensionMessage>)
      requires Valid()
      modifies this`next, this`ongoing, this`oldEvents, this`forcedFormatTimes, this`sqTimes, this`launchNewEvents
      modifies this`resumeTimers, this`curExtensionMessage, this`lastExtensionMessageTimestamp
      modifies Live()`started, Live()`gathering, Live()`additionalExtension, Live()`hasCheckedAutoExtend
      modifies Live()`makingRoomsRun, Live()`rooms
      ensures Valid()
      ensures outcome != Some(UnknownServer) ==> curExtensionMessage == None
      ensures notice.Some? ==> ongoing != null && outcome != Some(UnknownServer)
    {
      if ongoing == null {
        ScheduleQueEvent(guildReady, now);
      }
      SchedulerMogiStart(now);
      var closed := CheckCloseEventChange(now);
      outcome := None;
      if closed {
        outcome := LaunchMogi();
      }
      notice := None;
      if outcome != Some(UnknownServer) {
        notice := CheckSendExtensionMessage();
      }
    }
  }
}
