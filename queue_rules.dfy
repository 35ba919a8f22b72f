/** cogs/SquadQueue.py: the pure rules the queue cog applies — the rating-range check of a room and
    the decision `check_close_event_change` takes for the ongoing event. */
module QueueRules {
  import opened Wrappers
  import opened Common
  import opened Roster
  import opened RoomAssignment
  import opened Schedule

  /** `basic_threshold_players_allowed`: after a stable sort by raw rating, the adjusted rating of the
      last player minus that of the first is within the threshold. The adjusted rating is supplied by
      the caller. Python raises IndexError on an empty list, hence the precondition. */
  predicate BasicThresholdPlayersAllowed(players: seq<Player>, threshold: int, adjusted: Player -> int)
    requires |players| > 0
  {
    var sorted := SortByRating(players);
    adjusted(sorted[|sorted| - 1]) - adjusted(sorted[0]) <= threshold
  }

  /** `allowed_players_check`: both MKW and MK8DX use the basic check; on MKWorld it returns None,
      which is falsy. */
  predicate AllowedPlayersCheck(server: Server, players: seq<Player>, threshold: int, adjusted: Player -> int)
  {
    server != MKWorld && |players| > 0 && BasicThresholdPlayersAllowed(players, threshold, adjusted)
  }

  /** The first player, in list order, among those with the lowest raw rating. */
  function FirstLowest(players: seq<Player>): (p: Player)
    requires |players| > 0
    ensures p in players
    ensures forall q :: q in players ==> p.mmr <= q.mmr
  {
    if |players| == 1 then players[0]
    else
      var init := players[..|players| - 1];
      var m := FirstLowest(init);
      assert forall q :: q in players ==> q in init || q == players[|players| - 1];
      if players[|players| - 1].mmr < m.mmr then players[|players| - 1] else m
  }

  /** The last player, in list order, among those with the highest raw rating. */
  function LastHighest(players: seq<Player>): (p: Player)
    requires |players| > 0
    ensures p in players
    ensures forall q :: q in players ==> q.mmr <= p.mmr
  {
    if |players| == 1 then players[0]
    else
      var init := players[..|players| - 1];
      var m := LastHighest(init);
      assert forall q :: q in players ==> q in init || q == players[|players| - 1];
      if m.mmr <= players[|players| - 1].mmr then players[|players| - 1] else m
  }

  /** Inserting into a sorted list puts the new player first only when it is strictly lower. */
  lemma {:induction false} InsertByRatingHead(s: seq<Player>, p: Player)
    requires SortedByRating(s)
    ensures InsertByRating(s, p)[0] == if s != [] && s[0].mmr <= p.mmr then s[0] else p
    decreases |s|
  {
    if !(s == [] || s[|s| - 1].mmr <= p.mmr) {
      var init := s[..|s| - 1];
      if init != [] {
        InsertByRatingHead(init, p);
      }
    }
  }

  /** The stable sort starts with the first lowest-rated player and ends with the last highest-rated
      one. */
  lemma {:induction false} SortByRatingEnds(players: seq<Player>)
    requires |players| > 0
    ensures SortByRating(players)[0] == FirstLowest(players)
    ensures SortByRating(players)[|players| - 1] == LastHighest(players)
    decreases |players|
  {
    var init := players[..|players| - 1];
    var p := players[|players| - 1];
    if |players| > 1 {
      SortByRatingEnds(init);
      SortByRatingCorrect(init);
      InsertByRatingHead(SortByRating(init), p);
    } else {
      assert init == [];
    }
  }

  /** The threshold check compares the last highest-rated player with the first lowest-rated one. */
  lemma BasicThresholdCompares(players: seq<Player>, threshold: int, adjusted: Player -> int)
    requires |players| > 0
    ensures BasicThresholdPlayersAllowed(players, threshold, adjusted) <==>
            adjusted(LastHighest(players)) - adjusted(FirstLowest(players)) <= threshold
  {
    SortByRatingEnds(players);
  }

  /** The room check the cog applies: never on MKWorld, where the source returns None; on MKW and
      MK8DX a non-empty room passes exactly when its rating spread, measured on adjusted ratings
      between the last highest-rated and the first lowest-rated player, is within the threshold. */
  lemma AllowedPlayersCheckByServer(server: Server, players: seq<Player>, threshold: int, adjusted: Player -> int)
    ensures server == MKWorld ==> !AllowedPlayersCheck(server, players, threshold, adjusted)
    ensures server != MKWorld && |players| > 0 ==>
              (AllowedPlayersCheck(server, players, threshold, adjusted) <==>
               BasicThresholdPlayersAllowed(players, threshold, adjusted)) &&
              (AllowedPlayersCheck(server, players, threshold, adjusted) <==>
               adjusted(LastHighest(players)) - adjusted(FirstLowest(players)) <= threshold)
  {
    if server != MKWorld && |players| > 0 {
      BasicThresholdCompares(players, threshold, adjusted);
    }
  }

  /** The notices the cog posts in the queue channel while an event is extended. */
  datatype ExtensionMessage =
    | CriteriaMetExtended
    | RoomsWillBeCancelled(minutesLeft: int)
    | NeedMorePlayers(needed: int, minutesLeft: int)

  /** A room holds this many players, whatever the team size. */
  const PlayersPerRoom: nat := 12

  const AutoExtendSeconds: int := 120

  /** The parts of the ongoing event the close decision reads but does not change. */
  datatype EventFacts = EventFacts(isAutomated: bool, started: bool, makingRoomsRun: bool, startTime: Time,
                                   teams: seq<Team>, maxPlayersPerTeam: nat, playersPerRoom: nat)

  /** What the decision may change: the event's gathering flag, its extension and its auto-extend
      mark, and the cog's pending notice with the minute it was last refreshed. */
  datatype CloseState = CloseState(gathering: bool, additionalExtension: int, hasCheckedAutoExtend: bool,
                                   notice: Option<ExtensionMessage>, lastNoticeMinute: Time)

  predicate WellFormedEvent(e: EventFacts)
  {
    0 < e.maxPlayersPerTeam <= PlayersPerRoom && e.playersPerRoom > 0
  }

  /** Only an automated, started event that is gathering and has not made rooms is considered. */
  predicate CloseEligible(e: EventFacts, s: CloseState)
  {
    e.isAutomated && e.started && !e.makingRoomsRun && s.gathering
  }

  /** The time the event closes regardless of its roster. */
  function ForceStartTime(e: EventFacts, s: CloseState, extensionTime: int): Time
  {
    e.startTime + extensionTime + s.additionalExtension
  }

  /** Registered teams beyond the last full room. */
  function LeftoverTeams(e: EventFacts): nat
    requires WellFormedEvent(e)
  {
    CountRegistered(e.teams) % (PlayersPerRoom / e.maxPlayersPerTeam)
  }

  /** The minutes shown in a notice: `timedelta.seconds // 60 + 1` of the time left. */
  function MinutesShown(force: Time, now: Time): int
  {
    ((force - now) % 86400) / 60 + 1
  }

  /** `check_close_event_change` on the ongoing event: whether it closes, and the new state.
      `anyRoomCancelled` is the event's verdict on whether some room would be cancelled. */
  function CloseStep(server: Server, extensionTime: int, anyRoomCancelled: bool, e: EventFacts, s: CloseState,
                     now: Time): (bool, CloseState)
    requires WellFormedEvent(e)
  {
    if !CloseEligible(e, s) then (false, s)
    else
      var force := ForceStartTime(e, s, extensionTime);
      if force <= now then (true, s.(gathering := false, notice := None))
      else
        var teamsPerRoom := PlayersPerRoom / e.maxPlayersPerTeam;
        var leftover := LeftoverTeams(e);
        var needed := teamsPerRoom - leftover;
        var rooms := MaxPossibleRooms(e.teams, e.playersPerRoom);
        if server == MKW && force - 60 <= now && leftover != 0 && !s.hasCheckedAutoExtend then
          if (rooms == 0 && needed <= 2) || needed - 1 <= rooms then
            (false, s.(hasCheckedAutoExtend := true, notice := Some(CriteriaMetExtended),
                       additionalExtension := s.additionalExtension + AutoExtendSeconds))
          else (false, s.(hasCheckedAutoExtend := true))
        else if e.startTime <= now then
          if leftover == 0 then
            if !anyRoomCancelled then (true, s.(gathering := false, notice := None))
            else (false, s.(lastNoticeMinute := TruncateToMinute(now),
                            notice := Some(RoomsWillBeCancelled(MinutesShown(force, now)))))
          else if TruncateToMinute(now) != s.lastNoticeMinute then
            (false, s.(lastNoticeMinute := TruncateToMinute(now),
                       notice := Some(NeedMorePlayers(needed, MinutesShown(force, now)))))
          else (false, s)
        else (false, s)
  }

  /** An event that is not eligible is left alone. */
  lemma CloseStepIdle(server: Server, extensionTime: int, anyRoomCancelled: bool, e: EventFacts, s: CloseState,
                      now: Time)
    requires WellFormedEvent(e)
    requires !CloseEligible(e, s)
    ensures CloseStep(server, extensionTime, anyRoomCancelled, e, s, now) == (false, s)
  {
  }

  /** The event closes exactly when it is eligible and either its forced start time has come, or it
      has reached its start time with whole rooms that would all be played. A close stops gathering
      and clears the notice; otherwise gathering is unchanged. */
  lemma CloseStepCloses(server: Server, extensionTime: int, anyRoomCancelled: bool, e: EventFacts, s: CloseState,
                        now: Time)
    requires WellFormedEvent(e)
    ensures var (closed, s') := CloseStep(server, extensionTime, anyRoomCancelled, e, s, now);
            (closed <==> CloseEligible(e, s) &&
                         (ForceStartTime(e, s, extensionTime) <= now ||
                          (e.startTime <= now && LeftoverTeams(e) == 0 && !anyRoomCancelled))) &&
            (closed ==> !s'.gathering && s'.notice.None?) &&
            (!closed ==> s'.gathering == s.gathering)
  {
  }

  /** The automatic extension happens at most once per event, only on MKW, only in the final minute
      before the forced start and only with an incomplete room; it adds exactly two minutes and the
      event does not close on that call. When those conditions hold on the first check, the event is
      marked as checked, and the two minutes and the notice are granted exactly when the teams still
      needed could come from the rooms already possible (at most two teams with no room yet, or at
      most one more team than there are rooms); otherwise nothing else changes. */
  lemma CloseStepAutoExtend(server: Server, extensionTime: int, anyRoomCancelled: bool, e: EventFacts, s: CloseState,
                            now: Time)
    requires WellFormedEvent(e)
    ensures var (closed, s') := CloseStep(server, extensionTime, anyRoomCancelled, e, s, now);
            var force := ForceStartTime(e, s, extensionTime);
            s'.additionalExtension != s.additionalExtension ==>
              server == MKW && !s.hasCheckedAutoExtend && s'.hasCheckedAutoExtend &&
              s'.additionalExtension == s.additionalExtension + AutoExtendSeconds && !closed &&
              force - 60 <= now < force && LeftoverTeams(e) != 0 && s'.notice == Some(CriteriaMetExtended)
    ensures var s' := CloseStep(server, extensionTime, anyRoomCancelled, e, s, now).1;
            s.hasCheckedAutoExtend ==> s'.hasCheckedAutoExtend && s'.additionalExtension == s.additionalExtension
    ensures var (closed, s') := CloseStep(server, extensionTime, anyRoomCancelled, e, s, now);
            var force := ForceStartTime(e, s, extensionTime);
            var rooms := MaxPossibleRooms(e.teams, e.playersPerRoom);
            var needed := PlayersPerRoom / e.maxPlayersPerTeam - LeftoverTeams(e);
            var criteria := (rooms == 0 && needed <= 2) || needed - 1 <= rooms;
            CloseEligible(e, s) && server == MKW && force - 60 <= now < force && LeftoverTeams(e) != 0 &&
            !s.hasCheckedAutoExtend ==>
              !closed && s'.gathering && s'.hasCheckedAutoExtend &&
              (s'.additionalExtension == s.additionalExtension + AutoExtendSeconds <==> criteria) &&
              (criteria ==> s'.notice == Some(CriteriaMetExtended)) &&
              (!criteria ==> s' == s.(hasCheckedAutoExtend := true))
  {
  }

  /** A "need more players" notice names between one and a full room of teams, and is only issued
      when the minute has changed since the last notice. */
  lemma CloseStepNeedMoreNotice(server: Server, extensionTime: int, anyRoomCancelled: bool, e: EventFacts,
                                s: CloseState, now: Time)
    requires WellFormedEvent(e)
    ensures var s' := CloseStep(server, extensionTime, anyRoomCancelled, e, s, now).1;
            s'.notice != s.notice && s'.notice.Some? && s'.notice.value.NeedMorePlayers? ==>
              1 <= s'.notice.value.needed <= PlayersPerRoom / e.maxPlayersPerTeam &&
              s.lastNoticeMinute != TruncateToMinute(now) && s'.lastNoticeMinute == TruncateToMinute(now)
  {
  }
}
