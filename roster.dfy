/** mogi_objects.py: players, teams and rooms as values, and the roster counts of an event
    (`Mogi.count_registered`, `confirmed_teams`, `players_on_confirmed_teams`, `num_players`,
    `max_possible_rooms`, `check_player`). Teams are listed in join order. */
module Roster {
  import opened Wrappers
  import opened Common

  /** A Discord member is known to the model only by its id. */
  type MemberId = int

  /** A queued player. `host_fc` and `score` are not part of this model. */
  datatype Player = Player(member: MemberId, loungeName: string, mmr: int, confirmed: bool, host: bool)

  /** A squad; in the queue every squad has exactly one player, but the code allows any size. */
  datatype Team = Team(players: seq<Player>)

  /** `Team.all_registered`: every player on the team has confirmed. */
  predicate AllRegistered(t: Team)
  {
    forall p :: p in t.players ==> p.confirmed
  }

  /** `Team.has_player`. */
  predicate HasPlayer(t: Team, m: MemberId)
  {
    exists p :: p in t.players && p.member == m
  }

  /** `Team.get_player`: the first player of the team with the given member id. */
  function GetPlayer(t: Team, m: MemberId): (r: Option<Player>)
    ensures r.Some? <==> HasPlayer(t, m)
    ensures r.Some? ==> r.value in t.players && r.value.member == m
    ensures r.Some? ==> exists i :: 0 <= i < |t.players| && t.players[i] == r.value &&
                          forall j :: 0 <= j < i ==> t.players[j].member != m
  {
    FirstWithMember(t.players, m)
  }

  /** The first player of a list with the given member id. */
  function FirstWithMember(ps: seq<Player>, m: MemberId): (r: Option<Player>)
    ensures r.Some? <==> exists p :: p in ps && p.member == m
    ensures r.Some? ==> r.value in ps && r.value.member == m
    ensures r.Some? ==> exists i :: 0 <= i < |ps| && ps[i] == r.value &&
                          forall j :: 0 <= j < i ==> ps[j].member != m
  {
    if ps == [] then None
    else if ps[0].member == m then Some(ps[0])
    else
      var r := FirstWithMember(ps[1..], m);
      assert forall p :: p in ps ==> p == ps[0] || p in ps[1..];
      if r.Some? then
        assert exists i :: 0 <= i < |ps| && ps[i] == r.value &&
                           forall j :: 0 <= j < i ==> ps[j].member != m by {
          var i :| 0 <= i < |ps[1..]| && ps[1..][i] == r.value &&
                   forall j :: 0 <= j < i ==> ps[1..][j].member != m;
          assert ps[i + 1] == r.value;
          forall j | 0 <= j < i + 1 ensures ps[j].member != m {
            if j > 0 { assert ps[j] == ps[1..][j - 1]; }
          }
        }
        r
      else r
  }

  /** `Mogi.check_player`: the position of the first team (in join order) that has the member,
      standing in for the team object the source returns. */
  function CheckPlayer(teams: seq<Team>, m: MemberId): (r: Option<nat>)
    ensures r.None? <==> forall i :: 0 <= i < |teams| ==> !HasPlayer(teams[i], m)
    ensures r.Some? ==> r.value < |teams| && HasPlayer(teams[r.value], m) &&
                        forall j :: 0 <= j < r.value ==> !HasPlayer(teams[j], m)
  {
    if teams == [] then None
    else if HasPlayer(teams[0], m) then Some(0)
    else
      match CheckPlayer(teams[1..], m)
      case None => None
      case Some(i) => Some(i + 1)
  }

  /** `Mogi.confirmed_teams`: the fully confirmed teams, in join order. */
  function ConfirmedTeams(teams: seq<Team>): seq<Team>
  {
    if teams == [] then []
    else ConfirmedTeams(teams[..|teams| - 1]) +
         (if AllRegistered(teams[|teams| - 1]) then [teams[|teams| - 1]] else [])
  }

  /** `Mogi.count_registered` (also `num_teams`): how many teams are fully confirmed. */
  function CountRegistered(teams: seq<Team>): nat
  {
    if teams == [] then 0
    else CountRegistered(teams[..|teams| - 1]) + (if AllRegistered(teams[|teams| - 1]) then 1 else 0)
  }

  /** The player lists of a sequence of teams. */
  function PlayerLists(teams: seq<Team>): (r: seq<seq<Player>>)
    ensures |r| == |teams|
    ensures forall i :: 0 <= i < |teams| ==> r[i] == teams[i].players
  {
    seq(|teams|, i requires 0 <= i < |teams| => teams[i].players)
  }

  /** Listing one more team puts its players after everyone already listed, so a flattened roster
      grows team by team in join order. */
  lemma PlayerListsAppend(teams: seq<Team>, t: Team)
    ensures PlayerLists(teams + [t]) == PlayerLists(teams) + [t.players]
    ensures Flatten(PlayerLists(teams + [t])) == Flatten(PlayerLists(teams)) + t.players
  {
    var l := PlayerLists(teams + [t]);
    assert l == PlayerLists(teams) + [t.players];
    assert l[..|l| - 1] == PlayerLists(teams);
  }

  /** `Mogi.players_on_confirmed_teams`: the players of the confirmed teams, team after team in join order. */
  function PlayersOnConfirmedTeams(teams: seq<Team>): seq<Player>
  {
    Flatten(PlayerLists(ConfirmedTeams(teams)))
  }

  /** `Mogi.num_players`: the number of players on fully confirmed teams. */
  function NumPlayers(teams: seq<Team>): nat
  {
    if teams == [] then 0
    else NumPlayers(teams[..|teams| - 1]) +
         (if AllRegistered(teams[|teams| - 1]) then |teams[|teams| - 1].players| else 0)
  }

  /** `Mogi.max_possible_rooms`: how many full rooms the confirmed players could fill. */
  function MaxPossibleRooms(teams: seq<Team>, playersPerRoom: nat): (r: nat)
    requires playersPerRoom > 0
    ensures r * playersPerRoom <= NumPlayers(teams) < (r + 1) * playersPerRoom
  {
    NumPlayers(teams) / playersPerRoom
  }

  /** The late-player cutoff used by the list display and by room making: the confirmed players
      before this index fill whole rooms, the rest are "late". */
  function FirstLatePlayerIndex(teams: seq<Team>, playersPerRoom: nat): (r: nat)
    requires playersPerRoom > 0
    ensures r == MaxPossibleRooms(teams, playersPerRoom) * playersPerRoom
    ensures r <= |PlayersOnConfirmedTeams(teams)| < r + playersPerRoom
  {
    NumPlayersIsConfirmedLength(teams);
    (NumPlayers(teams) / playersPerRoom) * playersPerRoom
  }

  /** Appending a team extends the confirmed teams by that team exactly when it is confirmed. */
  lemma ConfirmedTeamsAppend(teams: seq<Team>, t: Team)
    ensures ConfirmedTeams(teams + [t]) == ConfirmedTeams(teams) + (if AllRegistered(t) then [t] else [])
    ensures CountRegistered(teams + [t]) == CountRegistered(teams) + (if AllRegistered(t) then 1 else 0)
    ensures NumPlayers(teams + [t]) == NumPlayers(teams) + (if AllRegistered(t) then |t.players| else 0)
  {
    assert (teams + [t])[..|teams + [t]| - 1] == teams;
  }

  /** A team is among the confirmed teams exactly when it is a listed team whose players all confirmed. */
  lemma {:induction false} ConfirmedTeamsMembers(teams: seq<Team>)
    ensures forall t :: t in ConfirmedTeams(teams) <==> t in teams && AllRegistered(t)
    decreases |teams|
  {
    if teams != [] {
      var init := teams[..|teams| - 1];
      ConfirmedTeamsMembers(init);
      assert teams == init + [teams[|teams| - 1]];
    }
  }

  /** The registered-team count is the number of confirmed teams. */
  lemma {:induction false} CountRegisteredIsConfirmedLength(teams: seq<Team>)
    ensures CountRegistered(teams) == |ConfirmedTeams(teams)| <= |teams|
    decreases |teams|
  {
    if teams != [] {
      CountRegisteredIsConfirmedLength(teams[..|teams| - 1]);
    }
  }

  /** The confirmed players of `teams + [t]` are those of `teams`, then `t`'s players if `t` is confirmed:
      the list keeps join order. */
  lemma PlayersOnConfirmedTeamsAppend(teams: seq<Team>, t: Team)
    ensures PlayersOnConfirmedTeams(teams + [t]) ==
            PlayersOnConfirmedTeams(teams) + (if AllRegistered(t) then t.players else [])
  {
    ConfirmedTeamsAppend(teams, t);
    var c := ConfirmedTeams(teams);
    if AllRegistered(t) {
      PlayerListsAppend(c, t);
    } else {
      assert c + [] == c;
    }
  }

  /** `num_players` is the length of `players_on_confirmed_teams`. */
  lemma {:induction false} NumPlayersIsConfirmedLength(teams: seq<Team>)
    ensures NumPlayers(teams) == |PlayersOnConfirmedTeams(teams)|
    decreases |teams|
  {
    if teams != [] {
      var init := teams[..|teams| - 1];
      var t := teams[|teams| - 1];
      NumPlayersIsConfirmedLength(init);
      assert teams == init + [t];
      PlayersOnConfirmedTeamsAppend(init, t);
    }
  }

  /** Every player on a confirmed team has confirmed. */
  lemma {:induction false} ConfirmedPlayersAreConfirmed(teams: seq<Team>)
    ensures forall p :: p in PlayersOnConfirmedTeams(teams) ==> p.confirmed
    decreases |teams|
  {
    if teams != [] {
      var init := teams[..|teams| - 1];
      var t := teams[|teams| - 1];
      ConfirmedPlayersAreConfirmed(init);
      assert teams == init + [t];
      PlayersOnConfirmedTeamsAppend(init, t);
    }
  }

  /** Removing the team at position `i` (`teams.remove(squad)`). */
  function RemoveAt(teams: seq<Team>, i: nat): (r: seq<Team>)
    requires i < |teams|
    ensures |r| == |teams| - 1
    ensures forall j :: 0 <= j < i ==> r[j] == teams[j]
    ensures forall j :: i <= j < |r| ==> r[j] == teams[j + 1]
  {
    teams[..i] + teams[i + 1..]
  }

  /** A room: its teams are `None` until the room is filled; `room_num` counts from 1 (the top room). */
  datatype Room = Room(teams: Option<seq<Team>>, roomNum: int)

  /** `Room.players`: the players of all teams of the room, or none while it is unfilled. */
  function RoomPlayers(room: Room): seq<Player>
  {
    if room.teams.None? then [] else Flatten(PlayerLists(room.teams.value))
  }

  /** The largest rating in a nonempty list of players. */
  function MaxRating(ps: seq<Player>): (r: int)
    requires ps != []
    ensures exists p :: p in ps && p.mmr == r
    ensures forall p :: p in ps ==> p.mmr <= r
  {
    if |ps| == 1 then ps[0].mmr
    else
      var rest := MaxRating(ps[1..]);
      assert forall p :: p in ps ==> p == ps[0] || p in ps[1..];
      if ps[0].mmr >= rest then ps[0].mmr else rest
  }

  /** The smallest rating in a nonempty list of players. */
  function MinRating(ps: seq<Player>): (r: int)
    requires ps != []
    ensures exists p :: p in ps && p.mmr == r
    ensures forall p :: p in ps ==> r <= p.mmr
  {
    if |ps| == 1 then ps[0].mmr
    else
      var rest := MinRating(ps[1..]);
      assert forall p :: p in ps ==> p == ps[0] || p in ps[1..];
      if ps[0].mmr <= rest then ps[0].mmr else rest
  }

  /** `Room.mmr_high`: `None` for an unfilled room, else the highest rating in it. A filled room
      without players makes `max` fail in the source, so it is excluded. */
  function MmrHigh(room: Room): (r: Option<int>)
    requires room.teams.Some? ==> RoomPlayers(room) != []
    ensures r.None? <==> room.teams.None?
    ensures r.Some? ==> (exists p :: p in RoomPlayers(room) && p.mmr == r.value) &&
                        forall p :: p in RoomPlayers(room) ==> p.mmr <= r.value
  {
    if room.teams.None? then None else Some(MaxRating(RoomPlayers(room)))
  }

  /** `Room.mmr_low`: `None` for an unfilled room, else the lowest rating in it. */
  function MmrLow(room: Room): (r: Option<int>)
    requires room.teams.Some? ==> RoomPlayers(room) != []
    ensures r.None? <==> room.teams.None?
    ensures r.Some? ==> (exists p :: p in RoomPlayers(room) && p.mmr == r.value) &&
                        forall p :: p in RoomPlayers(room) ==> r.value <= p.mmr
  {
    if room.teams.None? then None else Some(MinRating(RoomPlayers(room)))
  }

  /** Unbounded stand-ins used by the sub button for the top and the bottom room. */
  const TopRoomCeiling := 999999
  const BottomRoomFloor := -999999

  /** `JoinView.button_callback`'s rating test for a substitute: the rating lookup must have produced an
      int, and it must lie strictly inside the room's range widened by the allowance on both sides.
      The top room has no upper bound and the bottom room no lower bound. */
  predicate SubEligible(room: Room, userMmr: Option<int>, allowance: int, bottomRoomNum: int)
    requires room.roomNum != 1 || room.roomNum != bottomRoomNum ==> room.teams.Some? && RoomPlayers(room) != []
  {
    var high := if room.roomNum == 1 then TopRoomCeiling else MmrHigh(room).value;
    var low := if room.roomNum == bottomRoomNum then BottomRoomFloor else MmrLow(room).value;
    userMmr.Some? && high + allowance > userMmr.value > low - allowance
  }

  /** With a positive allowance, any rating between the lowest and the highest rating already in a
      filled room qualifies a substitute (the stand-in bounds of the top and bottom rooms are wide
      enough for any such rating), and a missing rating never does. */
  lemma SubEligibleWithinRoomRange(room: Room, mmr: int, allowance: int, bottomRoomNum: int)
    requires room.teams.Some? && RoomPlayers(room) != []
    requires allowance > 0
    requires MmrLow(room).value <= mmr <= MmrHigh(room).value
    requires BottomRoomFloor <= mmr <= TopRoomCeiling
    ensures SubEligible(room, Some(mmr), allowance, bottomRoomNum)
    ensures !SubEligible(room, None, allowance, bottomRoomNum)
  {
  }

  /** A substitute accepted for a middle room has a rating within `allowance` of the room's players:
      above someone's rating minus the allowance, and below someone's rating plus the allowance. */
  lemma SubEligibleIsNearRoom(room: Room, mmr: int, allowance: int, bottomRoomNum: int)
    requires room.teams.Some? && RoomPlayers(room) != []
    requires room.roomNum != 1 && room.roomNum != bottomRoomNum
    requires SubEligible(room, Some(mmr), allowance, bottomRoomNum)
    ensures exists p :: p in RoomPlayers(room) && mmr < p.mmr + allowance
    ensures exists q :: q in RoomPlayers(room) && q.mmr - allowance < mmr
  {
  }
}
