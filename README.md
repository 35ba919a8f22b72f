# QueueBot squad-queue core in Dafny

QueueBot runs automated "squad queue" events ("mogis") for Mario Kart lounges on Discord. Every
`queue_open_time` a new event opens; players join and drop while it gathers; at its start time
(plus any extension) it closes, the confirmed players are cut into rooms of 12, each room is checked
against a rating range and a format vote runs in every room. This project models the decision logic
behind that cycle, and proves properties of it:

- the roster of an event (teams, confirmed players, the number of rooms it can fill, the late
  players beyond the last full room), and the room-making algorithms of `Mogi`: the tightest
  rating window `_minimize_range`, the one-room balancing loop that admits late players in join
  order, the MK8DX truncation rule and `generate_proposed_list` (module `RoomAssignment`);
- the queue cog `SquadQueue` as a class over the next, ongoing and old events, with the close and
  extension decision `check_close_event_change` as a pure function (`QueueRules.CloseStep`), the
  scheduler steps (`schedule_que_event`, `scheduler_mogi_start`, `launch_mogi`,
  `check_send_extension_message`, `delete_old_mogis`) and one `sqscheduler` tick, the operator
  commands (extend, annul, pause/resume, reset) and joining and dropping (module `SquadQueueCog`);
- the open-time arithmetic, the staff-edited forced-format and SQ-time override lists and the
  cyclic autoschedule of forced formats (module `Schedule`);
- the format vote of a room, `VoteView.general_vote_callback` and `find_winner`
  (module `FormatVote`);
- the ratings table of `mmr.py`: response validation, the parsers, the first-run guard of the
  lookups and the one-retry refresh (module `Ratings`);
- the table-driven config check of `config_checker.py` over a JSON value (modules `Json`,
  `ConfigChecker`);
- the small utilities: server selection, `divide_chunks`, `flatten` (`Common`), the message
  combining of `send_queued_messages` and the 2000-character chunking of the queue listing
  (`Messages`), the sub-button rating bounds (`Roster`) and the tier ladders (`Tiers`).

Times are integers counting seconds; staff settings given in minutes are stored multiplied by 60,
so that `replace(second=0)` and `timedelta.seconds // 60` can be written out. Discord members are
integer ids. A player's `adjusted_mmr` and an event's `any_room_cancelled`, which the cog uses but
which `mogi_objects.py` does not define, are parameters of the cog (`adjusted`,
`anyRoomCancelled`). Exceptions the source raises become `Result`/`Option` values or reply
datatypes.

`Mogi.check_player` returns the team in the source; `Roster.CheckPlayer` returns its index, which
identifies the same team. In `_minimize_range` the source keeps the best window as a slice and the
model keeps its start index (`ScanTightest`); the window returned is the same.

## Model

| member | source | states |
|---|---|---|
| Common.ServerFromLoungeInvertsName | common.py:18-26 | the `lounge` value selects a server exactly when it is that server's name ("MKW", "MK8DX", "MKWorld"); any other value is an error |
| Common.DivideChunksCount | common.py:29-32 | `divide_chunks` yields ceil(len/n) chunks, and none exactly for an empty list |
| Common.DivideChunksAt | common.py:29-32 | chunk i is the slice from i·n to i·n+n, cut short at the end of the list |
| Common.FlattenDivideChunks | common.py:29-39 | concatenating the chunks gives back the list |
| Common.FlattenCons | common.py:35-39 | `flatten` puts the first row first, then the rest in order |
| Common.FlattenAppend | common.py:35-39 | flattening two row lists back to back is flattening each and concatenating |
| Common.FlattenLength | common.py:35-39 | the flattened length is the sum of the row lengths |
| Roster.GetPlayer | mogi_objects.py:241-245 | the first player of the team with that member; None exactly when the member is not on the team |
| Roster.FirstWithMember | mogi_objects.py:241-245 | the first player in the list with that member, None exactly when there is none |
| Roster.CheckPlayer | mogi_objects.py:126-130 | the first team holding the member; None exactly when no team holds them |
| Roster.ConfirmedTeamsMembers | mogi_objects.py:136-137 | the confirmed teams are exactly the teams whose players are all confirmed |
| Roster.ConfirmedTeamsAppend | mogi_objects.py:132-140 | appending a team keeps join order and adds one registered team and its players exactly when all its players are confirmed |
| Roster.CountRegisteredIsConfirmedLength | mogi_objects.py:132-137 | `count_registered` is the number of confirmed teams, at most the number of teams |
| Roster.PlayersOnConfirmedTeamsAppend | mogi_objects.py:139-140 | the confirmed players are listed team by team in join order |
| Roster.PlayerListsAppend | mogi_objects.py:139-140 | listing one more team puts its players after everyone already listed |
| Roster.NumPlayersIsConfirmedLength | mogi_objects.py:41-44 | `num_players` counts exactly the players on confirmed teams |
| Roster.ConfirmedPlayersAreConfirmed | mogi_objects.py:139-140 | every player on a confirmed team is confirmed |
| Roster.MaxPossibleRooms | mogi_objects.py:51-55 | the rooms an event can fill: the largest r with r·ppr ≤ num_players |
| Roster.FirstLatePlayerIndex | cogs/SquadQueue.py:693-698 | the late cutoff is rooms·ppr, and fewer than ppr confirmed players lie beyond it |
| Roster.RemoveAt | cogs/SquadQueue.py:589-593 | removing a team keeps the others in order |
| Roster.MmrHigh | mogi_objects.py:174-179 | None for an unseated room, else the highest rating in the room |
| Roster.MmrLow | mogi_objects.py:180-185 | None for an unseated room, else the lowest rating in the room |
| Roster.SubEligibleWithinRoomRange | mogi_objects.py:470-483 | with a positive allowance any rating between the room's lowest and highest qualifies a sub; a failed lookup never does |
| Roster.SubEligibleIsNearRoom | mogi_objects.py:480-483 | a qualifying sub of a middle room is within the allowance of the room's range on both sides |
| Tiers.GetTier | mogi_objects.py:494-498 | the ladder order of the first tier whose optional bounds contain the rating; None when none does |
| Tiers.GetTierOfDisjointTable | mogi_objects.py:494-498 | with tiers that do not overlap, the tier containing the rating is the answer |
| Tiers.GetTierMk8dxIsLadderRung | mogi_objects.py:501-531 | the MK8DX tier name is the rung of the ladder G..X that the rating reaches |
| Tiers.Mk8dxRungMonotone | mogi_objects.py:501-531 | a higher rating never gets a lower tier |
| RoomAssignment.InsertByRatingMultiset | mogi_objects.py:290-291 | inserting by rating keeps every player |
| RoomAssignment.InsertByRatingSorted | mogi_objects.py:290-291 | inserting by rating into a sorted list keeps it sorted |
| RoomAssignment.InsertByRatingBounded | mogi_objects.py:290-291 | inserting by rating adds no rating above a bound all the players respect |
| RoomAssignment.SortByRatingCorrect | mogi_objects.py:66-67 | `sorted(players)` is ascending by rating and a permutation of the players |
| RoomAssignment.SortByRatingOfSorted | mogi_objects.py:66-67 | sorting a sorted list leaves it unchanged (a stable sort) |
| RoomAssignment.TightestStart | mogi_objects.py:68-78 | the best window start found among the first n+1 starts is one of them |
| RoomAssignment.TightestStartStep | mogi_objects.py:73-78 | a later window replaces the best only when its spread is strictly smaller |
| RoomAssignment.TightestStartIsFirstTightest | mogi_objects.py:68-78 | the chosen window has the least spread of all, and every earlier window has a strictly larger one (ties keep the lowest-rated window) |
| RoomAssignment.FirstTightestIsTightestStart | mogi_objects.py:68-78 | the scan's window start is exactly the first start with the least spread |
| RoomAssignment.ScanWindowAt | mogi_objects.py:68-79 | the returned window is the k players from the chosen start |
| RoomAssignment.ScanWindowIsFirstTightest | mogi_objects.py:68-79 | the scan returns the first tightest k-window, and all players when there are exactly k |
| RoomAssignment.ScanWindowSorted | mogi_objects.py:68-79 | the returned window is sorted by rating and drawn from the input |
| RoomAssignment.ScanTightest | mogi_objects.py:68-79 | the loop of `_minimize_range` returns the first tightest window of the sorted players |
| RoomAssignment.TightestWindow | mogi_objects.py:58-79 | None exactly when fewer than k players are given or k ≤ 1; otherwise exactly k players |
| RoomAssignment.TightestWindowSorted | mogi_objects.py:58-79 | the window is sorted ascending and drawn from the players |
| RoomAssignment.TightestWindowIsFirstTightest | mogi_objects.py:58-79 | the window is the first least-spread contiguous k-window of the sorted players; with exactly k players it is all of them, sorted |
| RoomAssignment.WindowOfSorted | mogi_objects.py:66-79 | a slice of a sorted list is sorted and drawn from it |
| RoomAssignment.MinimizeRange | mogi_objects.py:58-79 | `_minimize_range` computes `TightestWindow` |
| RoomAssignment.PoolPassesMeans | mogi_objects.py:93-100 | the pool of the first m confirmed players passes exactly when its tightest window passes the room check |
| RoomAssignment.FirstPassing | mogi_objects.py:93-100 | the admitted pool size the loop stops at lies in the range searched |
| RoomAssignment.FirstPassingIsLeast | mogi_objects.py:93-100 | the loop stops at the first pool size that passes; it finds none exactly when no size passes |
| RoomAssignment.OneRoomFinalListAlgorithm | mogi_objects.py:81-101 | the balancing loop (pool grown by one late player at a time in join order) computes `OneRoomFinalList` |
| RoomAssignment.OneRoomFinalListByRoomCount | mogi_objects.py:82-86 | ([], INSUFFICIENT_PLAYERS) exactly when no room fills; 2_OR_MORE_ROOMS exactly when more than one does, with the first rooms·ppr confirmed players in join order |
| RoomAssignment.OneRoomFinalListEmpty | mogi_objects.py:88-101 | with one room, ([], SUCCESS_EMPTY) exactly when no pool from the first ppr confirmed players up to all of them passes |
| RoomAssignment.OneRoomFinalListFound | mogi_objects.py:93-96 | SUCCESS_FOUND yields ppr confirmed players that pass the room check |
| RoomAssignment.OneRoomFinalListFirstPassingPool | mogi_objects.py:88-100 | the found list is the tightest window of the first pool that passes, and no smaller pool passes |
| RoomAssignment.Mk8dxGenerateFinalList | mogi_objects.py:103-105 | the MK8DX list is a prefix of the confirmed players filling whole rooms, leaving fewer than ppr out |
| RoomAssignment.GenerateProposedList | mogi_objects.py:111-124 | `generate_proposed_list` picks the MK8DX or MKW list by server and fails on any other server |
| RoomAssignment.ProposedListFillsWholeRooms | mogi_objects.py:103-124 | fails exactly on MKWorld; otherwise a whole number of rooms, at most the rooms possible, drawn from the confirmed players |
| QueueRules.FirstLowest | cogs/SquadQueue.py:40-44 | the first lowest-rated player: in the list, and rated no higher than any |
| QueueRules.LastHighest | cogs/SquadQueue.py:40-44 | the last highest-rated player: in the list, and rated no lower than any |
| QueueRules.InsertByRatingHead | cogs/SquadQueue.py:40-44 | after a stable insertion the head is the earlier of the lowest-rated players |
| QueueRules.SortByRatingEnds | cogs/SquadQueue.py:40-44 | the sorted list begins with the first lowest-rated player and ends with the last highest-rated one |
| QueueRules.BasicThresholdCompares | cogs/SquadQueue.py:40-56 | a room is allowed exactly when the adjusted rating of its highest-rated player minus that of its lowest-rated player is within the threshold |
| QueueRules.AllowedPlayersCheckByServer | cogs/SquadQueue.py:420-424 | `allowed_players_check` is false on MKWorld; on the other servers, for a non-empty room, it holds exactly when the basic threshold check does, that is when the highest minus the lowest adjusted rating is within the threshold |
| QueueRules.CloseStepIdle | cogs/SquadQueue.py:1595-1605 | an event that is not automated, started, gathering and still without rooms is left alone |
| QueueRules.CloseStepCloses | cogs/SquadQueue.py:1604-1635 | the event closes exactly when it is eligible and either its forced start time has come or it has started with whole rooms and no room cancelled; closing stops gathering and clears the notice; otherwise gathering is unchanged |
| QueueRules.CloseStepAutoExtend | cogs/SquadQueue.py:1613-1626 | the extension changes only by one automatic extension of 2 minutes, on MKW, once per event, in the last minute, with teams left over, never on a closing tick; once checked it never changes again; and on the first check in that last minute the event is marked checked and does not close, the 2 minutes are added exactly when `(rooms == 0 and needed <= 2) or needed - 1 <= rooms`, with the criteria-met notice, and otherwise nothing else changes |
| QueueRules.CloseStepNeedMoreNotice | cogs/SquadQueue.py:1646-1656 | a new "need more players" notice names between 1 and a room's worth of teams and is posted at most once per minute |
| Schedule.TruncateToMinute | cogs/SquadQueue.py:1647-1648 | the start of the minute containing the time |
| Schedule.OpenTimeAtOrBeforeBounds | cogs/SquadQueue.py:1726-1732 | the open time is at most now, less than one interval before it, and a whole number of intervals from the anchor |
| Schedule.OpenTimeAtOrBeforeUnique | cogs/SquadQueue.py:1726-1732 | it is the only time with those properties |
| Schedule.InsertOverrideEntries | cogs/SquadQueue.py:1170-1174 | a scheduled format replaces any entry at the same time and keeps every other entry |
| Schedule.InsertOverrideHasNew | cogs/SquadQueue.py:1170-1174 | the new entry is in the list |
| Schedule.InsertOverrideKeeps | cogs/SquadQueue.py:1170-1174 | an entry at another time survives |
| Schedule.InsertOverrideSorted | cogs/SquadQueue.py:1170-1174 | the list stays sorted with unique times |
| Schedule.StrictlyIncreasingDeterminedByEntries | cogs/SquadQueue.py:1171-1174 | a sorted list with unique times is determined by its entries (so rebuilding the dict and sorting gives this list) |
| Schedule.RemoveOverridesAtEntries | cogs/SquadQueue.py:1229-1232 | removal deletes every entry at that time and nothing else |
| Schedule.RemoveOverridesAtShrinks | cogs/SquadQueue.py:1229-1237 | the list shrinks exactly when some entry had that time ("No entry found" otherwise) |
| Schedule.RemoveOverridesAtSorted | cogs/SquadQueue.py:1229-1232 | the list stays sorted |
| Schedule.InsertTimeSpec | cogs/SquadQueue.py:1272-1274 | an SQ time is added once, and the list stays sorted without duplicates |
| Schedule.RemoveTimeMembers | cogs/SquadQueue.py:1308-1309 | removing an SQ time keeps every other time |
| Schedule.RemoveTimeSorted | cogs/SquadQueue.py:1308-1309 | removing an SQ time drops exactly one entry and keeps the list sorted |
| Schedule.AutoscheduleEntryCycles | cogs/SquadQueue.py:1197-1205 | autoscheduled entries are spaced by the gap and cycle through the format order |
| Schedule.AutoscheduleTimesIncrease | cogs/SquadQueue.py:1197-1205 | later autoscheduled entries have later times |
| Schedule.SlotsUntilIsFirstSlot | cogs/SquadQueue.py:1188-1192 | the slot count reaches the first slot at or after now |
| Schedule.SlotsUntilUnique | cogs/SquadQueue.py:1188-1192 | that count is the only one with this property |
| Schedule.FirstSlotNotBefore | cogs/SquadQueue.py:1188-1192 | the stepping loop stops at the first slot not before now and counts the steps |
| Schedule.PositiveGapStopsAtFirstSlot | cogs/SquadQueue.py:1186-1192 | with a positive gap the loop as written stops after the steps `FirstSlotNotBefore` counts |
| Schedule.NonPositiveGapNeverStops | cogs/SquadQueue.py:1186-1192 | with a gap that is not positive and a rotation that began in the past, the loop as written never stops |
| Schedule.AutoscheduleSorted | cogs/SquadQueue.py:1197-1208 | autoscheduling keeps the forced-format list sorted with unique times |
| Schedule.AutoscheduleHoldsNewEvents | cogs/SquadQueue.py:1197-1208 | every autoscheduled entry is in the list afterwards |
| Schedule.AutoscheduleKeepsOtherEntries | cogs/SquadQueue.py:1185-1208 | an existing entry at a time autoscheduling does not use survives |
| Schedule.AutoscheduleEntries | cogs/SquadQueue.py:1197-1208 | after autoscheduling an entry is in the list exactly when it is one of the new events, or an old entry at a time no new event takes |
| FormatVote.PlayersPerTeam | mogi_objects.py:430-432 | the team size of a format divides 12 and is the digit its label starts with |
| FormatVote.Index | mogi_objects.py:404-413 | the position of a format among FFA, 2v2, 3v3, 4v4, 6v6 |
| FormatVote.PreviousVoteFinds | mogi_objects.py:433-437 | the previous-vote search finds a bucket holding the voter, and none exactly when no bucket does |
| FormatVote.CurrentVoteIsBucket | mogi_objects.py:433-437 | the voter's current vote is f exactly when they are in f's bucket |
| FormatVote.WithdrawUpToStep | mogi_objects.py:434-437 | the withdrawal loop removes the voter from one bucket at a time |
| FormatVote.WithdrawUpToAll | mogi_objects.py:434-437 | after all buckets the loop has withdrawn the voter everywhere |
| FormatVote.AfterClickVoter | mogi_objects.py:433-439 | after a click the voter is in a bucket exactly when it is the clicked one and they were not already in it |
| FormatVote.AfterClickBucket | mogi_objects.py:433-439 | every bucket loses the voter, and only the clicked one may get them back at its end |
| FormatVote.AfterClickOthers | mogi_objects.py:433-439 | a click changes no other voter's votes |
| FormatVote.AfterClickValid | mogi_objects.py:428-441 | an undecided valid tally stays valid, with no bucket above the quorum of 6 and only the clicked one able to reach it |
| FormatVote.AfterClickNoDuplicates | mogi_objects.py:433-439 | no bucket ever holds a voter twice |
| FormatVote.AfterClickOneBucket | mogi_objects.py:433-439 | a voter is in at most one bucket |
| FormatVote.AfterClickSize | mogi_objects.py:433-439 | a bucket grows by at most one, and only the clicked one |
| FormatVote.WithdrawAbsent | mogi_objects.py:434-437 | withdrawing a voter who has not voted changes nothing |
| FormatVote.WithdrawAppended | mogi_objects.py:434-439 | withdrawing a fresh vote undoes it |
| FormatVote.AfterClickTwice | mogi_objects.py:433-439 | clicking the same option twice withdraws the vote |
| FormatVote.MostVotes | mogi_objects.py:401 | the largest bucket size |
| FormatVote.MostVotesBounds | mogi_objects.py:401 | no bucket is above it |
| FormatVote.WinnerExists | mogi_objects.py:398-415 | some offered format has the most votes, and any winner has at least as many votes as every format |
| FormatVote.VoteView.constructor | mogi_objects.py:295-311 | a new poll is undecided with every bucket empty |
| FormatVote.VoteView.MakeTeams | mogi_objects.py:321-386 | making teams fixes the chosen format and keeps the tallies |
| FormatVote.VoteView.FindWinner | mogi_objects.py:398-420 | `find_winner` does nothing once the poll is decided; otherwise it settles the poll through `make_teams` on the drawn option, which has the most votes, leaving the tallies unchanged |
| FormatVote.VoteView.GeneralVoteCallback | mogi_objects.py:427-447 | a decided poll ignores clicks; otherwise the tally becomes `AfterClick`, and the poll is decided, on the clicked format, exactly when its bucket reaches 6 |
| FormatVote.VoteView.RemoveVoter | mogi_objects.py:433-437 | the withdrawal loop removes the voter everywhere and reports their previous vote |
| Messages.Reverse | cogs/SquadQueue.py:441-442 | the reversed list, element by element |
| Messages.CombineFromJoin | cogs/SquadQueue.py:435-438 | the combining loop loses nothing: message being built plus flushed messages spell the consumed queue |
| Messages.CombineFromLengths | cogs/SquadQueue.py:435-438 | a message is flushed only once it exceeds 1500 characters |
| Messages.CombinedJoin | cogs/SquadQueue.py:429-445 | the sent messages, concatenated in send order, are the queued messages each followed by a newline; nothing is sent exactly for an empty queue |
| Messages.CombinedLengths | cogs/SquadQueue.py:429-445 | every sent message is non-empty and all but the first exceed 1500 characters |
| Messages.CombineQueue | cogs/SquadQueue.py:429-445 | the loops of `send_queued_messages` compute `Combined` |
| Messages.ChunkFromJoin | cogs/SquadQueue.py:723-729 | the chunking loop loses nothing: finished messages plus the one being filled are the lines read, each with its newline |
| Messages.ChunkFromBulk | cogs/SquadQueue.py:723-729 | the message being filled is over 2000 characters only when it is one oversized line |
| Messages.ChunkFromChunks | cogs/SquadQueue.py:723-729 | a finished message is over the limit only when it is one oversized line, and only the first can be empty |
| Messages.ChunkLinesSpec | cogs/SquadQueue.py:721-731 | the listing messages carry all lines in order (at most a final lone newline dropped), exceed 2000 characters only for an oversized line, and only the first can be empty |
| Messages.ChunkFromFirstEmpty | cogs/SquadQueue.py:723-729 | the first message is empty only when the first line alone overflows |
| Messages.ChunkListing | cogs/SquadQueue.py:723-731 | the chunking loop of `list_task` computes `ChunkLines` |
| Messages.SplitLines | cogs/SquadQueue.py:721 | `split("\n")` yields at least one piece and no piece holds a newline |
| Messages.SplitLinesJoin | cogs/SquadQueue.py:721 | joining the pieces with newlines gives back the text |
| Json.TypeOf | config_checker.py:65-76 | `type(value)` of a JSON value: None, str, list and dict exactly for those kinds |
| Json.Lookup | config_checker.py:61-64 | a dict lookup: None exactly when no key matches, else the value of the last entry with the key, as decoding a repeated key keeps the last value |
| Json.LookupLastWins | config_checker.py:61-64 | an entry added at the end binds its key to its value and leaves every other key unchanged |
| Json.GetNonNull | mmr.py:96-97 | `dict.get` that treats a stored null as missing |
| Json.In | mmr.py:113 | the `in` test on a dict is key membership |
| Json.Keys | config_checker.py:67-69 | iterating a dict visits exactly its keys, each once |
| Json.DictItems | config_checker.py:88 | `d.items()` lists each key once, in key order, paired with the value the dict binds it to |
| Json.DictItemsMembers | config_checker.py:88 | a pair is among the items exactly when the dict binds that key to that value, and no key appears twice |
| ConfigChecker.FieldName | config_checker.py:57-59 | a `.list_items` field names the list without the suffix; other fields name themselves |
| ConfigChecker.CheckFieldsAccepts | config_checker.py:55-76 | the config passes the table exactly when every field passes |
| ConfigChecker.CheckFieldsReportsFirst | config_checker.py:55-76 | the error raised is the first failing field's, in table order |
| ConfigChecker.MissingFieldIsReported | config_checker.py:61-63 | an absent field, first in table order, is reported by name as missing |
| ConfigChecker.PlainFieldCheck | config_checker.py:61-76 | a plain field passes exactly when present with its exact type in the allowed types |
| ConfigChecker.ListItemsFieldCheck | config_checker.py:57-59 | a `.list_items` field passes exactly when every element's exact type is allowed |
| ConfigChecker.FirstBadItemSpec | config_checker.py:67-71 | no bad element is found exactly when all elements are allowed; a found type is not allowed |
| ConfigChecker.ExactTypeRejectsBool | config_checker.py:65-76 | a bool `guild_id` is a type error, because types are compared exactly |
| ConfigChecker.IsInstanceAcceptsBool | config_checker.py:92-101 | a bool `tier_role_id` passes, because the tier entries use `isinstance` |
| ConfigChecker.TierChannelsOnlyWithoutThreads | config_checker.py:79-101 | TIER_CHANNELS is checked exactly when USE_THREADS is false |
| ConfigChecker.CheckTierEntriesAccepts | config_checker.py:88-101 | the loop over the items passes exactly when every item's key is a str and its entry passes |
| ConfigChecker.TierChannelsDictAccepts | config_checker.py:84-101 | the tier-channel dict passes exactly when every key it binds is a str and the value it keeps for that key passes |
| ConfigChecker.RepeatedTierKeyLastWins | config_checker.py:88-101 | a key written twice is checked only with its last value: an earlier bad value is never seen |
| ConfigChecker.TierEntryWithRoleAccepted | config_checker.py:92-101 | an entry with the three needed keys, an int-instance role and two lists passes |
| ConfigChecker.CheckTierEntryAccepts | config_checker.py:92-101 | an entry passes exactly when it is a dict holding each needed key with an instance of its type |
| Ratings.CheckPlayersSpec | mmr.py:109-127 | the player loop accepts exactly when every player passes, and otherwise reports the first failure |
| Ratings.NullRatingRejected | mmr.py:122-127 | an MK8DX player with a null `mmr` is bad player data |
| Ratings.ValidateMk8dxOrder | mmr.py:93-127 | an MK8DX response is bad rating data exactly when it is not a dict or lacks a non-null `players`; too short exactly when fewer than 10000 players; accepted exactly when long enough and every player passes |
| Ratings.ValidateMkwOrder | mmr.py:140-186 | an MKW response is bad rating data exactly when it is not a dict, its status is not "success" or it lacks `results`; too short exactly when fewer than 1000 players; accepted exactly when long enough and every player passes |
| Ratings.Mk8dxEntryOfValidPlayer | mmr.py:129-138 | a validated MK8DX player is keyed by its `discordId` when present and not null, rated by its `mmr` or the placement rating when that is missing or null, and named by its `name` |
| Ratings.MkwEntryOfValidPlayer | mmr.py:188-195 | a validated MKW player is keyed by its `discord_user_id` unless that is null, rated by `current_mmr` and named by `player_name` |
| Ratings.TableOfKeys | mmr.py:129-138 | the rebuilt table holds exactly the ids of the parsed entries that have one |
| Ratings.TableOfLastWins | mmr.py:129-138 | a later entry with the same id overwrites an earlier one |
| Ratings.Mk8dxParsedTableKeys | mmr.py:129-138 | after parsing validated MK8DX players, the table's ids are exactly the players' `discordId` strings |
| Ratings.Mk8dxParsedTableLast | mmr.py:129-138 | an MK8DX id holds the last such player's `mmr` (the placement rating when missing or null) and `name` |
| Ratings.MkwParsedTableKeys | mmr.py:188-195 | after parsing validated MKW players, the table's ids are exactly the players' non-null `discord_user_id` strings |
| Ratings.MkwParsedTableLast | mmr.py:188-195 | an MKW id holds the last such player's `current_mmr` and `player_name` |
| Ratings.NatToString | mmr.py:198 | the decimal text of a natural number starts with a digit |
| Ratings.ParseNatToString | mmr.py:198 | the decimal text of a natural number reads back as that number |
| Ratings.ParseIntToString | mmr.py:198 | `str()` of a member id can be read back as the id |
| Ratings.IntToStringInjective | mmr.py:198 | different member ids give different table keys |
| Ratings.RatedPlayersAppend | mmr.py:211-219 | the lookup loop handles the members one after another |
| Ratings.RatedPlayersMembers | mmr.py:211-219 | a player is returned for a member exactly when the member's id is in the table; never more players than members |
| Ratings.RatedPlayersValues | mmr.py:211-219 | each returned player carries the table's rating and name, unconfirmed and not host |
| Ratings.ValidatedHasPlayers | mmr.py:93-186 | a validated response has its player list |
| Ratings.Ratings.constructor | mmr.py:33-35 | a new table is empty and not ready |
| Ratings.Ratings.Parse | mmr.py:129-138 | parsing replaces the table with the rebuilt one and leaves the ready flag |
| Ratings.Ratings.PullRatings | mmr.py:74-91 | the table is replaced only by a 200 response that validates; the ready flag is left |
| Ratings.Ratings.UpdateRatings | mmr.py:37-59 | the ready flag is set only by a successful first pull or a successful single retry; two failures change nothing |
| Ratings.Ratings.GetRatingFromDiscordId | mmr.py:197-205 | RatingsNotReady before the first run; else the stored rating of the stringified id, or None |
| Ratings.Ratings.GetRating | mmr.py:207-219 | RatingsNotReady before the first run; else the rated players in member order, skipping unknown ids |
| Mogis.Mogi.constructor | mogi_objects.py:23-39 | a new event has not started, gathers nobody and has no teams or rooms; times only for an automated event |
| Mogis.FirstMemberIndex | mogi_objects.py:241-245 | the index of the first player with that member, None exactly when there is none |
| Mogis.WithHostChangesFoundPlayer | cogs/SquadQueue.py:513-519 | re-joining changes the host flag of the found player and nothing else |
| Mogis.WithHostKeepsRoster | cogs/SquadQueue.py:513-519 | changing the host flag keeps the team's members, size and confirmation |
| Mogis.UnfilledRooms | cogs/SquadQueue.py:1412-1415 | the new rooms are numbered on from the existing ones and unseated |
| Mogis.SeatRoomsSeats | cogs/SquadQueue.py:1485-1498 | a room is seated with its chunk exactly when the chunk passes the room check; room numbers are kept |
| Mogis.SeatedRoomPlayers | cogs/SquadQueue.py:1485-1498 | a room seated with a chunk holds exactly that chunk's players, each as a team of one, in list order |
| SquadQueueCog.MinuteOfHour | cogs/SquadQueue.py:1664 | the minute passed as `open_time` lies in 0..59 |
| SquadQueueCog.KeptEvents | cogs/SquadQueue.py:1784-1792 | the old events kept are exactly those not past their lifetime |
| SquadQueueCog.ExpiredEvents | cogs/SquadQueue.py:1784-1787 | the events deleted are exactly those past their lifetime |
| SquadQueueCog.Without | cogs/SquadQueue.py:1786-1792 | removing the deleted events keeps exactly the others |
| SquadQueueCog.WithoutExpiredIsKept | cogs/SquadQueue.py:1786-1792 | removing the expired events one by one leaves the kept ones in order |
| SquadQueueCog.RemoveFirstWithout | cogs/SquadQueue.py:1788-1792 | removing one more deleted event is one more step of the removal |
| SquadQueueCog.RemoveOneMore | cogs/SquadQueue.py:1788-1792 | the removal loop's step, for an event already removed or not |
| SquadQueueCog.WithoutDistinct | cogs/SquadQueue.py:1788-1792 | the old events stay distinct |
| SquadQueueCog.RemoveEach | cogs/SquadQueue.py:1788-1792 | the removal loop leaves the events without those deleted |
| SquadQueueCog.ChunkCountOfWholeRooms | cogs/SquadQueue.py:1483-1486 | a list of n whole rooms cuts into at most n chunks |
| SquadQueueCog.WholeRoomChunk | cogs/SquadQueue.py:1483-1486 | each chunk of a whole-rooms list is one full room drawn from the list |
| SquadQueueCog.ProposedRoomsAreFull | cogs/SquadQueue.py:1478-1486 | the proposed rooms are full rooms of confirmed players, at most the rooms possible |
| SquadQueueCog.RatedOnlyMember | mmr.py:211-219 | a lookup of one member returns at most that member |
| SquadQueueCog.JoinRejoins | cogs/SquadQueue.py:513-535 | a registered player re-joining gets one of the four replies by their old and new host flag, adds no team and changes only their host flag |
| SquadQueueCog.JoinAddsTeam | cogs/SquadQueue.py:537-564 | a new player joins exactly when rated or holding the placement role, as a confirmed team of one appended last, at their rating or the placement rating; otherwise the roster is unchanged |
| SquadQueueCog.JoinKeepsMembersUnique | cogs/SquadQueue.py:513-564 | joining keeps every member on at most one team |
| SquadQueueCog.DropRemovesMember | cogs/SquadQueue.py:585-593 | drop removes the member's team exactly when they are in the event, and otherwise changes nothing; afterwards no team holds them |
| SquadQueueCog.SquadQueue.constructor | cogs/SquadQueue.py:152-260 | a new cog has no events, empty override lists and queues, new events allowed, and the settings converted to seconds |
| SquadQueueCog.SquadQueue.AtMostOneGathering | cogs/SquadQueue.py:1673-1697 | only the ongoing event can be gathering |
| SquadQueueCog.SquadQueue.EventInChannel | cogs/SquadQueue.py:447-452 | `get_mogi` returns the ongoing event or nothing |
| SquadQueueCog.SquadQueue.TimeBetweenEvents | cogs/SquadQueue.py:79-88 | an interval above 15 minutes sets the open time and keeps joining plus extension equal to it; otherwise nothing changes |
| SquadQueueCog.SquadQueue.ComputeNextEventOpenTime | cogs/SquadQueue.py:1726-1732 | the latest open time at or before now, a whole number of intervals after the first event; `compute_first_event_of_date_open_time` (cogs/SquadQueue.py:1088-1093) is the same formula for a given date |
| SquadQueueCog.SquadQueue.ScheduleForcedFormatTime | cogs/SquadQueue.py:1157-1181 | a past time is refused with no change; otherwise the entry is inserted, replacing one at the same time |
| SquadQueueCog.SquadQueue.GapPositive | cogs/SquadQueue.py:1186 | the autoschedule gap is positive when a positive number of queues lies between forced formats |
| SquadQueueCog.SquadQueue.AutoscheduleForcedFormatTimes | cogs/SquadQueue.py:1183-1211 | the list becomes the autoscheduled list: it holds exactly the new events plus the old entries at times they do not take (Schedule.AutoscheduleEntries), sorted with unique times |
| SquadQueueCog.SquadQueue.RemoveForcedFormatTime | cogs/SquadQueue.py:1224-1244 | every entry at that time is removed, and "found" exactly when there was one |
| SquadQueueCog.SquadQueue.ClearForcedFormatTimes | cogs/SquadQueue.py:1246-1257 | the forced-format list is emptied |
| SquadQueueCog.SquadQueue.ScheduleSqTime | cogs/SquadQueue.py:1259-1283 | a past time is refused with no change; otherwise the time is added once, sorted |
| SquadQueueCog.SquadQueue.RemoveSqTime | cogs/SquadQueue.py:1304-1314 | a listed time is removed, and "found" exactly when it was listed |
| SquadQueueCog.SquadQueue.ClearSqTimes | cogs/SquadQueue.py:1316-1322 | the SQ-time list is emptied |
| SquadQueueCog.SquadQueue.AllowNewMogis | cogs/SquadQueue.py:934-935 | new events are allowed again |
| SquadQueueCog.SquadQueue.PauseMogiScheduling | cogs/SquadQueue.py:960-965 | new events are stopped |
| SquadQueueCog.SquadQueue.ResumeMogiScheduling | cogs/SquadQueue.py:967-972 | new events are allowed |
| SquadQueueCog.SquadQueue.AnnulCurrentMogi | cogs/SquadQueue.py:939-958 | the next and ongoing events are dropped and new events stopped; when asked, a resume is scheduled one interval after the current open time |
| SquadQueueCog.SquadQueue.ResetBot | cogs/SquadQueue.py:1033-1039 | all events are dropped and new events allowed |
| SquadQueueCog.SquadQueue.Extend | cogs/SquadQueue.py:470-485 | the ongoing event is extended by the minutes exactly when it is started and gathering in this channel |
| SquadQueueCog.SquadQueue.CheckCloseEventChange | cogs/SquadQueue.py:1592-1657 | with no ongoing event nothing changes; otherwise the decision and the new event and notice state are `CloseStep`'s |
| SquadQueueCog.SquadQueue.WarnOrClose | cogs/SquadQueue.py:1613-1657 | the part of the decision before the forced start time, as `CloseStep` gives it |
| SquadQueueCog.SquadQueue.SchedulerMogiStart | cogs/SquadQueue.py:1673-1701 | once the next event is due it is taken off; a gathering ongoing event keeps its place; otherwise a previous ongoing event is archived and the new one becomes ongoing, started and gathering |
| SquadQueueCog.SquadQueue.TakeForcedFormat | cogs/SquadQueue.py:1747-1753 | the forced format of the event opening now is taken and past entries dropped |
| SquadQueueCog.SquadQueue.ScheduleQueEvent | cogs/SquadQueue.py:1734-1778 | when scheduling applies, past forced formats are consumed; a due SQ time is consumed and pauses new events until one interval on; otherwise a fresh empty automated event is created with the computed start, display time and format |
| SquadQueueCog.SquadQueue.OpenSlot | cogs/SquadQueue.py:1754-1776 | the SQ-time branch or the creation of the next event, as in `ScheduleQueEvent` |
| SquadQueueCog.SquadQueue.CheckRoomThreads | cogs/SquadQueue.py:1411-1437 | missing rooms are added, numbered on, until there is one per possible room |
| SquadQueueCog.SquadQueue.SeatProposedRooms | cogs/SquadQueue.py:1483-1498 | on MK8DX and MKW the rooms are seated with the proposed chunks that pass the room check; MKWorld seats none |
| SquadQueueCog.SquadQueue.AddTeamsToRooms | cogs/SquadQueue.py:1449-1590 | the outcome follows the open-time, rooms-run and player-count guards; a refused run changes no rooms; a run stops gathering, adds the rooms, seats them and archives the event |
| SquadQueueCog.SquadQueue.MakeRooms | cogs/SquadQueue.py:1462-1590 | the rooms run after the guards, as in `AddTeamsToRooms` |
| SquadQueueCog.SquadQueue.LaunchMogi | cogs/SquadQueue.py:1659-1664 | with an ongoing event, rooms are made for its start minute as an automatic start |
| SquadQueueCog.SquadQueue.CheckSendExtensionMessage | cogs/SquadQueue.py:1666-1671 | the pending notice is sent when there is an ongoing event, and cleared |
| SquadQueueCog.SquadQueue.DeleteOldMogis | cogs/SquadQueue.py:1781-1794 | the old events become those not past their lifetime |
| SquadQueueCog.SquadQueue.CloseAndLaunch | cogs/SquadQueue.py:572-577 | after a roster change the close decision runs, and rooms are made exactly when it closes |
| SquadQueueCog.SquadQueue.AddToQueue | cogs/SquadQueue.py:513-564 | the reply and the new roster are `Join`'s for the member's rating lookup |
| SquadQueueCog.SquadQueue.RemoveFromQueue | cogs/SquadQueue.py:588-593 | the reply and the new roster are `Drop`'s, and no team holds the member afterwards |
| SquadQueueCog.SquadQueue.JoinQueue | cogs/SquadQueue.py:499-577 | no event in this channel: "not started" and nothing changes; otherwise the reply and roster are `Join`'s, and rooms are made exactly when a successful join closes the event |
| SquadQueueCog.SquadQueue.DropPlayer | cogs/SquadQueue.py:581-604 | no event in this channel: "not started" and nothing changes; otherwise the reply and roster are `Drop`'s, and rooms are made exactly when a removal closes the event; staff `remove_player` (cogs/SquadQueue.py:887-911) is the same drop for the named member |
| SquadQueueCog.SquadQueue.QueueMessage | cogs/SquadQueue.py:406-413 | the message is appended to its channel's queue and no other queue changes |
| SquadQueueCog.SquadQueue.SendQueuedMessages | cogs/SquadQueue.py:429-445 | every channel's queue is sent as `Combined` and emptied |
| SquadQueueCog.SquadQueue.Tick | cogs/SquadQueue.py:1704-1724 | one scheduler run: schedule, start, close decision and rooms, then the notice unless making rooms failed |

## Left out

- Discord I/O: sending, editing, purging and deleting messages, threads and channels, lockdown
  permissions, role maintenance and the rendering of the listing; notices are datatypes of their
  content. The room channel of an event is not modelled, so `get_mogi` takes whether the command
  came from the queue channel as a boolean.
- asyncio: the `tasks.loop` timers, `call_later`, `sleep` and `create_task`. A resume scheduled by
  annul or by an SQ time is recorded in `resumeTimers` as its due time, not fired; the 60-second
  wait before the ratings retry is not modelled.
- HTTP: the status and body of a ratings response are inputs (`Ratings.Response`); `host_fcs.py`
  and `get_ladder_info` are not part of this model.
- Persistence (`load_staff_settings`/`dump_staff_settings`) and reading `config.json`: the config
  is a parameter.
- Randomness: `find_winner`'s `random.choice` among the tied formats is a parameter of
  `FormatVote.VoteView.FindWinner` constrained by the predicate `FormatVote.IsWinner` (some such
  option exists by `WinnerExists`); disabling the buttons, the shuffles of `make_teams` and the
  host list are not modelled.
- Floating point: average ratings, `make_teams`' rounding and the scoreboard.
- Autocomplete handlers, time-zone and date parsing, `common.is_int`, the debug commands and the
  bot bootstrap in `lounge.py`.
- `adjusted_mmr`, `is_matchmaking_mmr_adjusted` and `any_room_cancelled` are used by the cog but
  not defined in `mogi_objects.py`; they are the parameters `adjusted` and `anyRoomCancelled` of
  the cog. `channel_id_in_rooms` and `assign_roles` are not part of this model.
- The `Mogi` fields `format` and `has_checked_auto_extend`, used by the cog but not set in
  `Mogi.__init__`, are given the values the cog relies on: the format the event was created with
  and no automatic extension yet.
- MKWorld: `generate_proposed_list` raises for it; `add_teams_to_rooms` then leaves the event
  ongoing with its rooms made (`UnknownServer`), and `Tick` skips the notice as the source's
  exception would. No other exception path of the scheduler is modelled.
- SquadQueueCog.SquadQueue.JoinQueue: the non-production substitution of a fixed fetched user for
  the member on MK8DX (cogs/SquadQueue.py:501-507) is not modelled; only the production path is.
- SquadQueueCog.SquadQueue.JoinQueue: `get_rating` raising RatingsNotReady is the reply
  `RatingsUnavailable` with no change, rather than an exception escaping the command.
- SquadQueueCog.SquadQueue.Tick: its own contract states only that the class invariant holds and
  that the notice is cleared unless making rooms failed; what each step does is stated by the
  contracts of the methods it calls in order.
- SquadQueueCog.SquadQueue.WarnOrClose and OpenSlot, MakeRooms, TakeForcedFormat, AddToQueue,
  RemoveFromQueue, CloseAndLaunch are parts of the source functions cited for them, split off so
  that each proof stays small.
- Roster.MmrHigh and Roster.MmrLow: require a seated room to have players, where `max([])` and
  `min([])` would raise; the sub button is not offered for such rooms.
- Roster.SubEligibleWithinRoomRange: the sub button's checks that the user is not restricted and
  not already in the room, and the follow-up messages, are not modelled; only the rating bounds are.
- QueueRules.BasicThresholdCompares: requires a non-empty room, where the source would raise an
  IndexError; rooms are never empty.
- QueueRules.AllowedPlayersCheck: an empty room yields false instead of the source's IndexError;
  rooms are never empty.
- The queue's mutual exclusion between commands and the scheduler (all Python coroutines on one
  event loop) is not modelled: each command and each tick runs to completion.
- Time is counted in seconds on a single clock; time zones, `datetime` and `format_dt` are not
  modelled.
- The configured intervals are assumed to be sane, as a precondition of the constructor that
  nothing in the bot enforces: `QUEUE_OPEN_TIME` positive and holding the joining and extension
  times, and `QUEUES_BETWEEN_FORCED_FORMAT_QUEUE` not negative. They come from `config.json`,
  whose check only tests their types, and `time_between_events` enforces more than 15 minutes only
  when staff change the interval. A negative count hangs the scheduler (see Findings).

## Findings

| source | as written | input that shows it | evidently intended | confidence | as-written member | corrected member |
|---|---|---|---|---|---|---|
| cogs/SquadQueue.py:1186-1191 | the gap is `QUEUES_BETWEEN_FORCED_FORMAT_QUEUE * QUEUE_OPEN_TIME`, and `while last_event < now: last_event += gap` steps from the rotation's first event; the config check accepts any int and the guards at lines 358 and 1752 only test truthiness | `QUEUES_BETWEEN_FORCED_FORMAT_QUEUE = -1` with the rotation's first event in the past: the gap is negative, `last_event` moves away from now and the loop never ends, hanging the event loop | a positive count of queues between forced-format events, so that the loop stops at the first slot not in the past | medium, not executed | Schedule.NonPositiveGapNeverStops | Schedule.FirstSlotNotBefore |
