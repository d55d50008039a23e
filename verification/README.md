# Verified model of a visitor and attendance back end

The repository is a NestJS service for organizations that register visitors at kiosks, clock staff
in and out, arrange staff in teams with reporting lines, and manage staff accounts and kiosk logins.
This project models its service layer in Dafny and proves what the services keep.

A table of the database is a map (or a list, where the schema has no uniqueness rule). A request is a
method of a service class that changes the tables step by step and is proved to meet a total function
from tables and request to new tables and answer. A request that throws leaves the tables as they
were. Theorems about runs are proved about those functions. Values that a request draws or reads from
outside (identifiers, tokens, the clock) are arguments, required to be fresh where the original
generates them. Where a query may answer in several ways (events with equal timestamps, `findFirst`
over several rows), the answer is an argument too, and the theorems hold for every answer that the
query allows. The `...Effects` modules and `Rankings` state the requests a second time, in terms of rows and
columns and without the functions that specify the methods: exactly when each succeeds, its error
otherwise, its whole effect, and over runs which requests a stored value comes from.

| files | what they model |
|---|---|
| `Basics` | optional values and the size of subsets |
| `Sorting`, `Totals`, `TotalsOrder` | the stable library sort, the two accumulators of work and break time, and when the order of the events matters to them |
| `OrgDays` | the start of an organization's day, over any strictly increasing sequence of midnights |
| `ExportTotals` | when the export recomputes the totals that were stored |
| `Attendance`, `AttendanceRuns` | scan, the five attendance actions, and runs of them |
| `AttendanceEffects` | what each attendance action accepts and changes, and where the events of a session come from |
| `Export` | the day list and the string-keyed session index of the attendance export |
| `Teams`, `TeamRuns` | team membership and the reporting graph, with the bulk assignment |
| `TeamEffects` | when each team request succeeds, and what it does to the tables |
| `Graphs`, `TeamCycles` | when the reporting graph of a team stays free of cycles |
| `TeamHomes` | when the members of a team work for its organization |
| `Visits`, `VisitRuns` | the visit life cycle with its notifications, requests one after the other |
| `DecisionRace` | the same requests split at their database operations and interleaved arbitrarily |
| `OverlapRuns`, `OverlapReminders` | what overlapping registrations and reminders can break, and exactly when |
| `VisitEffects` | when each visit request succeeds, overlapping ones included, and the history of a visit |
| `WorkingHours` | the seven-day upsert shared by organizations and staff, and the schedule lookup |
| `StaffAccounts`, `StaffRuns` | staff members with their credentials and the SuperAdmin hand-over |
| `StaffEffects` | when each staff request succeeds, and what it does to the tables |
| `SystemSessions`, `SystemRuns` | kiosk accounts with the account limit, their sessions and refresh tokens, and the guard |
| `SystemEffects` | when each kiosk request succeeds, who opened a session, and how long refresh tokens last |
| `TopTen`, `Rankings` | the four top-10 rankings, and what they say about the columns of the visits |

## What the code does not keep

These are results about the code, each with the exact condition under which the property holds or a
concrete run in which it fails.

- The export can recompute totals other than the stored ones, because the database may list events
  with equal timestamps in either order and because closing a session puts the out-event last in its
  second (`AttendanceRuns.InstantBreakDisagrees`). `AttendanceRuns.ClosesAlikeIff` says exactly for
  which events the two are sure to agree; events in distinct seconds are among them.
- A punch-in is refused only for an OPEN session, so a second session can be opened on a day that was
  closed (`AttendanceRuns.SecondSessionOnTheSameDay`, `AttendanceRuns.OpeningKeepsTidyIff`), and a
  backdated punch-in can open two sessions at once (`AttendanceRuns.PunchInKeepsSingleOpenIff`).
- Two days of an export share a key exactly when they begin on one UTC date, which happens where
  clocks go forward (`OrgDays.SharedUtcDateIff`, `Export.IndexIsRightIff`,
  `Export.SpringForwardBreaksIndex`).
- Stepping the day list by calendar days keeps the time of day. Where the clocks skip a midnight, the
  loop goes on at the later time and the last day of a range is lost
  (`Export.SkippedMidnightDropsLastDay`). It is listed exactly if no earlier day of the range begins
  later in the day than it does (`Export.LastDayListedWithSameGaps`).
- addMembers compares the staff, but not the team, with the caller's organization. Every member works
  for the team's organization exactly as long as no request adds anybody to a team of another
  organization (`TeamHomes.RunStaysHomeIff`).
- The comment above the clean-up of the old master manager says that it happens only if the manager
  changed; the code also does it when the edit names no manager (`src/team/team.service.ts:147-150`).
  The model follows the code (`TeamRuns.EditTeamRows`).
- Reporting has no reversed pairs but may have longer cycles (`TeamCycles.CycleIsAccepted`). A request
  makes a cycle exactly if one of its managers already reports, directly or through others, to an
  accepted staff member (`TeamCycles.SetReportingKeepsAcyclicIff`, `TeamCycles.BulkKeepsAcyclicIff`,
  `TeamCycles.RunStaysAcyclicIff`).
- Two overlapping registrations of one person both succeed
  (`OverlapRuns.OverlappingStartsBreakUniqueness`). One active visit per person is kept exactly if every
  insertion finds none (`OverlapRuns.StaysUniqueIff`), and so whenever no registration is overtaken by
  another one of the same person (`OverlapRuns.OverlapKeepsOneActive`).
- Two overlapping reminders are sent at once (`OverlapRuns.OverlappingRemindersBreakSpacing`). The five
  minutes are kept exactly if no request or reminder is recent at the insertion
  (`OverlapRuns.NotifyKeepsApartIff`), and so whenever no reminder is overtaken by another one of the
  same visit (`OverlapReminders.OverlapKeepsReminderLimit`).
- A refreshed kiosk token carries no session id, so the guard refuses it in every state
  (`SystemRuns.RefreshedTokenIsRefused`).

## Model

| member | source | states |
|---|---|---|
| Sorting.SortPermutes | src/attendance/attendance.service.ts:197-202 | the sort of the events yields an ordered permutation of its argument, for any integer key |
| Sorting.SortIsStable | src/attendance/attendance.service.ts:197-202 | elements with equal keys keep their order |
| Totals.FloorToSecond | src/attendance/attendance.service.ts:41-43 | the greatest whole second not after the given instant, also for negative times |
| Totals.SecondsBetween | src/attendance/attendance.service.ts:216-238 | the difference of two floored times is a whole number of seconds, so dividing by 1000 loses nothing |
| Totals.RecalcTotals | src/attendance/attendance.service.ts:189-244 | both totals are the numbers of seconds that lie between an event that starts the activity and the next event, which does not, in the floored and sorted list |
| Totals.RecalcTotalsLocal | src/attendance/attendance.service.ts:863-915 | the export's copy returns the same two numbers on every list of events |
| Totals.TotalsWithinSpan | src/attendance/attendance.service.ts:195-243 | for events in any order and of any types, work and break together never exceed the floored time from the earliest to the latest |
| Totals.TotalsFillSpanIffGapless | src/attendance/attendance.service.ts:204-243 | work and break fill the whole span exactly when between any two neighbours at least a second apart one of the activities runs |
| Totals.ProtocolTotals | src/attendance/attendance.service.ts:189-244 | for a closed session in protocol order and time order, work and break count the seconds whose latest event is of that activity, and add up to the floored time from first to last event |
| TotalsOrder.IgnoresOrderIff | src/attendance/attendance.service.ts:189-244 | the total of an activity is the same for every permutation of the events exactly if any time with a start in the second before it and something else in the second after it has nothing but starts before it and no start after it; events in distinct seconds are such |
| TotalsOrder.TimelineSortsBySecond | src/attendance/attendance.service.ts:195-202 | flooring and then sorting by timestamp is sorting stably by seconds and then flooring, so only the order within a second matters |
| TotalsOrder.SettledAgree | src/attendance/attendance.service.ts:189-244 | two listings that follow two orderings within the seconds have the same total if any time that may count by the wider one must count by the stricter one |
| TotalsOrder.UnsettledDiffer | src/attendance/attendance.service.ts:189-244 | otherwise the listing with the starts first and the one with the starts last have different totals |
| ExportTotals.AlwaysAgreeIff | src/attendance/attendance.service.ts:639-653 | every total stored from a listing by timestamp with the out-event appended equals every total recomputed from a listing of all events by timestamp, exactly under a condition on the events of least and greatest timestamp in each second, the out-event counting as the last of its second when stored |
| ExportTotals.UnsettledListingsDiffer | src/attendance/attendance.service.ts:639-653 | where the condition fails there are two such listings with different totals |
| OrgDays.OrgDay | src/attendance/attendance.service.ts:33-39 | every instant lies between the midnight of its day and the next one |
| OrgDays.OrgDayIsUnique | src/attendance/attendance.service.ts:33-39 | no other day contains the instant |
| OrgDays.StartOfOrgDayIsMonotone | src/attendance/attendance.service.ts:33-39 | later instants never have an earlier day start, and a day start is its own day start |
| OrgDays.SharedUtcDateIff | src/attendance/attendance.service.ts:846-848 | neighbouring days begin on one UTC date exactly when the first is too short to leave the date on which it began |
| OrgDays.FixedOffsetDatesAreDistinct | src/attendance/attendance.service.ts:846-848 | with a fixed offset from UTC all days begin on different UTC dates |
| Attendance.AttendanceService.HandlePunchIn | src/attendance/attendance.service.ts:401-481 | refused for an invalid time or an open session of today or earlier; otherwise a new open session of the org day of the punch-in with its one event |
| Attendance.AttendanceService.HandleBreakStart | src/attendance/attendance.service.ts:483-540 | refused without an open session of the member or unless the latest event started work; otherwise exactly one BREAK_START is appended |
| Attendance.AttendanceService.HandleBreakEnd | src/attendance/attendance.service.ts:542-595 | refused without an open session of the member or unless the latest event is a BREAK_START; otherwise exactly one BREAK_END is appended |
| Attendance.AttendanceService.HandlePunchOut | src/attendance/attendance.service.ts:597-661 | accepted also on break; the session gets a PUNCH_OUT, the totals of its events with it, and is closed as NORMAL |
| Attendance.AttendanceService.HandleLatePunchOutAndPunchIn | src/attendance/attendance.service.ts:663-796 | closes the previous session as LATE with its totals and opens one for the new punch-in, or changes nothing; every check in the order of the code |
| Attendance.AttendanceService.LastEvent | src/attendance/attendance.service.ts:124-131 | an event of the session with the greatest timestamp, or none if there are no events |
| Attendance.AttendanceService.NewestOldOpen | src/attendance/attendance.service.ts:96-109 | an open session of an earlier day with the latest date, or none exactly if there is no such session |
| Attendance.AttendanceService.Scan | src/attendance/attendance.service.ts:89-187 | the newest open session of an earlier day comes first, then the state of a session of today, else NO_SESSION_TODAY |
| AttendanceEffects.PunchInEffect | src/attendance/attendance.service.ts:401-481 | a punch-in is accepted exactly at a valid time without an open session of the member on its day or before; it opens a session dated by the beginning of the day that contains it, and touches no other |
| AttendanceEffects.BreakEffect | src/attendance/attendance.service.ts:483-595 | a break starts exactly on an open session of the member after a punch-in or break end, and ends exactly after a break start; one event of its kind is appended at the time of the request, and no other field and no other session changes |
| AttendanceEffects.PunchOutEffect | src/attendance/attendance.service.ts:597-661 | a punch-out is accepted exactly on an open session of the member, at any valid time, and changes that session only |
| AttendanceEffects.LateEffect | src/attendance/attendance.service.ts:663-796 | a late punch-out is accepted exactly on an open session of the member, at a time after its first punch-in and before the new punch-in; it closes that session and opens one, and touches no other |
| AttendanceEffects.EventsAreRequested | src/attendance/attendance.service.ts:401-796 | in every run the events of a session are exactly those of the accepted requests that opened or named it, in order, each with its kind and the time that its request gave |
| AttendanceEffects.SessionKeepsOwner | src/attendance/attendance.service.ts:401-796 | member, day and first punch-in of a session never change, and only requests of its member touch it |
| AttendanceEffects.RunKeepsDated | src/attendance/attendance.service.ts:423-461 | in every run the date of a session is the beginning of the day that contains its first event |
| AttendanceEffects.ScanMeans | src/attendance/attendance.service.ts:89-187 | what each of the five answers says about the member's sessions: the newest open one of an earlier day, else one of today by its status and a latest event, and none only if there is neither |
| AttendanceRuns.RunKeepsWellFormed | src/attendance/attendance.service.ts:401-796 | after any run of the five actions with any times a session has one PUNCH_IN, an out-event exactly if it is closed, which matches its closure type and punch-out time, and totals that are those of a listing of its other events with the out-event appended |
| AttendanceRuns.ClosedIsFinal | src/attendance/attendance.service.ts:401-796 | none of the five actions changes a closed session |
| AttendanceRuns.DeletingStaffKeepsTidy | prisma/schema.prisma:140 | deleting a staff member removes that member's sessions, changes no other, and keeps the run properties of this table for everybody |
| AttendanceRuns.ExportAgreesWithStored | src/attendance/attendance.service.ts:1047-1054 | in every reachable state the export recomputes the stored totals of each closed session that meets that condition, events in distinct seconds included, however the database lists them |
| AttendanceRuns.ClosesAlikeIff | src/attendance/attendance.service.ts:639-653 | closing an open session of a reachable state, in time or late, is sure to store the totals that the export recomputes exactly if that condition holds for work and for breaks |
| AttendanceRuns.IncreasingSessionsAreExact | src/attendance/attendance.service.ts:401-796 | in every run a closed session whose event times strictly increase is in protocol order, its stored totals count the seconds whose latest event is of the activity, and add up to the floored time from punch-in to out-event |
| AttendanceRuns.InstantBreakDisagrees | src/attendance/attendance.service.ts:747-763 | a run that ends in a closed session whose stored break time differs from the one that the export may recompute |
| AttendanceRuns.FallbacksAreUnreachable | src/attendance/attendance.service.ts:133-186 | a well-formed session of today is reported as completed, on break or working, never as no session |
| AttendanceRuns.NoSessionMeansNone | src/attendance/attendance.service.ts:89-187 | NO_SESSION_TODAY is answered exactly if the member has no session of today and no older open one |
| AttendanceRuns.OfferedActionsAreAccepted | src/attendance/attendance.service.ts:284-345 | every action that scan offers, with the session it returned, is accepted by its handler, given an approximate time after the first punch-in for the late punch-out |
| AttendanceRuns.BreakAcceptedUnderEveryReadIff | src/attendance/attendance.service.ts:505-525 | a break can start, or end, under every answer of the database exactly if none, or all, of the latest events are break starts |
| AttendanceRuns.PunchInKeepsSingleOpenIff | src/attendance/attendance.service.ts:425-461 | an accepted punch-in leaves at most one open session exactly if none of a later day was open |
| AttendanceRuns.AnyMixKeepsSingleOpen | src/attendance/attendance.service.ts:425-461 | any mix of actions, offered or not, leaves at most one open session per member if the member's punch-in days never go back |
| AttendanceRuns.GuidedRunStaysTidy | src/attendance/attendance.service.ts:284-345 | in every run that follows scan with a clock that never goes back, a member has at most one session per org day, at most one open session, and the open one is the newest |
| AttendanceRuns.OpeningKeepsTidyIff | src/attendance/attendance.service.ts:425-461 | an accepted punch-in or late punch-out keeps that property exactly if all the member's sessions lie before the new day |
| AttendanceRuns.SecondSessionOnTheSameDay | src/attendance/attendance.service.ts:441-461 | a run without scan that ends with two sessions of one member on one day |
| AttendanceRuns.BackdatedPunchInOpensTwo | src/attendance/attendance.service.ts:425-461 | a run whose punch-in day goes back and which ends with two open sessions |
| Export.DayList | src/attendance/attendance.service.ts:823-837 | the loop ends and lists an instant of every day of the range once, in order, except that the last day is missing if the time of day that the loop has by then is not the one at which that day begins |
| Export.LastDayListedIff | src/attendance/attendance.service.ts:823-828 | the last day is listed exactly if no day before it begins late, or the loop comes to it at the very time at which it begins |
| Export.LastDayListedWithSameGaps | src/attendance/attendance.service.ts:823-828 | where all skipped midnights are skipped by the same amount, it is listed exactly if no earlier day of the range begins later in the day |
| Export.MidnightsListAll | src/attendance/attendance.service.ts:823-828 | where no midnight is skipped, as with a fixed offset, every day is listed |
| Export.SkippedMidnightDropsLastDay | src/attendance/attendance.service.ts:823-828 | every range that contains a day without midnight and ends later loses its last day |
| Export.KeysAgreeIff | src/attendance/attendance.service.ts:846-848 | two keys are equal exactly if staff member and UTC date are |
| Export.BuildIndex | src/attendance/attendance.service.ts:844-850 | the map holds for every key of a fetched session the last session with that key, and nothing else |
| Export.IndexIsRightIff | src/attendance/attendance.service.ts:1002-1007 | looking up any member and day of the range finds a session of that member and day exactly if one was fetched, for all fetched lists, exactly if the days begin on different UTC dates |
| Export.FixedOffsetIndexIsRight | src/attendance/attendance.service.ts:1002-1007 | the lookup is right in every zone whose offset never changes |
| Export.SpringForwardBreaksIndex | src/attendance/attendance.service.ts:1002-1007 | a calendar with one 23-hour day for which the lookup is wrong |
| Teams.TeamService.AddTeam | src/team/team.service.ts:45-76 | the master manager must work for the organization and becomes the first member of the new team |
| Teams.TeamService.EditTeam | src/team/team.service.ts:111-182 | a new master manager must be a member; the rows of the new one and of a former one that is not named again are removed; nothing changes if refused |
| Teams.TeamService.AddMembers | src/team/team.service.ts:215-264 | each valid staff member who is not a member yet, except the master manager, is added once, with the four counters of the answer |
| Teams.TeamService.RemoveMember | src/team/team.service.ts:291-323 | the membership goes with all rows of the team that mention the member, and with the rows that point at it |
| Teams.TeamService.SetReporting | src/team/team.service.ts:358-455 | every check in the order of the code; accepted, one row per manager that the member did not report to yet, or the number of rows that exist already if there is none |
| Teams.TeamService.SetReportingBulk | src/team/team.service.ts:460-495 | the loop equals setReporting applied to the entries one after the other, with the summary of their answers |
| Teams.TeamService.RemoveReporting | src/team/team.service.ts:520-568 | refused unless both are members and the row exists; otherwise exactly that relation is removed |
| Teams.TeamService.DeleteTeam | src/team/team.service.ts:749-756 | the team goes with its members and rows |
| Teams.TeamService.DeleteStaff | prisma/schema.prisma:295-345 | deleting a staff row cascades to the teams the member is master manager of, to the memberships and to all rows that mention the member |
| Teams.LengthCheckIff | src/team/team.service.ts:384-398 | comparing the number of managers found with the number asked for accepts exactly the lists without repetition whose entries are all members |
| TeamRuns.RunKeepsConsistent | src/team/team.service.ts:19-568 | in every state that requests and deletions of staff can reach the rows of each team join two different current members, point at the reportee's own membership, never have the master manager as reportee, and contain no duplicate and no reversed pair |
| TeamRuns.VerdictUnchanged | src/team/team.service.ts:460-495 | earlier entries of a bulk request never change the verdict on a later one |
| TeamRuns.BulkMeaning | src/team/team.service.ts:460-495 | a bulk request adds exactly the rows between accepted members and managers, fails the others with the error setReporting gives on the initial state, and its three counters account for all entries |
| TeamRuns.BulkIgnoresOrder | src/team/team.service.ts:460-495 | for every order of the staff ids the edges, the counters and the failures are the same |
| TeamRuns.BulkAcceptsIff | src/team/team.service.ts:460-495 | an entry fails exactly if setReporting would refuse it on the initial state |
| TeamRuns.EdgeCount | src/team/team.service.ts:460-495 | the reported number of assignments is the number of edges added |
| TeamRuns.RemoveUndoesSet | src/team/team.service.ts:520-568 | removing a relation just created restores the tables |
| TeamRuns.AddMembersCounters | src/team/team.service.ts:252-264 | added, duplicate, master manager and invalid counters add up to the length of the request |
| TeamRuns.AddMembersMembers | src/team/team.service.ts:228-251 | afterwards exactly the former members and the valid staff other than the master manager are members |
| TeamRuns.EditTeamRows | src/team/team.service.ts:134-170 | after every accepted edit, a rename included, the remaining rows are those that mention neither the former nor the new master manager |
| TeamEffects.SetReportingVerdict | src/team/team.service.ts:358-455 | on any number of managers a request succeeds exactly if the team is the organization's, the staff member belongs to it and is not its master manager, and the managers are distinct other members of whom none reports to the staff member; otherwise it has the error of the first check that fails |
| TeamEffects.SetReportingEffect | src/team/team.service.ts:420-455 | an accepted request adds one row for each manager who is new, with the staff member's own membership, and counts them; without a new manager it counts all as skipped |
| TeamEffects.BulkEffect | src/team/team.service.ts:460-495 | a bulk request adds exactly the rows between the managers and the staff members whose entries meet that condition in the initial tables, and lists the others as failed, in order, each with its error |
| TeamEffects.AddTeamEffect | src/team/team.service.ts:45-76 | a team is added exactly for a master manager of the organization, with that one member |
| TeamEffects.EditTeamEffect | src/team/team.service.ts:111-188 | an edit needs a team of the organization and, if it names a master manager, a member who works for it; apart from reporting rows only the master manager changes |
| TeamEffects.AddMembersEffect | src/team/team.service.ts:215-264 | addMembers succeeds exactly for an existing team and at least one staff member of the organization; the four counters count the new memberships, the valid staff who were members, the master manager and the other ids |
| TeamEffects.AddMembersRows | src/team/team.service.ts:234-256 | memberships stay, and exactly the valid staff other than the master manager become members |
| TeamEffects.RemoveMemberEffect | src/team/team.service.ts:291-323 | exactly a membership of the team is removed, with the rows of the team that name the member in any role |
| TeamEffects.RemoveReportingEffect | src/team/team.service.ts:520-568 | exactly an existing relation between two members of a team of the organization is removed, and the error of each other case |
| TeamEffects.DeleteTeamEffect | src/team/team.service.ts:749-756 | the team goes with its members and rows, and no other |
| TeamEffects.DeleteStaffEffect | prisma/schema.prisma:295-345 | a deleted staff member takes along the teams the member is master manager of, and the memberships and rows that name the member |
| Graphs.JoinsKeepsAcyclicIff | src/team/team.service.ts:440-448 | edges from some nodes to others make a cycle in a graph without one exactly if a target already reaches a source |
| TeamCycles.SetReportingKeepsAcyclicIff | src/team/team.service.ts:400-448 | an accepted request keeps the team free of cycles exactly if none of the new managers already reports, directly or through others, to the staff member |
| TeamCycles.BulkKeepsAcyclicIff | src/team/team.service.ts:460-495 | a bulk request does so exactly if none of its managers already reports, directly or through others, to a staff member whom it accepts |
| TeamCycles.RunStaysAcyclicIff | src/team/team.service.ts:19-568 | a run keeps all teams free of cycles in every state exactly if each assignment of it meets its condition |
| TeamCycles.CycleIsAccepted | src/team/team.service.ts:425-448 | three ordinary members can be made to report to each other in a circle, the third request failing the condition |
| TeamHomes.StepKeepsHomeIff | src/team/team.service.ts:215-251 | a request keeps every member in the team's organization exactly if it adds nobody to a team of another organization |
| TeamHomes.RunStaysHomeIff | src/team/team.service.ts:19-568 | over whole runs, deletions of staff included |
| Visits.NormalizeIsIdempotent | src/visit/visit.service.ts:37-38 | normalizing an e-mail address twice is normalizing it once |
| Visits.VisitService.StartVisit | src/visit/visit.service.ts:57-128 | refused for staff of another organization or an active visit of the normalized address; otherwise a pending visit with its unread request notification |
| Visits.VisitService.EndVisit | src/visit/visit.service.ts:173-229 | an ongoing visit of that name and address is completed with its end time; none found changes nothing |
| Visits.VisitService.EndVisitQr | src/visit/visit.service.ts:271-303 | any visit of the organization that is not completed is completed |
| Visits.VisitService.AcceptVisit | src/visit/visit.service.ts:718-798 | a pending visit of the caller, or of anyone for an admin, becomes ongoing with its start time, and all its notifications become read and accepted |
| Visits.VisitService.RejectVisit | src/visit/visit.service.ts:841-920 | a pending visit becomes rejected without a start time, and all its notifications become read and rejected |
| Visits.VisitService.LastNotification | src/visit/visit.service.ts:1057-1072 | the newest request or reminder of the visit is recent exactly if any of them is |
| Visits.VisitService.ResendVisitNotification | src/visit/visit.service.ts:1039-1087 | refused unless the visit is pending and its last request or reminder at least five minutes old; otherwise one reminder is added |
| Visits.VisitService.DeleteNotification | src/notifications/notifications.service.ts:114-153 | only a read notification with a decision, addressed to the caller, is removed |
| VisitEffects.TrimCuts | src/visit/visit.service.ts:37-38 | trimming cuts exactly the white space at the two ends |
| VisitEffects.CutIsUnique | src/visit/visit.service.ts:37-38 | a text has one such cut |
| VisitEffects.NormalizeMeans | src/visit/visit.service.ts:37-38 | the stored address is the given one in small letters without the white space around it |
| VisitEffects.StartVisitEffect | src/visit/visit.service.ts:57-128 | a registration succeeds exactly for a host of the organization and a visitor without a pending, accepted or ongoing visit there; it adds one pending visit and one unread request, and nothing else |
| VisitEffects.EndVisitEffect | src/visit/visit.service.ts:173-221 | a check-out by name and address succeeds exactly if an ongoing visit of the organization has both, and completes that visit only |
| VisitEffects.EndVisitQrEffect | src/visit/visit.service.ts:271-303 | a check-out by code succeeds exactly for a visit of the organization that is not completed, and completes that visit only |
| VisitEffects.DecideEffect | src/visit/visit.service.ts:718-798 | from any state accept and reject succeed exactly if the caller works for the organization, the visit is one of its pending ones, and the caller is its host or an admin; the visit and its notifications change, and nothing else |
| VisitEffects.ResendEffect | src/visit/visit.service.ts:1039-1087 | a reminder is sent exactly for a pending visit of the organization without a request or reminder in the last five minutes |
| VisitEffects.DeleteEffect | src/notifications/notifications.service.ts:114-153 | a notification is deleted exactly if it is the caller's, of the organization, read and decided |
| VisitRuns.RunKeepsInv | src/visit/visit.service.ts:71-103 | with serial requests of the two services: one active visit per organization and address, end time exactly for completed visits, no start time for pending and rejected ones, a start time for ongoing ones, ACCEPTED never occurs, and a pending visit's notifications are unread |
| VisitRuns.RunKeepsEmailsNormal | src/visit/visit.service.ts:37-38 | stored addresses are always in normal form |
| VisitRuns.DeletingStaffKeepsInv | prisma/schema.prisma:49 | deleting a staff member, with that member's visits and their notifications, keeps the invariant |
| VisitRuns.CompletedIsFinal | src/visit/visit.service.ts:280-293 | no request changes a completed visit |
| VisitRuns.PendingNotificationsStay | src/notifications/notifications.service.ts:136-152 | nobody can delete a notification of a pending visit |
| VisitRuns.AnnouncementsAreSpaced | src/visit/visit.service.ts:1051-1087 | the request and the reminders of a visit are pairwise at least five minutes apart |
| VisitRuns.ReminderLimit | src/visit/visit.service.ts:1051-1087 | by time t at most 1 + (t - t0) / 5 min requests and reminders of a visit were ever created, deleted ones included |
| VisitEffects.VisitFollowsHistory | src/visit/visit.service.ts:57-303 | in every serial run a visit is what the requests that succeeded on it made of it: started when it was accepted, ended when it was checked out, with its visitor, host and organization unchanged |
| VisitEffects.CheckOutFindsRegistered | src/visit/visit.service.ts:196-208 | a visit registered under a name and an address is the one that a check-out under the same two finds, in every later state of the run in which it is ongoing |
| DecisionRace.StatusOnlyAdvances | src/visit/visit.service.ts:757-764 | under every interleaving no step removes a visit, makes it pending again or leaves COMPLETED |
| DecisionRace.VerdictsAreFinal | src/visit/visit.service.ts:729-798 | under every interleaving a committed decision stays, and what remains of the visit's notifications of that moment is read and shows it |
| DecisionRace.AtMostOneDecision | src/visit/visit.service.ts:757-764 | under every interleaving of accept, reject, check-out, reminder, deletion and registration at most one decision commits per visit |
| DecisionRace.LaterDecisionsFail | src/visit/visit.service.ts:881-890 | after a decision every other transaction for the visit fails with a conflict and changes nothing |
| DecisionRace.CommitWinsIff | src/visit/visit.service.ts:757-798 | a request under way commits exactly if its visit is still pending, and then visit and notifications show its decision |
| VisitEffects.ReadForDecisionIff | src/visit/visit.service.ts:738-755 | among overlapping requests a decision goes on after its reads exactly if the caller works for the organization, the visit is one of its pending ones, and the caller is its host or an admin |
| VisitEffects.ReadForStartIff | src/visit/visit.service.ts:71-90 | a registration goes on exactly for a host of the organization and a visitor without an active visit there |
| VisitEffects.ReadForReminderIff | src/visit/visit.service.ts:1039-1073 | a reminder goes on exactly for a pending visit of the organization that was not announced in the last five minutes |
| VisitEffects.UninterruptedDecision | src/visit/visit.service.ts:718-798 | a decision whose read and transaction are not interrupted does what it does in a serial run |
| VisitEffects.UninterruptedStart | src/visit/visit.service.ts:57-128 | so does a registration |
| VisitEffects.UninterruptedReminder | src/visit/visit.service.ts:1039-1087 | so does a reminder |
| OverlapRuns.OverlapKeepsLifeOk | src/visit/visit.service.ts:196-219 | under every interleaving end time exactly for completed visits, no start time for pending and rejected ones, a start time for ongoing ones, ACCEPTED never occurs, and a pending visit's notifications are unread and undecided |
| OverlapRuns.InsertKeepsOneActiveIff | src/visit/visit.service.ts:71-114 | under overlap an insertion keeps one active visit per organization and normalized address exactly if there is none at that moment |
| OverlapRuns.StaysUniqueIff | src/visit/visit.service.ts:71-114 | an interleaved run has one active visit per person in every state exactly if every insertion finds none |
| OverlapRuns.OverlapKeepsOneActive | src/visit/visit.service.ts:71-114 | it does if no other registration of the same organization and normalized address inserts between the reads of a registration and its insertion |
| OverlapRuns.OverlappingStartsBreakUniqueness | src/visit/visit.service.ts:71-103 | two overlapping registrations of one person both succeed |
| OverlapRuns.NotifyKeepsApartIff | src/visit/visit.service.ts:1057-1087 | under overlap an insertion keeps a visit's stored requests and reminders five minutes apart exactly if none is recent at that moment |
| OverlapRuns.OverlapKeepsApart | src/visit/visit.service.ts:1057-1087 | they stay so if no other notification of the visit is inserted between the reads of a request and its insertion |
| OverlapReminders.OverlapKeepsReminderLimit | src/visit/visit.service.ts:1057-1087 | under the same condition all requests and reminders ever created for a visit are five minutes apart, and at most 1 + (t - t0) / 5 min exist by time t, deleted ones included |
| OverlapRuns.OverlappingRemindersBreakSpacing | src/visit/visit.service.ts:1057-1087 | wherever one reminder may be sent, two overlapping ones are sent at once |
| WorkingHours.TextOrderIsTimeOrder | src/dto/working-hours.dto.ts:12-25 | on the HH:mm format the order of the texts is the order of the minutes |
| WorkingHours.UpsertWeek | src/organization/organization.service.ts:271-297 | the loop leaves one row per weekday for the owner, open with the given times if selected, else closed, and no other owner's row changes |
| WorkingHours.OrganizationService.EditWorkingHours | src/organization/organization.service.ts:249-297 | refused if the start is not before the end or no day is selected, and then nothing changes |
| WorkingHours.HistoryKeepsWeekOk | src/organization/organization.service.ts:249-297 | after any run of edits an owner has no rows or one per weekday, closed exactly on the days that the last accepted edit did not select, each with its start before its end |
| WorkingHours.HistoryDeterminesRow | src/organization/organization.service.ts:274-296 | after any run of edits a row is open exactly if the last accepted edit selected its day, and has the times of the last accepted edit that did, or 09:00 to 18:00 |
| WorkingHours.ScheduleFollowsLastEdit | src/attendance/attendance.service.ts:853-861 | the export's schedule of a day follows the member's last edit if there ever was one, else the organization's: open exactly on the days it selects, with its times |
| WorkingHours.ScheduleFollowsHistory | src/attendance/attendance.service.ts:853-861 | with the times of the last edit that selected the day, also on a closed day |
| WorkingHours.AcceptableIff | src/organization/organization.service.ts:255-268 | an edit with HH:mm times is accepted exactly if its start is before its end in minutes and it selects a day |
| StaffAccounts.StaffService.AddStaffMember | src/staff/staff.service.ts:99-150 | refused for an address in use; otherwise a staff row and its linked, active credential, both with role Staff |
| StaffAccounts.StaffService.FindSuperAdmin | src/staff/staff.service.ts:681-687 | a SuperAdmin credential of the organization, or none exactly if there is none |
| StaffAccounts.StaffService.EditStaffMemberDetails | src/staff/staff.service.ts:607-780 | the working hours, the hand-over, the staff row and the credential change together, or nothing does |
| StaffAccounts.StaffService.DeleteStaffMember | src/staff/staff.service.ts:807-844 | the checks by the caller's role; the staff row goes with its credential and working hours |
| StaffRuns.RunKeepsInv | src/staff/staff.service.ts:120-147 | in every state of every run from an empty organization each member agrees with a credential of its own on organization, address and role, and each organization has at most one SuperAdmin |
| StaffRuns.RunKeepsWeeks | src/staff/staff.service.ts:637-675 | in every run with HH:mm times each member has no working hours or one row per weekday as the last accepted edit demands, deletions and other edits notwithstanding |
| StaffRuns.HandOverDemotes | src/staff/staff.service.ts:680-704 | the credential found belongs to the one SuperAdmin, whose staff row and credential both become Admin |
| StaffRuns.EditChangesOnly | src/staff/staff.service.ts:680-741 | an accepted edit gives its member the role and the address that it names, and changes nobody else, except that a former SuperAdmin becomes Admin when another member becomes SuperAdmin |
| StaffRuns.EditNeverLacksCredential | src/staff/staff.service.ts:749-766 | in a reachable state the step that creates a missing credential is never taken |
| StaffEffects.AddEffect | src/staff/staff.service.ts:99-150 | a member is added exactly under an address that no member and no account uses, as Staff with an active account |
| StaffEffects.EditVerdict | src/staff/staff.service.ts:607-741 | an edit of a reachable state succeeds exactly for a member of the organization, with hours that start before they end and have a day, and an address that nobody else uses; otherwise it has the error of the first check that fails and changes nothing |
| StaffEffects.EditChangesMember | src/staff/staff.service.ts:709-741 | after an accepted edit the member and the member's credential have the role and the address that it names, or the former ones, and the account status follows the change of role |
| StaffEffects.EditKeepsOthers | src/staff/staff.service.ts:680-704 | no other member changes, except that the former SuperAdmin of the organization becomes Admin |
| StaffEffects.EditKeepsOtherAccounts | src/staff/staff.service.ts:691-694 | no other account changes, except that of the former SuperAdmin |
| StaffEffects.EditChangesHours | src/staff/staff.service.ts:637-675 | working hours change only for the member and only if the edit names them: open with its times on its days, closed on the others |
| StaffEffects.OneSuperAdminAfterwards | src/staff/staff.service.ts:680-704 | a member made SuperAdmin is then the one SuperAdmin of the organization, in both tables |
| StaffEffects.DeleteEffect | src/staff/staff.service.ts:807-844 | Root deletes anybody, a SuperAdmin the organization's Admins and Staff, an Admin its Staff; exactly the member, the credential and the working hours go |
| StaffEffects.RunKeepsPrivilegedActive | src/staff/staff.service.ts:721-736 | in every state of every run the account of each SuperAdmin and Admin is active |
| SystemSessions.SystemService.CreateOrganization | src/organization/organization.service.ts:101-115 | the limit of a new organization |
| SystemSessions.SystemService.EditAccountLimit | src/organization/organization.service.ts:193-204 | a limit below the present number of accounts is refused; otherwise it is the new limit |
| SystemSessions.SystemService.RegisterSystemUser | src/system/system.service.ts:39-95 | refused without organization, at its account limit or for an address in use; otherwise a logged-out account |
| SystemSessions.SystemService.LoginSystemUser | src/system/system.service.ts:106-169 | refused without account, with a wrong password or while logged in; otherwise the account gets the new session and a refresh token |
| SystemSessions.SystemService.RefreshSystemAccessToken | src/system/system.service.ts:278-316 | an unexpired refresh token is replaced by a new one with a new expiry; the access token issued names no session |
| SystemSessions.SystemService.LogoutSystemAccount | src/system/system.service.ts:572-611 | a logged-in account of the organization loses its session and its refresh tokens |
| SystemSessions.SystemService.LogoutSystemAccountWeb | src/system/system.service.ts:644-673 | a logged-in account loses its session and keeps its refresh tokens |
| SystemSessions.SystemService.LogoutAllSystemAccounts | src/system/system.service.ts:706-741 | all logged-in accounts of the organization lose session and refresh tokens; refused if there are none |
| SystemSessions.SystemService.DeleteSystemAccount | src/system/system.service.ts:425-446 | the account goes with its refresh tokens |
| SystemSessions.SystemService.CanActivate | src/guard/auth.guard.ts:27-81 | accepts exactly the tokens that name a user or a kiosk account and, if a kiosk account, its live session; and what it writes on the request |
| SystemRuns.RunKeepsInv | src/system/system.service.ts:154-162 | in every state of every run a session id is stored exactly for logged-in accounts, addresses are unique, accounts belong to organizations and refresh tokens to accounts that exist |
| SystemRuns.StoredIffLive | src/system/system.service.ts:592-600 | the stored session is the one whose login in the history is not followed by a logout of any kind or a deletion |
| SystemRuns.AcceptedIffLive | src/guard/auth.guard.ts:36-58 | a kiosk token is accepted exactly while its login is not followed by a logout of any kind or a deletion |
| SystemRuns.OneLiveSession | src/system/system.service.ts:126-162 | at no time of a run is more than one session of an account open |
| SystemRuns.LogoutIsFinal | src/system/system.service.ts:659-667 | a login's token is never accepted again after a logout, even after later logins |
| SystemRuns.LoginTokenLives | src/system/system.service.ts:126-162 | until then the token is accepted, and every further login of the account is refused |
| SystemRuns.RefreshedTokenIsRefused | src/system/system.service.ts:295-299 | an access token issued by a refresh is accepted in no state |
| SystemRuns.TokensAfterEnd | src/system/system.service.ts:718-735 | refresh tokens outlive the end of a session exactly for a logout from the dashboard, or on an account that a logout of all found logged out |
| SystemRuns.AccountLimitHolds | src/system/system.service.ts:63-75 | in every run, with any edits of the limits, no organization has more accounts than its limit at that moment |
| SystemRuns.LimitAcceptedIff | src/organization/organization.service.ts:193-204 | a new limit is accepted exactly if the organization exists and the limit is kept with it |
| SystemEffects.LimitEffects | src/organization/organization.service.ts:193-204 | a limit is changed exactly for an existing organization with no more accounts than it |
| SystemEffects.RegisterEffect | src/system/system.service.ts:39-95 | an account is registered exactly below the limit and under an unused address, logged out and without session |
| SystemEffects.LoginEffect | src/system/system.service.ts:106-169 | a login is issued exactly if an account has the address, the password is right and the account is logged out; it stores the session and a refresh token for 30 days |
| SystemEffects.StoredIffOpen | src/system/system.service.ts:118-162 | at every step of a run a session is stored exactly if a login with the account's address and the right password opened it while the account was logged out, and nothing has ended it since |
| SystemEffects.AcceptedIffOpen | src/guard/auth.guard.ts:36-58 | a kiosk token is accepted exactly if it is the token of such a session |
| SystemEffects.AcceptsIff | src/guard/auth.guard.ts:27-81 | a token is accepted exactly if it is valid and names an account or a user, and a named account is logged in with the session of the token |
| SystemEffects.LogoutEffect | src/system/system.service.ts:572-611 | exactly a logged-in account of the organization is logged out, and exactly its refresh tokens go |
| SystemEffects.LogoutWebEffect | src/system/system.service.ts:644-673 | exactly a logged-in account is logged out, and all refresh tokens stay |
| SystemEffects.LogoutAllEffect | src/system/system.service.ts:706-741 | exactly the logged-in accounts of the organization are logged out and lose their refresh tokens; refused exactly if there are none |
| SystemEffects.DeleteEffect | src/system/system.service.ts:425-446 | exactly the account and its refresh tokens go |
| SystemEffects.RefreshEffect | src/system/system.service.ts:278-316 | a stored token is replaced exactly until its expiry, for the same account and 30 more days; no other token changes |
| SystemEffects.ExpiresAfterThirtyDays | src/system/system.service.ts:141-147 | in every run a stored refresh token expires 30 days after the login or refresh that issued it |
| SystemEffects.RefreshedIffInTime | src/system/system.service.ts:278-291 | a token is refreshed exactly while it is stored and up to 30 days after it was issued |
| TopTen.EnumerationIsRight | src/visit/visit.analytics.service.ts:81 | the dictionary enumerates keys that are array indices by value and then the others in the order of their first visits |
| TopTen.Rank | src/visit/visit.analytics.service.ts:71-83 | grouping, sorting and cutting give at most ten groups with exact counts and the label of the group's last visit, ordered by count and then by the enumeration of the dictionary, each beating every group left out |
| TopTen.GetTopEmployees | src/visit/visit.analytics.service.ts:58-84 | the ranking by staff member, without visits that have none |
| TopTen.GetTopVisitors | src/visit/visit.analytics.service.ts:86-115 | the ranking by lower-cased address, whatever function lower-cases |
| TopTen.GetTopDepartments | src/visit/visit.analytics.service.ts:117-140 | the ranking by department name, with a group for none |
| TopTen.GetTopReasons | src/visit/visit.analytics.service.ts:142-165 | the ranking by reason name, with a group for none |
| TopTen.TopTenIsUnique | src/visit/visit.analytics.service.ts:81-83 | the visits determine the ranking, labels and ties included |
| TopTen.RankingLength | src/visit/visit.analytics.service.ts:81-83 | the ranking has ten entries, or all groups if they are fewer |
| TopTen.RankingConserves | src/visit/visit.analytics.service.ts:71-83 | the counts add up to the visits of the listed groups, which are all counted visits exactly if there are at most ten groups |
| TopTen.RankingDescends | src/visit/visit.analytics.service.ts:81-83 | counts never increase down the list, and no group left out has more visits than one listed |
| TopTen.CountsIgnoreRowOrder | src/visit/visit.analytics.service.ts:66-83 | for every order in which the database returns the rows the counts of the ranking are the same |
| Rankings.EmployeeRanking | src/visit/visit.analytics.service.ts:71-83 | at most ten distinct staff ids with the exact number of visits to each, never increasing, none left out with more visits than one listed; each with the name on its last visit, or Unknown |
| Rankings.VisitorRanking | src/visit/visit.analytics.service.ts:100-114 | the same for lower-cased addresses, each with the name and the address of its last visit |
| Rankings.DepartmentRanking | src/visit/visit.analytics.service.ts:130-139 | the same for department names, visits without one counting as No Department |
| Rankings.ReasonRanking | src/visit/visit.analytics.service.ts:155-164 | the same for reasons, visits without one counting as No Reason |
| Rankings.NumbersComeFirst | src/visit/visit.analytics.service.ts:81 | among groups of equal counts the keys that are decimal numbers below 2^32 - 1 come first, by their value |

## Left out

- Controllers, request validation, configuration and start-up. Only the HH:mm format is a hypothesis (`WorkingHours.Validated`, `StaffRuns.ValidatedRequest`).
- Checks of role, badge, organization existence, plan features and time zone validity that open most requests. The guards that compare rows with the organization are modelled where the code has them.
- Mail, file storage, QR codes, sockets, and the cell layout of the Excel export.
- bcrypt, JWT signing and UUID generation: passwords are a flag that the comparison returned, tokens are their payloads, identifiers are fresh values.
- Luxon and the time zone database: a calendar is any strictly increasing sequence of midnights, and the ISO date is any one-to-one text without a colon.
- Export.DayList: zones in which midnight occurs twice on one date are not covered; Luxon gives such a date two beginnings, which `OrgDays` sees as two days and the loop as one.
- Deleting an organization with everything that belongs to it.
- The internals of Prisma and Postgres. Outside `DecisionRace`, `OverlapRuns` and `OverlapReminders` every request runs as one step.
- Fields that no modelled decision reads: remarks, reasons of late punch-outs, receipt times of events, correction flags, visitor phone numbers and purposes, team names, staff names and departments, secret codes.
- `addStaffBulk`, the generation of employee codes and password resets.
- An edit of a staff member that sets `accountStatus`: the code hands the field on to the staff table (`src/staff/staff.service.ts:709-712`), which has no such column (`prisma/schema.prisma:60-88`), so that request fails.
- Deleting a staff member inside runs of visits and attendance: the cascade is modelled as a step of team runs, and for the other two as a step that keeps their invariants (`AttendanceRuns.DeletingStaffKeepsTidy`, `VisitRuns.DeletingStaffKeepsInv`).
- VisitEffects.NormalizeMeans: `toLowerCase` is modelled for ASCII letters only.
- Visits.NormalizeIsIdempotent: `toLowerCase` is modelled for ASCII letters only; white space is that of ECMAScript.
- TopTen.GetTopDepartments: a department whose name is a property that every JavaScript object inherits, such as `constructor`, is not counted right by the code and is modelled as any other name.
- TopTen.GetTopReasons: the same holds for reasons of such names.
- The period filter of the visits that the rankings count.
- Arrival and departure texts, late arrival and early leaving in the export.
- Departments, reasons, plans, and the endpoints that only read.
- The organization's own row in an edit: `EditWorkingHours` models the working hours only.
