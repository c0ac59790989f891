# owsub verification model

A Dafny model of the subscriber self-care portal (OWSUB) and proofs about the parts of it that
keep state, convert time or talk to other services in several steps. `dafny verify dfyconfig.toml`
checks everything.

| module | models |
|---|---|
| `Text`, `Arithmetic`, `Calendar`, `Json` | byte-wise string order, sorted keys, padded decimals, splitting; unique division; the Gregorian calendar behind `%Y-%m-%d %H:%M:%S`; JSON values |
| `FirewallRules` | whether one firewall rule blocks at an instant, and until when |
| `Schedules`, `ScheduleConversion` | HH:MM parsing, weekday shifting, local to UTC and back |
| `RuleTable`, `RuleHistory`, `WrittenRules`, `BlockedClients` | the fold of `config-raw` commands into rules, the same rules from the commands as they are written, and the blocked-client map |
| `ScheduleUpdate` | the schedule PUT pipeline |
| `Registry` | the map of peer services fed by bus messages |
| `TrafficStats` | the per-device traffic window |
| `RateLimiter` | the fixed-window rate limiter |
| `ConfigMaker`, `Onboarding` | configuration validation and rewriting, adding and removing devices |
| `LocationSaga` | creating and deleting a subscriber location |
| `Cidr` | IPv4 and IPv6 prefix matching |
| `Router` | URL routing |

Main results, in the order a schedule travels:

1. A rule decides exactly the instants it describes, although the code compares strings
   (`EvaluateDecidesBlocks`); its reported stop is the exact end of activity (`StopIsExact`).
2. Converting a local schedule to UTC keeps its set of instants, for every offset
   (`ConvertPreservesMeaning`); showing a stored schedule in local time keeps it exactly when the stored
   ends differ (`NormalizePreservesMeaning`); the two together give back what was sent (`RoundTrip`).
3. The rule table holds the last value set per parameter and nothing about the order of commands across
   sections (`LastSetWins`, `InterleavingIsIrrelevant`); spelled out, each field of a rule is the last value
   written under its own key (`ScheduleAsWritten`, `ClientAccessAsWritten`).
4. Put together: the update a PUT sends means the request (`UpdateMeansRequest`), and a client listed by a
   requested schedule is reported blocked exactly while the subscriber's
   clock is inside a requested window (`RequestedWindowsAreEnforced`), and a reported stop is kept: until it
   the client stays reported (`BlockLasts`).

Conventions: instants are microseconds (rule evaluation) or seconds (conversion) since the epoch; a zone is
a whole-minute offset that does not change over the days involved; clock readings, remote answers and the
zone table are parameters. Remote calls either take effect or fail without effect, and lookups that answer,
answer truthfully. A precondition on the clock (`ClockInRange`) only says that it is past 1970 and that
tomorrow still has a four-digit year. C++ unsigned arithmetic and the truncating `%` are written out.

Where a promised property does not hold for all inputs the exact condition is proved:
`NormalizePreservesMeaning` (equal stored ends), `WeekdaysRoundTrip` (list order after a real shift),
`BackwardClockDropsPeer` with `RegistryIsHistory` (a clock that goes back), `NoPeriodNoLimit` with
`RateBound` (a period that is not positive), `DeleteIsSafeIff` and `RunIsSafeIff` with
`SharedLocationDangles` (a location shared by two venues), and "an error answer leaves the gateway alone": in
`DoPut` the answer is an error and the gateway was written if and only if `FailsAfterChange` holds, which is
when the update succeeded, the gateway took its snapshot, and the returned schedule cannot be shown in local
time; `ErrorAfterChange` serves such a request. Comments in the source call a schedule "overnight" when its
stop is earlier than its start; the code also treats an equal stop as next-day in conversion and as never
active in evaluation, and the model follows the code.

## Model

| member | source | states |
|---|---|---|
| Text.TrimParts | src/RESTAPI/RESTAPI_parental_control_utils.cpp:345 | trimming takes blanks from both ends and nothing else |
| Text.LettersFold | src/framework/utils.cpp:36 | letters change case, nothing else does |
| Text.SplitItems | src/framework/RESTAPI_Handler.h:133 | no item of a split path contains the separator (and joining them gives the path) |
| Text.DecimalReadsBack | src/RESTAPI/RESTAPI_subscriber_devices_handler.cpp:109 | the number in a device name reads back, without leading zeros |
| Calendar.DateOfDayOf | src/RESTAPI/RESTAPI_parental_control_utils.cpp:956-957 | formatting a day and reading a date are inverse bijections on years 0000 to 9999 |
| Calendar.DaysFollowCalendar | src/RESTAPI/RESTAPI_parental_control_utils.cpp:910-915 | day numbers count 1970-01-01, a Thursday, as 0, and each valid date is followed by the next date of the civil calendar, across month, leap-day and year ends given as literals |
| Calendar.NextDayIsTomorrow | src/RESTAPI/RESTAPI_parental_control_utils.cpp:956-957 | the date printed for the next day is that next date |
| Calendar.TextsSpelledOut | src/RESTAPI/RESTAPI_parental_control_utils.cpp:1040-1041 | the date and time texts digit by digit, YYYY-MM-DD and HH:MM:SS |
| Calendar.DayTimeOrder | src/RESTAPI/RESTAPI_parental_control_utils.cpp:993-1010 | comparing "date time" strings byte by byte compares the instants |
| Calendar.ParseDateCanonical | src/RESTAPI/RESTAPI_parental_control_utils.cpp:910-915 | an accepted date string is the one spelling of its date |
| Calendar.ParseTimeCanonical | src/RESTAPI/RESTAPI_parental_control_utils.cpp:917-922 | an accepted time string is the one spelling of its second of day |
| Calendar.ParseDayTime | src/RESTAPI/RESTAPI_parental_control_utils.cpp:967-976 | a stop string built from a date and a time parses to exactly that instant |
| FirewallRules.RecurringIsSpec | src/RESTAPI/RESTAPI_parental_control_utils.cpp:936-977 | the string branches of a recurring rule equal an integer rule on weekday and second of day, the stop strings included |
| FirewallRules.BoundedIsSpec | src/RESTAPI/RESTAPI_parental_control_utils.cpp:989-1022 | a date-bounded rule is active exactly from its start to its stop, the stop on the start date for a window within one day |
| FirewallRules.EvaluateDecidesBlocks | src/RESTAPI/RESTAPI_parental_control_utils.cpp:927-1023 | a rule is active at an instant if and only if the instant lies in one of its windows (overnight wrap and weekday roll-over included), in its bounds, or the rule is permanent |
| FirewallRules.StopIsExact | src/RESTAPI/RESTAPI_parental_control_utils.cpp:927-1023 | a finite stop is after now; the rule stays active with that same stop until it and is inactive at it |
| FirewallRules.PermanentIsForever | src/RESTAPI/RESTAPI_parental_control_utils.cpp:980-987 | the answer is permanent exactly for unbounded client-access rules, then holds at every instant, and no finite stop can be confused with it |
| Schedules.TimeStringRoundTrip | src/RESTAPI/RESTAPI_parental_control_utils.cpp:277-299 | HH:MM texts and minutes of the day are in bijection |
| Schedules.TimeStringSpelledOut | src/RESTAPI/RESTAPI_parental_control_utils.cpp:99-108 | the text of a minute of the day is its hour and its minute, two digits each |
| Schedules.ShiftDayIsModular | src/RESTAPI/RESTAPI_parental_control_utils.cpp:119 | the doubled truncating remainder is addition modulo 7 for every sign |
| Schedules.ShiftWeekdays | src/RESTAPI/RESTAPI_parental_control_utils.cpp:112-127 | empty lists and zero shifts are untouched; otherwise the shifted days, once each, ascending; an element that is no integer throws |
| Schedules.ValidateWeekdays | src/RESTAPI/RESTAPI_parental_control_utils.cpp:302-319 | accepts exactly non-empty lists of distinct values in 0..6 |
| Schedules.RebasePreservesMeaning | src/RESTAPI/RESTAPI_parental_control_utils.cpp:578-607 | moving both ends to another clock and the weekdays by the start's day shift keeps the set of instants |
| ScheduleConversion.ConvertScheduleTimesToUtc | src/RESTAPI/RESTAPI_parental_control_utils.cpp:559-625 | the request ends with the UTC minutes and shifted weekdays whatever day it runs on; an unknown zone changes nothing |
| ScheduleConversion.CorrectionLandsToday | src/RESTAPI/RESTAPI_parental_control_utils.cpp:222-231 | one correction step always puts the start on today's local day |
| ScheduleConversion.LocalTimesAreRebase | src/RESTAPI/RESTAPI_parental_control_utils.cpp:233-247 | the day arithmetic gives the same local times and day shift on every day |
| ScheduleConversion.NormalizeScheduleResponse | src/RESTAPI/RESTAPI_parental_control_utils.cpp:204-274 | succeeds exactly when zone, minutes and weekdays are usable, rewrites the object to local texts without the internal fields, and leaves it alone on failure |
| ScheduleConversion.StoredScheduleMeaning | src/RESTAPI/RESTAPI_parental_control_utils.cpp:936-977 | a stored schedule blocks exactly its UTC windows, and never when its ends are equal |
| ScheduleConversion.ConvertPreservesMeaning | src/RESTAPI/RESTAPI_parental_control_utils.cpp:559-607 | for every valid local schedule, offset and instant: the rule of the converted schedule is active iff local time is in a requested window |
| ScheduleConversion.NormalizePreservesMeaning | src/RESTAPI/RESTAPI_parental_control_utils.cpp:204-266 | the displayed schedule denotes the stored instants at all times if and only if the stored ends differ |
| ScheduleConversion.WeekdaysRoundTrip | src/RESTAPI/RESTAPI_parental_control_utils.cpp:112-127 | shifting there and back keeps the set of days, and the list iff nothing shifted or it was sorted |
| ScheduleConversion.RoundTrip | src/RESTAPI/RESTAPI_parental_control_utils.cpp:204-266 | convert, store, normalise returns the original texts and weekday set, without the minutes and config-raw, and every other member as it was |
| RuleTable.SectionKind | src/RESTAPI/RESTAPI_parental_control_utils.cpp:1055-1080 | the section of a key has the key's kind |
| RuleTable.ParseWeekdays | src/RESTAPI/RESTAPI_parental_control_utils.cpp:1108-1144 | the set of named days, or nothing when a word is unknown or none is given |
| RuleTable.ApplyCommand | src/RESTAPI/RESTAPI_parental_control_utils.cpp:1055-1151 | one command of the loop, default-inserting accesses and all, is one step of the fold |
| RuleTable.BuildRules | src/RESTAPI/RESTAPI_parental_control_utils.cpp:1044-1155 | the loop computes the fold over the readable commands |
| RuleTable.FoldIsPointwise | src/RESTAPI/RESTAPI_parental_control_utils.cpp:1044-1155 | an entry depends only on the commands of its own section |
| RuleTable.InterleavingIsIrrelevant | src/RESTAPI/RESTAPI_parental_control_utils.cpp:1044-1155 | command lists with the same commands per section build the same table |
| RuleTable.SwapIsIrrelevant | src/RESTAPI/RESTAPI_parental_control_utils.cpp:1044-1155 | adjacent commands of different sections commute anywhere in a list |
| RuleHistory.LastSetWins | src/RESTAPI/RESTAPI_parental_control_utils.cpp:1083-1151 | every entry is the rule described by the last value set per parameter, whether the section was declared, and the MACs added in order |
| RuleHistory.ReachableTablesAreWellShaped | src/RESTAPI/RESTAPI_parental_control_utils.cpp:1044-1155 | in every reachable table presence flags mean parsed values, weekdays occur only in schedule sections (non-empty, 0..6), boundaries only in client-access sections, never both |
| WrittenRules.EntriesReadBack | src/RESTAPI/RESTAPI_parental_control_utils.cpp:1048-1053 | commands written as three strings are read as they were written |
| WrittenRules.DaysReadBack | src/RESTAPI/RESTAPI_parental_control_utils.cpp:1108-1144 | any days, written by their English names in any order, quoted or not, are the days stored |
| WrittenRules.MacNotation | src/framework/utils.cpp:27-38 | colons and dashes do not matter wherever they stand; twelve hex digits are kept in lower case, anything else is refused |
| WrittenRules.ScheduleAsWritten | src/RESTAPI/RESTAPI_parental_control_utils.cpp:1055-1151 | every field of a schedule section's rule is the last value written under its own key, the declaration and MACs included, and nothing else is set |
| WrittenRules.ClientAccessAsWritten | src/RESTAPI/RESTAPI_parental_control_utils.cpp:1055-1151 | the same for a client-access section, with its dates and boundary and without weekdays |
| BlockedClients.AddRule | src/RESTAPI/RESTAPI_parental_control_utils.cpp:1161-1168 | each listed MAC, repeated or not, takes the stronger of its old and the new stop; others keep theirs |
| BlockedClients.JoinRules | src/RESTAPI/RESTAPI_parental_control_utils.cpp:1157-1170 | the map is the join of all active rules, whatever order they are visited in |
| BlockedClients.JoinIsUnique | src/RESTAPI/RESTAPI_parental_control_utils.cpp:1157-1170 | there is only one such join |
| BlockedClients.GetBlockedClients | src/RESTAPI/RESTAPI_parental_control_utils.cpp:1026-1170 | fails only without a configuration; the map is the join over the folded commands, empty without config-raw |
| BlockedClients.BlockedMeansSomeRuleBlocks | src/RESTAPI/RESTAPI_parental_control_utils.cpp:1044-1170 | for any reachable table: a MAC is reported iff a rule that lists it blocks now, permanently iff one of those is unbounded, and finite stops lie ahead |
| BlockedClients.BlockLasts | src/RESTAPI/RESTAPI_parental_control_utils.cpp:1157-1170 | at every later instant before the reported stop, and always after a permanent one, the MAC is still reported with a stop that is no weaker |
| BlockedClients.RequestedWindowsAreEnforced | src/RESTAPI/RESTAPI_parental_control_utils.cpp:559-1170 | from request to report, on the written commands: a client added in any notation to a section that carries the converted schedule, among any other commands, is reported blocked inside the requested local windows, and only then if nothing else lists it |
| ScheduleUpdate.ParseAndValidateScheduleRequest | src/RESTAPI/RESTAPI_parental_control_utils.cpp:323-468 | accepts exactly the request schema, fills every field from it, and answers 400 once otherwise |
| ScheduleUpdate.ResolveSubscriberTimezone | src/RESTAPI/RESTAPI_parental_control_utils.cpp:500-555 | yields a zone exactly when both lookups answer with a known one; otherwise answers once: a failed lookup is forwarded (500 if it claims success), a missing venue, location or zone is 400, an unknown zone 500 |
| ScheduleUpdate.ExtractConfigRawSnapshot | src/RESTAPI/RESTAPI_parental_control_utils.cpp:631-670 | tells missing, null, malformed and well-formed snapshots apart; well-formed means lists of two or three strings |
| ScheduleUpdate.GatewaySerial | src/RESTAPI/RESTAPI_parental_control_utils.cpp:700-707 | the serial of the first device of group "olg" in any case, empty without one |
| ScheduleUpdate.ApplyConfigRaw | src/RESTAPI/RESTAPI_parental_control_utils.cpp:672-752 | applied if and only if there is a snapshot, an operator, and a gateway that can be found, read and written; then that gateway alone receives its own fetched configuration, every member but config-raw as it was, and otherwise nothing is sent |
| ScheduleUpdate.HandleApplyConfigRawResult | src/RESTAPI/RESTAPI_parental_control_utils.cpp:768-788 | continues for nothing-to-do and applied, answers 403 for a missing operator and 500 for every other failure |
| ScheduleUpdate.ApplyConfigRawFromMutationResponse | src/RESTAPI/RESTAPI_parental_control_utils.cpp:803-828 | continues if and only if there is nothing to apply or it was applied; what reached which gateway; the status of the one answer otherwise |
| ScheduleUpdate.HandleMutationResult | src/RESTAPI/RESTAPI_parental_control_utils.cpp:836-881 | one answer; the schedule is returned if and only if the update succeeded, nothing is left to apply and it can be shown in local time; an error after a gateway change if and only if it was applied and cannot be shown |
| ScheduleUpdate.DoPut | src/RESTAPI/RESTAPI_schedules_handler.cpp:47-91 | exactly one answer on every path, with its status; the update is sent iff all checks pass, for this subscriber and schedule, and carries the request in UTC; the exact conditions for a success answer, for a gateway change and for an error after one; a changed gateway got its own configuration with the returned config-raw; a returned schedule has none |
| ScheduleUpdate.UpdateMeansRequest | src/RESTAPI/RESTAPI_parental_control_utils.cpp:471-607 | the minutes and weekdays in the update, as a rule, block at an instant iff the subscriber's clock is then inside a window of the request |
| ScheduleUpdate.ErrorAfterChange | src/RESTAPI/RESTAPI_parental_control_utils.cpp:855-880 | a request that is answered 500 although its gateway was written |
| Registry.MicroService.BusMessageReceived | src/framework/MicroService.cpp:49-187 | the registry after a message: store or erase, then purge, and no change for an unreadable message; a fresh announcement is stored field by field |
| Registry.MicroService.PurgeZombies | src/framework/MicroService.cpp:168-178 | exactly the entries whose unsigned age exceeds 120 s go |
| Registry.MicroService.GetServices | src/framework/MicroService.cpp:189-199 | exactly the entries of the type, in end-point order, none twice |
| Registry.RegistryIsHistory | src/framework/MicroService.cpp:63-178 | for any clock: an end point is registered iff its last valid message announced it and every purge since found it at most 120 s old; the entry repeats that message field by field |
| Registry.FoundUnderAnySpelling | src/framework/MicroService.cpp:83-199 | a held peer matches a request for its type in any spelling and shows what it announced |
| Registry.EventsByName | src/framework/MicroService.cpp:63-105 | another instance's join or keep-alive registers its fields, its leave removes it, one's own or other events do nothing |
| Registry.RegistryIsRecentHistory | src/framework/MicroService.cpp:63-178 | with a forward clock: iff its last valid message was a join or keep-alive at most 120 s before the last readable message |
| Registry.KeepAliveSuffices | src/framework/MicroService.cpp:83-178 | a peer that re-announces itself within 120 s of every purge is never dropped before it leaves |
| Registry.BackwardClockDropsPeer | src/framework/MicroService.cpp:173 | one second of backward clock drops a fresh peer, because the age wraps |
| Registry.EntriesAreKeyed | src/framework/MicroService.cpp:105 | every entry sits under its own end point |
| TrafficStats.ShiftDown | src/StatsSvr.h:57-66 | slots 0..18 take the next slot's value; nothing is promised of slot 19 |
| TrafficStats.DeviceStats.AddValue | src/StatsSvr.h:35-68 | the five columns keep showing the window of the grown history, whatever the shift left in slot 19 |
| TrafficStats.DeviceStats.Get | src/StatsSvr.h:78-84 | appends exactly the last min(n-1, 19) samples in order: each row is its sample's time stamp and the sent and received movement of its own side against the sample before |
| TrafficStats.WindowGrows | src/StatsSvr.h:46-66 | one more sample appends a row and drops the oldest once nineteen are visible |
| TrafficStats.DeltaIsFaithful | src/StatsSvr.h:47-54 | a stored delta is the counter movement modulo 2^32, exactly so unless the truncated counter fell, then off by 2^64 |
| TrafficStats.WindowConserves | src/StatsSvr.h:46-54 | the visible deltas of each counter sum modulo 2^64 to its movement over the visible span |
| TrafficStats.ReadCounters | src/StatsSvr.cpp:55-87 | each side's counters are those of the last interface on that side that reports any |
| TrafficStats.Sides | src/StatsSvr.cpp:57-69 | a location of three parts is external iff the last is "0"; every other location, or none, is external |
| TrafficStats.SampleOfBothSides | src/StatsSvr.cpp:71-94 | sent and received bytes of the last external and the last internal interface, cut to 32 bits, each in its place |
| TrafficStats.StatsServer.Receive | src/StatsSvr.cpp:88-113 | a sample is added to its own device's history, which sets its update time unless it is the first, and no other device changes |
| TrafficStats.StatsServer.Get | src/StatsSvr.h:104-111 | shows the window of the device's history and its update time, nothing for an unknown device |
| RateLimiter.Limiter.IsRateLimited | src/framework/RESTAPI_RateLimiter.h:32-58 | the entry of this key and the verdict after a call; other keys are untouched |
| RateLimiter.WindowAdmitsQuota | src/framework/RESTAPI_RateLimiter.h:44-53 | a window admits exactly its first max(1, MaxCalls) calls |
| RateLimiter.RateBound | src/framework/RESTAPI_RateLimiter.h:40-57 | in any run with a forward clock, any stretch no longer than Period admits at most twice max(1, MaxCalls), one less if shorter, plus one quota per eviction in it |
| RateLimiter.RateBoundIsTight | src/framework/RESTAPI_RateLimiter.h:40-57 | some stretch of exactly Period reaches twice the quota |
| RateLimiter.NoPeriodNoLimit | src/framework/RESTAPI_RateLimiter.h:44 | a period that is not positive admits everything |
| ConfigMaker.ValidateConfig | src/ConfigMaker.cpp:118-310 | accepts exactly the configurations meeting the quantified conditions on roles, addressing, tunnel and SSIDs |
| ConfigMaker.BuildGatewayConfig | src/ConfigMaker.cpp:384-442 | succeeds iff the source is valid, edits it in place and stores its sections; otherwise changes nothing |
| ConfigMaker.RewriteSetsCredentials | src/ConfigMaker.cpp:426-434 | every ap with an encryption object is named "OpenWifi-" and the MAC from its ninth character; every such ap and mesh has the upper-case MAC as its key |
| ConfigMaker.RewriteKeepsValid | src/ConfigMaker.cpp:404-435 | an accepted configuration stays accepted |
| ConfigMaker.RewriteTwice | src/ConfigMaker.cpp:404-435 | a second rewrite leaves no trace of the first, so repeating one changes nothing |
| ConfigMaker.RewriteIsLocal | src/ConfigMaker.cpp:404-435 | only ap names and ap/mesh keys inside an encryption object can differ |
| ConfigMaker.BuildMeshConfig | src/ConfigMaker.cpp:312-359 | the mesh configuration, or failure when an interface cannot be indexed |
| ConfigMaker.MeshIsLocal | src/ConfigMaker.cpp:332-349 | from an accepted configuration only each ipv4 and config-raw change |
| ConfigMaker.MeshIsRejected | src/ConfigMaker.cpp:332-349 | no mesh configuration passes the validator |
| ConfigMaker.MeshTwice | src/ConfigMaker.cpp:332-349 | building a mesh configuration from one gives it back |
| ConfigMaker.AppendWeightedSections | src/ConfigMaker.cpp:361-382 | one element of weight 1 per object or array member, in name order, whatever was in the list before |
| ConfigMaker.SectionListIsUnique | src/ConfigMaker.cpp:368-380 | a retry gives the same list |
| ConfigMaker.SectionsRestore | src/ConfigMaker.cpp:87-115 | recombining the sections gives the configuration without its scalar members |
| Onboarding.IsDeviceAlreadyProvisioned | src/RESTAPI/RESTAPI_subscriber_devices_handler.cpp:60-93 | refuses exactly when some subscriber has the serial or the lookup failed |
| Onboarding.InitializeSubscriberDevice | src/RESTAPI/RESTAPI_subscriber_devices_handler.cpp:107-114 | gateway for the first device, access point after; numbered name |
| Onboarding.PrepareGatewayConfiguration | src/RESTAPI/RESTAPI_subscriber_devices_handler.cpp:116-135 | succeeds if and only if the device's own configuration is fetched and accepted, and then holds its rewritten sections |
| Onboarding.PrepareMeshConfiguration | src/RESTAPI/RESTAPI_subscriber_devices_handler.cpp:137-187 | succeeds if and only if the first gateway has a serial and its own fetched configuration is accepted, and then holds the mesh sections of that configuration |
| Onboarding.DoPost | src/RESTAPI/RESTAPI_subscriber_devices_handler.cpp:205-236 | the exact condition under which the store gains one configured device with a new serial, a gateway iff it is the first, an access point only beside a gateway; Ok exactly when it was also confirmed; otherwise no change |
| Onboarding.DoDelete | src/RESTAPI/RESTAPI_subscriber_devices_handler.cpp:238-256 | Ok exactly for a known user, a readable MAC and a working remote call; then the serial's records go, otherwise nothing changes |
| Onboarding.WithoutMember | src/RESTAPI/RESTAPI_subscriber_devices_handler.cpp:251-253 | a delete removes exactly the records of its serial |
| Onboarding.RunsAreSound | src/RESTAPI/RESTAPI_subscriber_devices_handler.cpp:60-256 | over every run serials stay unique, no subscriber has two gateways, and a non-gateway only appears while its subscriber has a gateway |
| LocationSaga.Provisioning.DoPost | src/RESTAPI/RESTAPI_subscriber_location_handler.cpp:82-146 | Ok exactly when user, body, venue lookup and creation are fine and the venue has no location; then it is linked to the new one, otherwise nothing changes |
| LocationSaga.Provisioning.DoDelete | src/RESTAPI/RESTAPI_subscriber_location_handler.cpp:214-268 | from any state: the final state for each combination of failures; a failed delete whose restore works leaves the state as it was; links are broken if and only if the delete finished and another venue shares the location |
| LocationSaga.RunsNeverDangle | src/RESTAPI/RESTAPI_subscriber_location_handler.cpp:128-267 | after every single remote effect of any run no venue refers to a missing location |
| LocationSaga.DeleteIsSafeIff | src/RESTAPI/RESTAPI_subscriber_location_handler.cpp:244-267 | the state a finished delete leaves has no dangling link iff no other venue uses the location |
| LocationSaga.SharedLocationDangles | src/RESTAPI/RESTAPI_subscriber_location_handler.cpp:244-267 | two venues with one location: deleting it for either leaves the other dangling |
| LocationSaga.RunIsSafeIff | src/RESTAPI/RESTAPI_subscriber_location_handler.cpp:128-267 | for any run, shared locations or not: no link ever dangles iff no step deletes a location that is still linked |
| Cidr.CidrMatchIsPrefix | src/framework/CIDR.h:16-21 | for 0..32 bits: the addresses agree as numbers divided by 2^(32-bits) |
| Cidr.Cidr6MatchIsPrefix | src/framework/CIDR.h:23-46 | for 0..128 bits: the addresses agree as 128-bit numbers divided by 2^(128-bits) |
| Cidr.DottedQuad | src/framework/CIDR.h:16-21 | the number of a stored word is that of its octets in the order they are sent |
| Cidr.FourWords | src/framework/CIDR.h:23-46 | the number of an IPv6 address is that of its four words in the order they are sent |
| Cidr.CidrLaws | src/framework/CIDR.h:16-21 | matching at a length is an equivalence, and implies every shorter match |
| Cidr.Cidr6Laws | src/framework/CIDR.h:23-46 | the same for IPv6 |
| Router.ParseBindings | src/framework/RESTAPI_Handler.h:129-156 | the loops compute the first matching end point and its bindings, leftovers of partial matches included |
| Router.SubstituteRestores | src/framework/RESTAPI_Handler.h:141-151 | putting the bindings of a match back into the pattern gives the requested items |
| Router.RouteIsDecision | src/framework/RESTAPI_Handler.h:876-893 | routing through any handler list is an order-free decision on the path, with that handler's own bindings |
| Router.AtMostOneHandler | src/RESTAPI/RESTAPI_routers.cpp:38-52 | no path is matched by two handlers |
| Router.OrderIsIrrelevant | src/RESTAPI/RESTAPI_routers.cpp:38-52 | reordering the list changes no outcome |
| Router.ExternalRouterIsDecision | src/RESTAPI/RESTAPI_routers.cpp:38-52 | the external list routes every path to the decided handler |
| Router.RoutedPathIsRestored | src/framework/RESTAPI_Handler.h:129-156 | the bindings of a routed request, put into an end point of its handler, spell the request |
| Router.RoutedNames | src/framework/RESTAPI_Handler.h:129-156 | every handler finds the items of the request under the literal names of its end point, such as mac, group_id and schedule_id |

## Left out

- Zone database lookups and daylight-saving changes: a zone is one fixed whole-minute offset.
- Calendar.ParseDateCanonical: only strict fixed-width dates are valid here; the library's date parser also accepts other ten-character spellings.
- Calendar.ParseTimeCanonical: only strict fixed-width times are valid here; the library's parser also accepts other eight-character spellings.
- Schedules.ShiftWeekdays: a weekday given as a string counts as unreadable, because the library's number grammar is not part of this model; numbers and booleans convert as in the source.
- Schedules.ValidateWeekdays: a weekday given as a string is refused, for the same reason.
- RuleTable.BuildRules: a command element that is itself an array or object is skipped; the library would turn it into its JSON text.
- The text of `blocked_until` in the topology answer: it formats the stop second that is modelled.
- The service that turns a stored schedule into firewall commands: any section carrying the UTC times and day names is covered.
- ScheduleUpdate.HandleMutationResult: models the schedule PUT variant; the plain, stripped and empty success answers of the same helper would only add easy cases.
- Rewriting of forwarded error bodies and all response texts: only the status is kept.
- JSON text: stringify and parse are taken to be inverse, and objects are maps without member order.
- RateLimiter.Limiter.IsRateLimited: the 32-bit call counter is unbounded here, so more than 2^31 calls in one window are not covered; two keys with the same hash share an entry, as in the code.
- Cidr.CidrMatchIsPrefix: lengths above 32 (and above 128 for IPv6) shift by more than a word and have no defined result in the source.
- Requests running at the same time, and the order of effects between threads.
- The internal router, which is the same list without the web socket handler in another order, and so covered by `OrderIsIrrelevant`.
- The operator filter of the device listing: a subscriber is taken to belong to one operator.
- Updating a location, listing handlers, topology, authentication, token caches, proxies, Kafka, storage and certificates.
