# Universal Wellpad Controller: verified models

Dafny models of the parts of the Universal Wellpad Controller that carry its protocols, with proofs of
what they promise. Code that changes state in place is modelled by classes whose methods are proved
against functions; what the code is for is then proved about those functions, over all inputs and runs.

| files | part of the system |
|---|---|
| `PollingCalendar`, `PollingTimer`, `Arithmetic` | The timer of modbus-master: a wrapping millisecond counter and a map of slots that stand for an absolute polling schedule |
| `PollProtocol`, `RequestInitiator` | The life of a polled request: poll, stack reply, retries, publication, cutoff, over all interleavings of handlers and points |
| `PollingRuns` | Timer and requests together: runs whose polls and cutoffs come in calendar order |
| `MetricTree` | Sparkplug metrics and UDTs of sparkplug-bridge: diff, patch and the template check |
| `SparkplugSession`, `SparkplugBridge` | Device sessions towards SCADA (Eclipse Sparkplug Specification 3.0.0, chapter 5): DBIRTH, DDATA and DDEATH, the two status variables, and the host's view |
| `SessionMessages` | What SCADA gets to see of each message and connection event, and that the host follows |
| `PayloadSequence` | Sequence numbers of published messages (the same specification, section 6.4) |
| `RegisterCodec`, `ScaledValue` | Register values on their way to a Modbus device and back: hex strings, swaps, buffer, scaling with saturation |
| `ControlLoop` | Request tracking of the KPI app across its monitoring, write and response threads |
| `SemaphoreQueue` | The message queues that all the applications share, and the permits that guard them |
| `Wrappers` | A value that may be absent |

`dafny verify dfyconfig.toml` checks everything.

## How to read the models

*Polling.* The absolute schedule says that a record is polled at every positive multiple of its interval and
that its cutoff is due one cutoff after each poll. The code stores wrapped slots only. `Pending` is the
abstraction relation between the two, and `TimerThread` keeps it for any number of ticks. The cutoff part of the
schedule is met exactly for cutoffs above 0 and below the longest interval; the lemmas on lost and early
cutoffs give the times at which it is missed otherwise.

*Requests.* A state holds all points, the transaction map, what is in the stack and what is queued. A step is one
handler body. `Inv` holds in every run, and the counting lemmas follow a poll cycle or a request through any run.

*Sessions.* A step processes one message and publishes its action vector. A device's trace is what was published
for it since the last NBIRTH; `HostSees` replays the trace as a host would. A death that is processed while the
node is not initialised changes the known status although its DDEATH is dropped. `HarmlessExactly` shows that this
is the only way out of a healthy session, `HealthyExactly` which runs stay healthy, and the lemmas on late deaths what SCADA then sees.

The session laws say what must never go out; `SessionMessages` says what does go out, what it carries and what is
stored, for each message and connection event.

*Values.* The path of a written value is followed to the buffer and back through the reader, for all swap flags,
lengths, integer types and scale factors of either sign.

*Tracking and queues.* Steps are single accesses to a shared map or queue, so the theorems hold for every
interleaving of any number of threads.

## Model

| member | source | states |
|---|---|---|
| `PollingTimer.Gcd` | modbus-master/Modbus-App/src/PeriodicRead.cpp:2301-2310 | Euclid's loop: the result's divisors are exactly the common divisors of the two numbers |
| `PollingTimer.TimeMapper.MinTimerFrequency` | modbus-master/Modbus-App/src/PeriodicRead.cpp:2338-2382 | The tick is the gcd of all intervals and cutoffs, early exit at 1 included |
| `PollingTimer.CounterStep` | modbus-master/Modbus-App/src/PeriodicRead.cpp:2613-2622 | The tick divides the limit, so the counter lands on the limit and the equality test always resets it |
| `PollingTimer.SortByInterval` | modbus-master/Modbus-App/src/PeriodicRead.cpp:2479-2510 | Booking sorts a slot: ascending by interval and a permutation of what was there |
| `PollingTimer.TimeMapper.AddToPollingTracker` | modbus-master/Modbus-App/src/PeriodicRead.cpp:2491-2518 | One booking adds one entry to one slot and nothing else; every slot list stays sorted |
| `PollingTimer.TimeMapper.GetPollingTrackerList` | modbus-master/Modbus-App/src/PeriodicRead.cpp:2526-2543 | Hands a slot's list out and leaves the slot empty; a slot never booked reports false |
| `PollingTimer.TimeMapper.BookPolled` | modbus-master/Modbus-App/src/PeriodicRead.cpp:2107-2130 | Every poll of a visit books exactly one poll and one cutoff of its record, at the wrapped slots, however often a record was polled |
| `PollingTimer.TimeMapper.CheckTimer` | modbus-master/Modbus-App/src/PeriodicRead.cpp:2079-2144 | A visit triggers exactly the slot's list, in interval order, and leaves the old bookings of other slots plus the new ones |
| `PollingTimer.TimeMapper.PreparePollingTracker` | modbus-master/Modbus-App/src/PeriodicRead.cpp:2449-2470 | The first bookings are the absolute schedule's at time zero; the limit is the longest interval |
| `PollingTimer.BookedStep` | modbus-master/Modbus-App/src/PeriodicRead.cpp:2598-2632 | Refinement step: if the slots hold exactly what is pending by elapsed time, one visit triggers exactly what fires then and the slots are exact again |
| `PollingTimer.TimeMapper.Tick` | modbus-master/Modbus-App/src/PeriodicRead.cpp:2613-2622 | One turn of the timer loop keeps the calendar exact and triggers each due entry once, in interval order |
| `PollingTimer.TimeMapper.TimerThread` | modbus-master/Modbus-App/src/PeriodicRead.cpp:2550-2632 | Any number of ticks: the k-th tick triggers exactly the entries that fire at k times the tick length, once each |
| `PollingTimer.RunsOnSchedule` | modbus-master/Modbus-App/src/PeriodicRead.cpp:2079-2144 | Everything triggered in every run is on the absolute schedule (polls at multiples of the interval, cutoffs that much later) if and only if every cutoff is above 0 and below the longest interval |
| `PollingCalendar.BookedThenFires` | modbus-master/Modbus-App/src/PeriodicRead.cpp:2107-2130 | A booking made at time u is next visited exactly one gap after u, across any number of counter resets |
| `PollingCalendar.PendingStep` | modbus-master/Modbus-App/src/PeriodicRead.cpp:2079-2144 | What is pending after a tick is what was pending, minus the visited slot, plus the new bookings |
| `PollingCalendar.VisitedSlot` | modbus-master/Modbus-App/src/PeriodicRead.cpp:2079-2144 | The visited slot holds an entry exactly when that entry fires at this time |
| `PollingCalendar.CutoffScheduleExact` | modbus-master/Modbus-App/src/PeriodicRead.cpp:2115-2130 | A record's cutoffs fire exactly one cutoff after each poll if and only if the cutoff is above 0 and below the longest interval |
| `PollingCalendar.CutoffAtMaxIsLost` | modbus-master/Modbus-App/src/PeriodicRead.cpp:2115-2130 | A cutoff equal to the longest interval has a time at which it is due and is not triggered |
| `PollingCalendar.LostAtLimit` | modbus-master/Modbus-App/src/PeriodicRead.cpp:2115-2130 | With such a cutoff every poll made at the limit books its cutoff in slot 0, and that cutoff is due and never triggered |
| `PollingCalendar.FullCutoffNeverFires` | modbus-master/Modbus-App/src/PeriodicRead.cpp:2115-2130 | At 100 % the record with the longest interval never has a cutoff triggered |
| `PollingCalendar.LongCutoffIsEarly` | modbus-master/Modbus-App/src/PeriodicRead.cpp:2115-2130 | A cutoff beyond the longest interval fires at a time at which it is not due, if it is not lost |
| `PollingCalendar.LongCutoffIsLost` | modbus-master/Modbus-App/src/PeriodicRead.cpp:2115-2130 | A cutoff beyond the longest interval whose slot wraps to 0 is due and is not triggered |
| `PollingCalendar.DueOnlyOnTicks` | modbus-master/Modbus-App/src/PeriodicRead.cpp:2338-2382 | Nothing is ever due between two ticks |
| `PollingCalendar.FiresOnTick` | modbus-master/Modbus-App/src/PeriodicRead.cpp:2338-2382 | Whatever fires does so on a tick, and its poll was on one |
| `PollingCalendar.BookedInRange` | modbus-master/Modbus-App/src/PeriodicRead.cpp:2107-2130 | No booking lies beyond the limit, and all polls and all cutoffs below the limit lie in slots 1 to the limit |
| `PollingCalendar.OnePollPending` | modbus-master/Modbus-App/src/PeriodicRead.cpp:2107-2130 | Between ticks a record has exactly one pending poll, in the slot of its next multiple |
| `PollingCalendar.OneCutoffPending` | modbus-master/Modbus-App/src/PeriodicRead.cpp:2107-2130 | Between ticks a record has at most one pending cutoff when the cutoff is at most its interval and below the longest one |
| `PollingCalendar.OneCutoffPerCycle` | modbus-master/Modbus-App/src/PeriodicRead.cpp:2107-2130 | With such a cutoff, after a poll and up to the next one the record's cutoff fires exactly once, one cutoff after the poll |
| `RequestInitiation.RequestInitiator.PostDummyBADResponse` | modbus-master/Modbus-App/src/PeriodicRead.cpp:531-570 | A BAD message with the last good value goes out and the point counts as answered |
| `RequestInitiation.RequestInitiator.SendRequest` | modbus-master/Modbus-App/src/PeriodicRead.cpp:2158-2210 | Retries are set, an unregistered transaction is registered, the stack is called, whatever its answer |
| `RequestInitiation.RequestInitiator.PollPoint` | modbus-master/Modbus-App/src/PeriodicRead.cpp:1642-1692 | One point's poll: a point still waiting gets a dummy, a refused send is undone and reported |
| `RequestInitiation.RequestInitiator.InitiateRequest` | modbus-master/Modbus-App/src/PeriodicRead.cpp:1633-1695 | A poll of a whole list is a run of the protocol, one poll step a point |
| `RequestInitiation.RequestInitiator.HandleResponse` | modbus-master/Modbus-App/src/PeriodicRead.cpp:962-1020 | A stack reply leaves the stack and joins the response queue |
| `RequestInitiation.RequestInitiator.CheckForRetry` | modbus-master/Modbus-App/src/PeriodicRead.cpp:763-846 | A timeout with retries left is sent again and not published; without a transaction it is dropped |
| `RequestInitiation.RequestInitiator.PostResponse` | modbus-master/Modbus-App/src/PeriodicRead.cpp:578-610 | A reply is published and its transaction closed only while the transaction is registered; a good value becomes the last good one |
| `RequestInitiation.RequestInitiator.RespProcess` | modbus-master/Modbus-App/src/PeriodicRead.cpp:641-685 | One turn of a response thread: pop, retry check, publish |
| `RequestInitiation.RequestInitiator.CutoffPoint` | modbus-master/Modbus-App/src/PeriodicRead.cpp:1829-1857 | A point not answered by its cutoff gets a dummy BAD |
| `RequestInitiation.RequestInitiator.CheckCutoff` | modbus-master/Modbus-App/src/PeriodicRead.cpp:1829-1858 | The cutoff walk over a list is a run of the protocol |
| `PollProtocol.StepKeepsInv` | modbus-master/Modbus-App/src/PeriodicRead.cpp:1642-1692 | Every handler keeps: a point awaits a response iff its transaction is registered; per point at most one request is in the stack or queued, and none without a transaction; live retries are conserved; the cache is the last good publication |
| `PollProtocol.RunKeepsInv` | modbus-master/Modbus-App/src/PeriodicRead.cpp:270-351 | In every run of every interleaving that invariant holds, and each BAD message carries the value and time of the point's most recent Good message, or empty ones |
| `PollProtocol.StepCounts` | modbus-master/Modbus-App/src/PeriodicRead.cpp:531-610 | What each step publishes and sends for a point, against the flags it changes |
| `PollProtocol.PollSays` | modbus-master/Modbus-App/src/PeriodicRead.cpp:1642-1692 | A poll of an idle point calls the stack, and is in flight or reported as refused; a poll of a waiting point publishes a dummy and sends nothing |
| `PollProtocol.LostTransactionFrees` | modbus-master/Modbus-App/src/PeriodicRead.cpp:1645-1660 | Whatever the state, a point waiting for a transaction that is gone is set free by its next poll |
| `PollProtocol.StaleReplyDropped` | modbus-master/Modbus-App/src/PeriodicRead.cpp:578-591 | A reply without a transaction is dropped |
| `PollProtocol.ReplyAnswered` | modbus-master/Modbus-App/src/PeriodicRead.cpp:578-610 | A processed reply either closes its transaction and is published, with its value and time or its error, or is a timeout with retries left that is sent again |
| `PollProtocol.FirstInFirstOut` | modbus-master/Modbus-App/src/PeriodicRead.cpp:860-955 | Over every run the replies taken from the queue, then those in it, are those delivered, in the order of their arrival |
| `PollProtocol.GenuineAnswers` | modbus-master/Modbus-App/src/PeriodicRead.cpp:578-610 | Over every run the genuine messages answer, one by one and in order, exactly the replies that close a transaction |
| `PollProtocol.OtherPointsSame` | modbus-master/Modbus-App/src/PeriodicRead.cpp:1642-1692 | No handler changes another point or its transaction |
| `PollProtocol.CyclePublishes` | modbus-master/Modbus-App/src/PeriodicRead.cpp:1829-1858 | Every poll cycle publishes at most one dummy BAD and at most one genuine response, and at least one message by its cutoff, whatever late replies, retries and other points do in between |
| `PollingRuns.CycleHasCutoff` | modbus-master/Modbus-App/src/PeriodicRead.cpp:1829-1858 | When polls and cutoffs of a point are handled in calendar order and the cutoff is below the interval, every cycle between two polls contains its cutoff |
| `PollingRuns.EveryCyclePublishes` | modbus-master/Modbus-App/src/PeriodicRead.cpp:1829-1858 | In every run in calendar order, whatever other points, replies, retries and refusals do, every cycle of a point publishes one or two messages: at most one dummy BAD, at most one genuine response |
| `PollProtocol.RequestAccounting` | modbus-master/Modbus-App/src/PeriodicRead.cpp:763-846 | While a request lives, retries left plus retries done is the configured count, and the stack has been called once plus once a retry |
| `PollProtocol.TimeoutsEnd` | modbus-master/Modbus-App/src/PeriodicRead.cpp:763-846 | Over every interleaving with other points: a request answered only by timeouts, its resends accepted, sends exactly its remaining retries and then publishes one message, a BAD for the timeout; it has ended iff one reply more than its remaining retries has been processed, and until then exactly one request of the point is travelling |
| `PollProtocol.TimeoutsCanEnd` | modbus-master/Modbus-App/src/PeriodicRead.cpp:763-846 | From every such state, whatever is queued for other points, there is a run that ends it |
| `PollProtocol.AcceptedPollTimingOut` | modbus-master/Modbus-App/src/PeriodicRead.cpp:1668-1692 | An accepted poll of an idle point starts such a request with all configured retries left |
| `PollProtocol.AllTimeouts` | modbus-master/Modbus-App/src/PeriodicRead.cpp:763-846 | Alone, from an empty queue: the exact messages of such a request, one resend a remaining retry and then one BAD with the last good value |
| `PollProtocol.StuckOnlyByRefusedResend` | modbus-master/Modbus-App/src/PeriodicRead.cpp:790-835 | A registered request with nothing left to answer it arises if and only if the stack refuses a resend |
| `PollProtocol.StuckForever` | modbus-master/Modbus-App/src/PeriodicRead.cpp:1642-1665 | In every run from there the point stays stuck, is never requested again and publishes only dummies |
| `PollProtocol.StuckIsReachable` | modbus-master/Modbus-App/src/PeriodicRead.cpp:790-835 | With at least one retry configured every point can get there from the start |
| `MetricTree.AssignAt` | sparkplug-bridge/SPARKPLUG-BRIDGE/src/Metric.cpp:1222-1273 | Assigning a fitting tree lays its leaves over the stored ones and changes no other leaf |
| `MetricTree.PrunedAt` | sparkplug-bridge/SPARKPLUG-BRIDGE/src/Metric.cpp:946-990 | Comparing prunes a fitting tree to exactly its differing leaves |
| `MetricTree.PrunedFits` | sparkplug-bridge/SPARKPLUG-BRIDGE/src/Metric.cpp:946-990 | Whatever comes in, the pruned tree fits the stored one, so assigning it cannot miss |
| `MetricTree.DiffThenPatch` | sparkplug-bridge/SPARKPLUG-BRIDGE/src/Metric.cpp:1280-1310 | SAME iff all incoming leaves are equal; otherwise patching with the pruned tree makes the stored one agree with the incoming one and changes nothing else |
| `MetricTree.VerdictExactly` | sparkplug-bridge/SPARKPLUG-BRIDGE/src/Metric.cpp:1280-1310 | For any two metrics: DATATYPE_DIFFERENT iff one is a UDT and the other is not or the value types differ; VALUES_DIFFERENT iff the walk gets to a value of the stored type that differs |
| `MetricTree.PrunedExactly` | sparkplug-bridge/SPARKPLUG-BRIDGE/src/Metric.cpp:946-990 | For any trees: what is left are exactly the new values that the walk gets to before an unknown key breaks it off |
| `MetricTree.AssignExactly` | sparkplug-bridge/SPARKPLUG-BRIDGE/src/Metric.cpp:1222-1273 | For any trees: exactly the values that are stored with the same type are set |
| `MetricTree.AssignKeepsSchema` | sparkplug-bridge/SPARKPLUG-BRIDGE/src/Metric.cpp:1222-1273 | Assigning keeps keys, types, references and parameters |
| `MetricTree.InsertKeepsOrder` | sparkplug-bridge/SPARKPLUG-BRIDGE/src/SparkPlugDevices.cpp:60-67 | A new metric enters the map in key order |
| `MetricTree.CompareMetricsExact` | sparkplug-bridge/SPARKPLUG-BRIDGE/src/Metric.cpp:997-1052 | Equal sizes and one-way inclusion amount to equal keys: the check accepts iff keys and leaf types agree at every level of metrics and parameters, and at every level the references agree in name or in version |
| `MetricTree.CompareMapsExact` | sparkplug-bridge/SPARKPLUG-BRIDGE/src/Metric.cpp:889-938 | The same for two maps |
| `MetricTree.UdtManager.AddNewUdt` | sparkplug-bridge/SPARKPLUG-BRIDGE/src/SparkPlugUDTMgr.cpp:187-218 | Definitions are kept under their own name and version; a known one is not replaced |
| `MetricTree.ValidateExact` | sparkplug-bridge/SPARKPLUG-BRIDGE/src/Metric.cpp:790-822 | An instance passes iff it is no definition, the definition of its name and version is known, and its metrics and parameters match; at the top level the reference test never rejects |
| `MetricTree.ReferencesDecide` | sparkplug-bridge/SPARKPLUG-BRIDGE/src/Metric.cpp:997-1052 | The check is sound for keys and leaf types at every level, and complete when the references agree at every level |
| `MetricTree.SameSchemaSamePaths` | sparkplug-bridge/SPARKPLUG-BRIDGE/src/Metric.cpp:997-1052 | An accepted instance has values of the definition's types at exactly the definition's paths |
| `MetricTree.NestedOtherVersionAccepted` | sparkplug-bridge/SPARKPLUG-BRIDGE/src/Metric.cpp:1012-1017 | The reference test rejects only if name and version both differ: an instance passes whose nested UDT is of another version than the definition asks for |
| `SparkplugSession.LegalIsGrammar` | sparkplug-bridge/SPARKPLUG-BRIDGE/src/SCADAHandler.cpp:754-793 | The trace predicate is the session grammar DDEATH* (DBIRTH DDATA* DDEATH+)* (DBIRTH DDATA*)? |
| `SparkplugSession.BirthDataCovers` | sparkplug-bridge/SPARKPLUG-BRIDGE/src/SparkPlugDevices.cpp:35-122 | When a BIRTH only changes values, the reported data laid over the old store gives the new store; nothing reported means nothing changed |
| `SparkplugSession.DataCovers` | sparkplug-bridge/SPARKPLUG-BRIDGE/src/SparkPlugDevices.cpp:129-193 | The same for a DATA message, unknown and retyped metrics ignored |
| `SparkplugSession.DataExactly` | sparkplug-bridge/SPARKPLUG-BRIDGE/src/SparkPlugDevices.cpp:129-193 | At every path: reported and stored are exactly the new values that a DATA message gets to; unknown and retyped metrics change nothing |
| `SparkplugSession.FittingDataStored` | sparkplug-bridge/SPARKPLUG-BRIDGE/src/SparkPlugDevices.cpp:129-193 | When all its metrics are known with the same types, all values of a DATA message end up in the store, and exactly the differing ones are reported |
| `SparkplugSession.BirthExactly` | sparkplug-bridge/SPARKPLUG-BRIDGE/src/SparkPlugDevices.cpp:35-122 | At every path: a BIRTH stores new and retyped metrics as they come and of the others exactly the new values, and reports these |
| `SparkplugSession.BirthsExactly` | sparkplug-bridge/SPARKPLUG-BRIDGE/src/SparkPlugDevices.cpp:35-122 | Exactly the new and the retyped metrics ask for a DBIRTH |
| `SparkplugSession.BirthKeepsDevOk` | sparkplug-bridge/SPARKPLUG-BRIDGE/src/SparkPlugDevMgr.cpp:730-840 | A BIRTH of a known device keeps its session in order: legal trace, published status, host view |
| `SparkplugSession.NewDeviceDevOk` | sparkplug-bridge/SPARKPLUG-BRIDGE/src/SparkPlugDevMgr.cpp:760-834 | A new device starts its session with a DBIRTH of everything it has |
| `SparkplugSession.DataKeepsDevOk` | sparkplug-bridge/SPARKPLUG-BRIDGE/src/SparkPlugDevMgr.cpp:920-996 | A DATA message keeps the session in order |
| `SparkplugSession.DeathKeepsDevOk` | sparkplug-bridge/SPARKPLUG-BRIDGE/src/SparkPlugDevMgr.cpp:675-721 | A DEATH keeps the session in order, provided the node is initialised or the device already published down |
| `SparkplugSession.UpdateKeepsDevOk` | sparkplug-bridge/SPARKPLUG-BRIDGE/src/SparkPlugDevices.cpp:980-1151 | A Modbus device's update keeps the session in order, provided it reports no death while the node is not initialised |
| `SparkplugSession.NodeBirthKeepsDevOk` | sparkplug-bridge/SPARKPLUG-BRIDGE/src/SCADAHandler.cpp:111-147 | A node birth starts every device's session in order |
| `SparkplugSession.BusKeepsDevOk` | sparkplug-bridge/SPARKPLUG-BRIDGE/src/SCADAHandler.cpp:154-242 | Bus loss and return keep the session in order |
| `SessionMessages.BirthStepSays` | sparkplug-bridge/SPARKPLUG-BRIDGE/src/SparkPlugDevMgr.cpp:730-840 | A BIRTH: ignored without names or metrics; a new device, or one published DOWN, is born with its new store; a known one dies and is born again if a metric is new or retyped, else publishes one DDATA with exactly the new values, or nothing; without init the same silently; no other device changes |
| `SessionMessages.DataStepSays` | sparkplug-bridge/SPARKPLUG-BRIDGE/src/SparkPlugDevMgr.cpp:920-996 | A DATA message: ignored without names or metrics or for an unknown device; a device published DOWN is born again with its new store, another publishes one DDATA with exactly the new values, or nothing |
| `SessionMessages.GoodUpdateSays` | sparkplug-bridge/SPARKPLUG-BRIDGE/src/SparkPlugDevices.cpp:1075-1113 | A good value is stored; a device published DOWN is born again with it; one published UP publishes it iff it differs |
| `SessionMessages.BadUpdateSays` | sparkplug-bridge/SPARKPLUG-BRIDGE/src/SparkPlugDevices.cpp:1086-1140 | A bad status kills a device published UP exactly for codes 2002, 2003 and 2021; a late last good value is stored, and published if the device stays UP; a device published DOWN stays silent |
| `SessionMessages.BadUpdateSaysNothing` | sparkplug-bridge/SPARKPLUG-BRIDGE/src/SparkPlugDevices.cpp:905-1035 | A status that is unreadable or inconsistent, an unknown metric, a UDT or a missing value changes nothing |
| `SessionMessages.UpdateStepSays` | sparkplug-bridge/SPARKPLUG-BRIDGE/src/SparkPlugDevMgr.cpp:849-911 | An update reaches the device that it names and no other; without init the same silently |
| `SessionMessages.DeathStepSays` | sparkplug-bridge/SPARKPLUG-BRIDGE/src/SparkPlugDevMgr.cpp:675-721 | A DEATH hits exactly the devices of the app: known DOWN, and in an initialised node one DDEATH each |
| `SessionMessages.NodeBirthSays` | sparkplug-bridge/SPARKPLUG-BRIDGE/src/SCADAHandler.cpp:111-147 | Every device not known to be down gets exactly one DBIRTH with its store, every other none |
| `SessionMessages.BusEstablishedSays` | sparkplug-bridge/SPARKPLUG-BRIDGE/src/SCADAHandler.cpp:208-242 | Exactly the devices neither published UP nor known DOWN get a DBIRTH, in an initialised node |
| `SessionMessages.BusLostSays` | sparkplug-bridge/SPARKPLUG-BRIDGE/src/SCADAHandler.cpp:154-201 | Exactly the devices reached get a DDEATH; what they were known to be stays |
| `SessionMessages.BackAfterBusLoss` | sparkplug-bridge/SPARKPLUG-BRIDGE/src/SCADAHandler.cpp:154-242 | After bus loss and return a device not known to be down has died and been born again once, and the host sees its store |
| `SessionMessages.DisconnectSays` | sparkplug-bridge/SPARKPLUG-BRIDGE/src/SCADAHandler.cpp:592-605 | A disconnect ends the session and changes no device |
| `SessionMessages.HostFollowsData` | sparkplug-bridge/SPARKPLUG-BRIDGE/src/SparkPlugDevMgr.cpp:920-996 | In an initialised node the host sees every value of a DATA message that is stored with the same type and reached |
| `SessionMessages.HostFollowsBirth` | sparkplug-bridge/SPARKPLUG-BRIDGE/src/SparkPlugDevMgr.cpp:730-840 | And of a BIRTH also every value of new and retyped metrics |
| `SparkplugSession.StepKeepsInv` | sparkplug-bridge/SPARKPLUG-BRIDGE/src/SCADAHandler.cpp:754-793 | Every harmless message or connection event keeps every device in order |
| `SparkplugSession.EveryRunHealthy` | sparkplug-bridge/SPARKPLUG-BRIDGE/src/SCADAHandler.cpp:111-242 | In every run without late deaths: traces are legal; in an initialised node every device has a published status, UP iff it is alive; the host holds exactly the stored values of every live device; known DOWN implies published DOWN |
| `SparkplugSession.HarmlessExactly` | sparkplug-bridge/SPARKPLUG-BRIDGE/src/SCADAHandler.cpp:758-762 | An event leads only to healthy runs if and only if it is no death processed before the node is initialised for a device not published down |
| `SparkplugSession.HealthyExactly` | sparkplug-bridge/SPARKPLUG-BRIDGE/src/SCADAHandler.cpp:111-147 | A run is healthy throughout if and only if at every node birth in it no device is known DOWN without having been published DOWN; late deaths that a later message repairs do no harm |
| `SparkplugSession.LateDeathSpoilsNextSession` | sparkplug-bridge/SPARKPLUG-BRIDGE/src/SparkPlugDevMgr.cpp:714 | After such a late death the next node birth leaves a device that is not in session: published UP with no DBIRTH, or with no published status |
| `SparkplugSession.LateDeathThenData` | sparkplug-bridge/SPARKPLUG-BRIDGE/src/SCADAHandler.cpp:758-762 | For every state: after a late death of an app and a node birth, every DATA message that changes something goes out as a DDATA that no DBIRTH precedes |
| `SparkplugSession.LateDeathThenOtherValue` | sparkplug-bridge/SPARKPLUG-BRIDGE/src/SCADAHandler.cpp:758-762 | In particular any other value of a plain metric does |
| `SparkplugSession.LateDeathThenUpdate` | sparkplug-bridge/SPARKPLUG-BRIDGE/src/SparkPlugDevices.cpp:1107-1127 | The same for a Modbus device whose late death an update reported: its next good new value |
| `SparkplugSession.DataWithoutBirth` | sparkplug-bridge/SPARKPLUG-BRIDGE/src/SCADAHandler.cpp:758-762 | Such a run from the start: an app dies while the node is disconnected, and its next value is an illegal DDATA |
| `SparkplugBridge.Device.ProcessNewBirthData` | sparkplug-bridge/SPARKPLUG-BRIDGE/src/SparkPlugDevices.cpp:35-122 | The loop over a BIRTH leaves the specified store and reports new and retyped metrics, else the changed values |
| `SparkplugBridge.Device.ProcessNewData` | sparkplug-bridge/SPARKPLUG-BRIDGE/src/SparkPlugDevices.cpp:129-193 | The loop over a DATA message leaves the specified store and reports the changed values |
| `SparkplugBridge.Device.ProcessRealDeviceUpdateMsg` | sparkplug-bridge/SPARKPLUG-BRIDGE/src/SparkPlugDevices.cpp:980-1151 | Decision by last published status, quality, error code and late good value, as specified |
| `SparkplugBridge.Device.PrepareDBirthMessage` | sparkplug-bridge/SPARKPLUG-BRIDGE/src/SparkPlugDevices.cpp:486-560 | No DBIRTH for a device known to be down or, outside a node birth, already up; otherwise all its metrics |
| `SparkplugBridge.Bridge.AddRealDevice` | sparkplug-bridge/SPARKPLUG-BRIDGE/src/SparkPlugDevMgr.cpp:1013-1038 | A configured device comes up with nothing published or known; a repeated name is ignored |
| `SparkplugBridge.Bridge.AddRealDevices` | sparkplug-bridge/SPARKPLUG-BRIDGE/src/SparkPlugDevMgr.cpp:1001-1045 | A bridge that has only its configured devices is in a start state of the session machine |
| `SparkplugBridge.Bridge.AddVendorDevice` | sparkplug-bridge/SPARKPLUG-BRIDGE/src/SparkPlugDevMgr.cpp:757-773 | A new device enters the device map and its app's list |
| `SparkplugBridge.Bridge.ProcessBirthMsg` | sparkplug-bridge/SPARKPLUG-BRIDGE/src/SparkPlugDevMgr.cpp:730-840 | Store, statuses and action vector of a BIRTH; no other device changes |
| `SparkplugBridge.Bridge.ProcessDataMsg` | sparkplug-bridge/SPARKPLUG-BRIDGE/src/SparkPlugDevMgr.cpp:920-996 | Store, statuses and action vector of a DATA message |
| `SparkplugBridge.Bridge.ProcessUpdateMsg` | sparkplug-bridge/SPARKPLUG-BRIDGE/src/SparkPlugDevMgr.cpp:849-911 | Store, statuses and action vector of a Modbus device's update |
| `SparkplugBridge.Bridge.ProcessDeathMsg` | sparkplug-bridge/SPARKPLUG-BRIDGE/src/SparkPlugDevMgr.cpp:675-721 | All devices of the app, and only these, become known DOWN and get a death action |
| `SparkplugBridge.Bridge.PrepareSparkPlugMsg` | sparkplug-bridge/SPARKPLUG-BRIDGE/src/SCADAHandler.cpp:754-793 | Publishes each device's actions in order; nothing at all while the node is not initialised |
| `SparkplugBridge.Bridge.PublishDeviceBirth` | sparkplug-bridge/SPARKPLUG-BRIDGE/src/SCADAHandler.cpp:434-455 | Publishes a DBIRTH and sets the status, or does neither |
| `SparkplugBridge.Bridge.PublishMsgDDATA` | sparkplug-bridge/SPARKPLUG-BRIDGE/src/SCADAHandler.cpp:632-669 | Publishes a DDATA and sets the status; an empty change publishes nothing |
| `SparkplugBridge.Bridge.PublishMsgDDEATH` | sparkplug-bridge/SPARKPLUG-BRIDGE/src/SCADAHandler.cpp:677-715 | Publishes a DDEATH and sets the status |
| `SparkplugBridge.Bridge.PublishAllDevBirths` | sparkplug-bridge/SPARKPLUG-BRIDGE/src/SCADAHandler.cpp:410-426 | Offers every device a DBIRTH once |
| `SparkplugBridge.Bridge.HandleBirth` | sparkplug-bridge/SPARKPLUG-BRIDGE/src/SparkPlugDevMgr.cpp:730-840 | Processing a BIRTH and publishing its actions is one step of the session machine |
| `SparkplugBridge.Bridge.HandleData` | sparkplug-bridge/SPARKPLUG-BRIDGE/src/SparkPlugDevMgr.cpp:920-996 | The same for a DATA message |
| `SparkplugBridge.Bridge.HandleUpdate` | sparkplug-bridge/SPARKPLUG-BRIDGE/src/SparkPlugDevMgr.cpp:849-911 | The same for an update |
| `SparkplugBridge.Bridge.HandleDeath` | sparkplug-bridge/SPARKPLUG-BRIDGE/src/SparkPlugDevMgr.cpp:675-721 | The same for a DEATH |
| `SparkplugBridge.Bridge.HandleScadaConnectionSuccess` | sparkplug-bridge/SPARKPLUG-BRIDGE/src/SCADAHandler.cpp:111-147 | NBIRTH, all DBIRTHs and the init flag are one step of the session machine |
| `SparkplugBridge.Bridge.HandleIntMqttConnLost` | sparkplug-bridge/SPARKPLUG-BRIDGE/src/SCADAHandler.cpp:154-201 | A bus-loss step for as many devices as the loop gets to before the bus is back, all of them if it is not; none before the node is initialised |
| `SparkplugBridge.Bridge.HandleIntMqttConnEstablished` | sparkplug-bridge/SPARKPLUG-BRIDGE/src/SCADAHandler.cpp:208-242 | A bus-return step; nothing before the node is initialised |
| `SparkplugBridge.Bridge.HandleDisconnected` | sparkplug-bridge/SPARKPLUG-BRIDGE/src/SCADAHandler.cpp:592-605 | A disconnect clears the init flag and changes no device |
| `SparkplugBridge.Bridge.PublishNewUDTs` | sparkplug-bridge/SPARKPLUG-BRIDGE/src/SCADAHandler.cpp:722-746 | New templates clear the init flag until the next NBIRTH |
| `PayloadSequence.ScadaClient.PublishSparkplugMsg` | sparkplug-bridge/SPARKPLUG-BRIDGE/src/SCADAHandler.cpp:283-346 | One call: the number goes up by one on a byte, is 0 for an NBIRTH, and stays if encoding or publishing fails |
| `PayloadSequence.NumberIsDistance` | sparkplug-bridge/SPARKPLUG-BRIDGE/src/SCADAHandler.cpp:283-346 | Over any mixture of calls every published message carries its distance from the last NBIRTH, modulo 256 |
| `PayloadSequence.SentArePassing` | sparkplug-bridge/SPARKPLUG-BRIDGE/src/SCADAHandler.cpp:283-346 | The published messages are exactly the calls that pass, in order |
| `PayloadSequence.KthPassingNumber` | sparkplug-bridge/SPARKPLUG-BRIDGE/src/SCADAHandler.cpp:283-346 | The k-th call to pass after a passing NBIRTH publishes one message, with number k modulo 256 |
| `PayloadSequence.SentGrows` | sparkplug-bridge/SPARKPLUG-BRIDGE/src/SCADAHandler.cpp:331-332 | What has been published stays published |
| `PayloadSequence.KthAfterNBirth` | sparkplug-bridge/SPARKPLUG-BRIDGE/src/SCADAHandler.cpp:283-346 | The k-th message published after an NBIRTH carries k modulo 256 (Sparkplug Specification 3.0.0, section 6.4) |
| `RegisterCodec.DigitValues` | modbus-master/Modbus-App/src/ModbusOnDemandHandler.cpp:213-226 | Which character has which value, in either case; exactly the others throw |
| `RegisterCodec.DigitIs` | modbus-master/Modbus-App/src/Common.cpp:63 | Digits are written in upper case |
| `RegisterCodec.SwapBytesAt` | modbus-master/Modbus-App/src/Common.cpp:43-122 | The byte swap exchanges the two bytes of every register, by index; an odd last byte stays |
| `RegisterCodec.SwapWordsAt` | modbus-master/Modbus-App/src/Common.cpp:43-122 | The word swap exchanges the registers of every full group of four bytes, by index; the rest stays |
| `RegisterCodec.SwapConversion` | modbus-master/Modbus-App/src/Common.cpp:43-122 | The loop over four, two or one bytes formats the permuted bytes, upper case with 0x; an empty value gives the null result |
| `RegisterCodec.Hex2Bin` | modbus-master/Modbus-App/src/ModbusOnDemandHandler.cpp:235-282 | Fills the buffer with the bytes of the string, each register's bytes swapped; -1 exactly for odd length, wrong length or a bad digit; nothing beyond the length is touched |
| `RegisterCodec.ParseBytes` | modbus-master/Modbus-App/src/ModbusOnDemandHandler.cpp:856-868 | Parses a value for swapping; none exactly if a digit is bad or missing |
| `RegisterCodec.FillBuffer` | modbus-master/Modbus-App/src/ModbusOnDemandHandler.cpp:852-879 | The buffer and error code of a write request, for all four swap settings |
| `RegisterCodec.SwapsCommute` | modbus-master/Modbus-App/src/Common.cpp:43-122 | Byte and word swap commute on values of any length |
| `RegisterCodec.ReadUndoesWrite` | modbus-master/Modbus-App/src/Common.cpp:43-122 | A write's permutation is that of a read, which is its own inverse |
| `RegisterCodec.WriteOutcome` | modbus-master/Modbus-App/src/ModbusOnDemandHandler.cpp:852-879 | Exactly the hex values of the expected length are stored (empty ones only unswapped), in the read's byte order; a bad value is an exception exactly when swapping is on |
| `RegisterCodec.WrittenReadsBack` | modbus-master/Modbus-App/src/ModbusOnDemandHandler.cpp:852-879 | For every hex value of n>0 bytes and all swap settings, the written buffer formatted as a read shows the same digits, upper-cased with 0x |
| `RegisterCodec.FourBytesStored` | modbus-master/Modbus-App/src/ModbusOnDemandHandler.cpp:852-879 | The buffer of a four-byte value in full, for the four settings |
| `RegisterCodec.PrefixDoesNotMatter` | modbus-master/Modbus-App/src/ModbusOnDemandHandler.cpp:247-250 | 0x, 0X and no prefix give the same buffer or the same error |
| `ScaledValue.ConvertToHexString` | modbus-master/Modbus-App/src/ModbusOnDemandHandler.cpp:1327-1345 | The digits of the number, padded to four a register, longer only if the number needs it |
| `ScaledValue.LastDigitsAt` | modbus-master/Modbus-App/src/ModbusOnDemandHandler.cpp:1327-1345 | Digits by index, the most significant first |
| `ScaledValue.RangeIs` | modbus-master/Modbus-App/src/ModbusOnDemandHandler.cpp:391-502 | The literal bounds of the four types |
| `ScaledValue.SaturateIsNearest` | modbus-master/Modbus-App/src/ModbusOnDemandHandler.cpp:391-502 | Saturation keeps what is in range and otherwise takes the nearest value in range |
| `ScaledValue.WrittenIs` | modbus-master/Modbus-App/src/ModbusOnDemandHandler.cpp:391-502 | Written is the quotient without its fraction where in range, else the literal bound that it is beyond |
| `ScaledValue.DefinedExactly` | modbus-master/Modbus-App/src/ModbusOnDemandHandler.cpp:391-502 | The conversions are defined exactly within literal bounds of quotient and product |
| `ScaledValue.EncodedIs` | modbus-master/Modbus-App/src/ModbusOnDemandHandler.cpp:429-440 | Two's complement in literals |
| `ScaledValue.DecodedIs` | modbus-master/Modbus-App/src/Common.cpp:304-468 | Within the parser's limit the value of the type with the same low bits, beyond it 0 |
| `ScaledValue.ReverseScaledValueToHex` | modbus-master/Modbus-App/src/ModbusOnDemandHandler.cpp:391-480 | The hex text of the saturated quotient |
| `ScaledValue.DecodeEncode` | modbus-master/Modbus-App/src/Common.cpp:304-468 | Two's complement of each width, undone by the decoders |
| `ScaledValue.RegisterRoundTrip` | modbus-master/Modbus-App/src/Common.cpp:304-468 | A register value survives hex text, buffer, swaps and decoder, for every type and swap setting |
| `ScaledValue.ScaledRoundTrip` | modbus-master/Modbus-App/src/PeriodicRead.cpp:1191-1306 | For a factor of either sign, what is read back lies between zero and what was written, and is off by less than the size of the factor plus one when nothing saturates |
| `ScaledValue.ExactRoundTrip` | modbus-master/Modbus-App/src/PeriodicRead.cpp:1191-1306 | A value comes back unchanged if and only if it fits the type and is a multiple of the scale factor by an integer that fits, for every real factor but 0 |
| `ScaledValue.WholeMultiples` | modbus-master/Modbus-App/src/PeriodicRead.cpp:1191-1306 | For an integer factor these are the values that it divides with a quotient that fits |
| `ScaledValue.PositiveQuotientFits` | modbus-master/Modbus-App/src/PeriodicRead.cpp:1191-1306 | For a positive integer factor the quotient of a value that fits does fit |
| `ScaledValue.ReadIsDefined` | modbus-master/Modbus-App/src/PeriodicRead.cpp:1191-1306 | A value that the reader's accumulator holds never overflows it on the way back, for unsigned types with a negative factor if it is not negative |
| `ScaledValue.SaturatedIsReadable` | modbus-master/Modbus-App/src/PeriodicRead.cpp:1191-1306 | That is not necessary: a saturating write may bring a larger value within reach |
| `ScaledValue.EndToEnd` | modbus-master/Modbus-App/src/ModbusOnDemandHandler.cpp:345-513 | The whole way, for every type, every factor but 0 and every swap setting, where the conversions are defined: stored, read back between zero and the value, within the size of the factor plus one when nothing saturates, and exactly the value for exactly the multiples that fit |
| `ControlLoop.KeyRoutesHome` | kpi-tactic/KPIApp/include/ControlLoopHandler.hpp:333-349 | A key built from sequence number, app name and loop id leads to that loop, even if the first two contain '-' |
| `ControlLoop.KeyTellsSequence` | kpi-tactic/KPIApp/src/ControlLoopHandler.cpp:123 | For one loop a key tells the sequence number of its poll |
| `ControlLoop.ReleasesItsOwn` | kpi-tactic/KPIApp/include/ControlLoopHandler.hpp:333-349 | In every run a key releases only a poll with the sequence number in the key; a late response cannot take another request's poll |
| `ControlLoop.TrackedIsReleased` | kpi-tactic/KPIApp/src/Main.cpp:97-112 | A response, a failed write or the next poll takes a tracked request out and hands it to the thread that reports it |
| `ControlLoop.MapOfReqMapper.RFind` | kpi-tactic/KPIApp/include/ControlLoopHandler.hpp:337 | The position of the last '-' |
| `ControlLoop.MapOfReqMapper.InsertForTracking` | kpi-tactic/KPIApp/include/ControlLoopHandler.hpp:247-252 | Inserts, never replaces |
| `ControlLoop.MapOfReqMapper.GetForProcessing` | kpi-tactic/KPIApp/include/ControlLoopHandler.hpp:333-349 | Takes the request out of the loop its key leads to, at most once |
| `ControlLoop.MapOfReqMapper.IsPresent` | kpi-tactic/KPIApp/include/ControlLoopHandler.hpp:350-361 | Looks a key up in a loop's map, creating the map if missing |
| `ControlLoop.MapOfReqMapper.CreateNewControlLoopMap` | kpi-tactic/KPIApp/include/ControlLoopHandler.hpp:304-320 | Creates a loop's map once |
| `ControlLoop.StepKeepsInv` | kpi-tactic/KPIApp/src/ControlLoopHandler.cpp:88-158 | Every map access of every thread keeps: only the loop's current key is tracked, and every accepted poll is accounted for |
| `ControlLoop.ExactlyOnce` | kpi-tactic/KPIApp/src/ControlLoopHandler.cpp:88-158 | Over all interleavings: at most one tracked request a loop, and each poll was accepted as often as it was emitted, is held for emission or is tracked |
| `ControlLoop.AcceptedExactly` | kpi-tactic/KPIApp/src/ControlLoopHandler.cpp:101-150 | In every run exactly the polls with a sequence number are accepted, each as often as it was taken up, apart from one still being decided on |
| `ControlLoop.WrittenExactly` | kpi-tactic/KPIApp/src/ControlLoopHandler.cpp:683-702 | In every run every tracked request is queued once and written once or still on its way |
| `ControlLoop.FailedExactly` | kpi-tactic/KPIApp/src/ControlLoopHandler.cpp:528-561 | In every run every failed publication has its key taken for a report once, or is about to |
| `ControlLoop.AllReported` | kpi-tactic/KPIApp/src/Main.cpp:80-122 | Once nothing is tracked or held, the analysis messages are exactly the accepted polls |
| `ControlLoop.ControlLoopApp.MonitorPoll` | kpi-tactic/KPIApp/src/ControlLoopHandler.cpp:88-158 | One turn of a monitoring thread is a run of the protocol with the stated result |
| `ControlLoop.ControlLoopApp.CheckLastWrite` | kpi-tactic/KPIApp/src/ControlLoopHandler.cpp:112-116 | A request without response by the next poll is reported and taken out |
| `ControlLoop.ControlLoopApp.PublishWriteReq` | kpi-tactic/KPIApp/src/ControlLoopHandler.cpp:683-702 | The request is tracked, then queued for the write thread |
| `ControlLoop.ControlLoopApp.PostAnalysisFor` | kpi-tactic/KPIApp/src/ControlLoopHandler.cpp:64-82 | Reports the request behind a key if it is still tracked |
| `ControlLoop.ControlLoopApp.WriteRequest` | kpi-tactic/KPIApp/src/ControlLoopHandler.cpp:528-561 | One turn of the write thread, a failed publish reported, is a run of the protocol |
| `ControlLoop.ControlLoopApp.AnalyzeResponse` | kpi-tactic/KPIApp/src/Main.cpp:80-122 | One turn of the response thread is a run of the protocol |
| `SemaphoreQueue.StepKeepsInv` | kpi-tactic/KPIApp/src/ControlLoopHandler.cpp:777-871 | Every push, post, wait, test, pop, break and clear keeps the permit bound and what follows from it |
| `SemaphoreQueue.PermitsCoverQueue` | uwc_common/uwc_util/Src/QueueHandler.cpp:92-183 | In every run, any number of consumers: queue length is at most semaphore plus consumers past the wait, equal without breaks and clears; popped then queued is what was pushed, in order, without clears; a message never lies without a permit |
| `SemaphoreQueue.TestNeverFails` | kpi-tactic/KPIApp/src/ControlLoopHandler.cpp:820-839 | Without breaks and clears, whoever has passed the wait finds a message |
| `SemaphoreQueue.SafeExactly` | kpi-tactic/KPIApp/src/ControlLoopHandler.cpp:800-839 | No consumer ever takes the front of an empty queue, exactly: always with the locked test; with the unlocked test iff nobody clears and there is one consumer or nobody breaks; without a test iff nobody clears or breaks |
| `SemaphoreQueue.TwoTestsOneMessage` | kpi-tactic/KPIApp/src/ControlLoopHandler.cpp:820-839 | Two consumers and one break: both pass the unlocked test for one message |
| `SemaphoreQueue.BrokenWait` | modbus-master/Modbus-App/src/PeriodicRead.cpp:1577-1621 | Without a test a break lets a consumer through to an empty queue |
| `SemaphoreQueue.InternalQueue.PushMsg` | uwc_common/uwc_util/Src/QueueHandler.cpp:92-107 | Appends and posts one permit |
| `SemaphoreQueue.InternalQueue.IsMsgArrived` | uwc_common/uwc_util/Src/QueueHandler.cpp:133-183 | Takes one permit and the front, if there is one; an interrupted wait takes nothing; without a test an empty queue underflows |
| `SemaphoreQueue.InternalQueue.BreakWaitOnQ` | uwc_common/uwc_util/Src/QueueHandler.cpp:114-126 | A permit without a message |
| `SemaphoreQueue.InternalQueue.ClearAll` | uwc_common/uwc_util/Src/QueueHandler.cpp:41-45 | Empties the queue and keeps its permits |

## Left out

- Message buses, the MQTT client, protobuf and JSON text: messages are datatypes.
- The Modbus stack: it answers an accepted call at most once, may refuse any call, and roll ids are distinct for distinct points.
- Publishing in the poll protocol always succeeds, and in the session machine the published status is set whatever the publishing call returned, as the code does.
- Configuration, logging, thread priorities, shutdown, the sample applications and mqtt-bridge plumbing: no property that would say more.
- Wall-clock sleeping of the timer and its nanosecond product, which overflows 32 bits beyond 4294 ms: ticks are logical.
- The time-record map is given: inserting points, deriving the cutoff from a percentage, and the real-time and non-real-time lists of one record. Intervals and cutoffs are below 2^31; the slot arithmetic wraps at 2^32 as in the code.
- PollingTimer.SortByInterval: the library sort is any sorted permutation; entries of equal interval may come in either order.
- One of the two symmetric transaction maps (real-time and not) is modelled; a handler body is one step, so interleavings of two handlers inside their bodies are not.
- Points are records in a map, not objects with atomic fields; aliasing between a point and the transaction map's references is the shared key.
- Metrics are tree values: null entries, timestamps, and shared pointers between a message and the store are not modelled. A template reference that a message leaves empty and the store fills in is not either.
- MetricTree.CompareMetricsExact: the reference part is what the code tests, agreement in name or in version; rejecting either difference would be stronger (see MetricTree.NestedOtherVersionAccepted).
- Parsing of template definitions, the command direction (NCMD, DCMD), and the payloads' aliases and properties.
- Sessions are per device: the order of messages of different devices is not modelled. The loss of the internal bus reaches any set of devices.
- SparkplugSession.EveryRunHealthy: the hypothesis on late deaths is needed and exact; see SparkplugSession.HarmlessExactly.
- Floating-point rounding: scale factors and products are exact reals. Float, double, string, boolean and 64-bit values are not modelled. Conversions that are undefined in C++ (a quotient beyond 64 bits, a product beyond its variable) are excluded by `WriteDefined` and `ReadDefined`; so is the scale factor 0, which the configuration replaces by its default.
- Single-coil values and the choice of the function code in a write request.
- Request maps for on-demand operations: insert, update and remove of one entry each.
- The delay before a write request, and the text of analysis messages.
- ControlLoop.ExactlyOnce: a poll without a sequence number is not accepted, as in the code; threads that stop are not modelled.
- Errors of the semaphore calls other than an interrupted wait.
