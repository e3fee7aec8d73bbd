# A verified model of the sensor-edge gateway

sensor-edge polls industrial devices in batches, converts and merges the answers, keeps
sliding windows and alarms at the edge, and forwards messages upstream through a persistent
queue. This project models the parts of it that hold an algorithm or a state machine and
proves what they guarantee.

- **Modbus register batches** (`Words`, `GreedySplit`, `Formats`, `RegisterPlan`,
  `RegisterBatch`, `RegisterReading`, `RegisterWrap`). Points are parsed, sorted and greedily
  merged into requests in uint16 arithmetic; each answer is sliced back to its points. The
  plan covers exactly the registers of its points, never asks for more than 124, uses the
  fewest requests any split under the same merge tests could, and the batch agrees with reading
  every point alone. Points that run past address 65535 are included: their entries are never
  faked, a batch is complete and good exactly when there are none, and optimality reaches exactly
  as far (`RegisterWrap`).
- **Coil batches and packing** (`CoilBatch`, `CoilReading`, `Packing`, `ModbusBatch`). The same
  for coils and discrete inputs, for any addresses including repeated ones, with the index panic
  of a short answer modelled; the bit and word packing of the write side and its round trips;
  and the routing by function code. A point's `width` is what the closure `getRegCount` answers
  for its format.
- **Persistent outbound queue** (`OutboundQueue`, `OutboundMachine`). One pass of `Process` on
  values and in place; and a step machine with a crash and restart between any two effects, each
  pass with a `maxRetry` of its own.
- **Edge rules** (`EdgeRules`, `SlidingWindow`, `RuleEngine`, `RuleRuns`). The engine as objects
  with mutable buffers, and its windows and alarms over every run of `ApplyRules` and hot reloads.
- **BACnet** (`PointStore`, `PointRuns`, `DeviceRegistry`). The point table behind its three keys
  with typed writes, over every run; and device registration under every interleaving of the two
  listeners, with the poller of each device.
- **Decoding and merging** (`FormatParser`, `Collector`, `Gateway`, `Pipeline`). Byte orders and
  casts, the merge of batch answers under point names, and the path from the four tables of a Modbus
  device through `ReadBatch` and every function group to named values and on into the sliding windows.

`Dynamic` holds the dynamic values all of these pass around, `Permutations` sequence facts used
throughout.

The device, the broker, storage failures, expression evaluation and address scanning enter as
parameters that may behave in any way; a Modbus device with fixed contents is one such parameter,
following sections 6.1 to 6.4 of the MODBUS Application Protocol Specification V1.1b3. A sort by
address promises order and contents only, since `sort.Slice` is not stable. The mutexes of the queue
and the point store make their methods atomic. Strings are character sequences, and upper-casing is
exact on every letter whose upper case is ASCII.

Where the code differs from what its names or its documentation suggest, the model follows the code:

- `Long CD AB` computes what `Long BA DC` does (`FormatParser.LongCDABIsLongBADC`).
- `ReadBatch` passes no format, so every point is read as one register: a Float point decodes to the
  value of its two registers exactly when the second is zero, and Long and Double points are never
  decoded (`Gateway.FloatIsRightIff`, `Gateway.LongStaysRaw`, `Gateway.DoubleStaysRaw`).
- Only a point of Type `float` becomes a float64 on that path, and the rules average nothing else: a
  point of Type `float64`, as the shipped configuration has, never enters a window, nor does one of
  Format `UINT` (`Pipeline.SampledIff`, `Pipeline.NeverSampled`).
- Of two points on one address only the first gets a value (`Gateway.MergeGivesOwn`).
- A message dropped after its last retry is not deleted from storage, so it returns with the next
  restart, exactly if its Save had succeeded (`OutboundMachine.DroppedReturnsIff`).
- Rules are applied once per function group, so early groups' samples enter their windows again
  (`Pipeline.CycleSamples`).
- A device that went offline is never polled again, however often it announces itself
  (`DeviceRegistry.OfflineForever`). As written `pollOnce` is a placeholder that always succeeds, so no
  device does go offline yet; the result of a poll is a parameter here.
- A word answer too short for its quantity panics only if its memory ends too; otherwise the driver
  reads on behind it (`Packing.SpareIsIgnoredIff`).
- A repeated point name can leave the address index naming a point with another address
  (`PointRuns.CoherentIff`).
- The result of a `Transform` expression in the collection loop is bound to a shadowing variable and
  lost, so `Collector.Convert` has no such step. Alarms and metrics collected per group are lost in the
  same way.
- `parseAddressFields` uses a scan verb the Go library does not have; it always fails and changes
  nothing, so `PointStore.PointOf` has no such step.

## Model

| member | source | states |
|---|---|---|
| Words.WrapIsModulo | protocols/modbus/modbus_tcp.go:338-344 | The uint16 conversion used in the planning tests is reduction modulo 65536 |
| RegisterPlan.JoinsExact | protocols/modbus/modbus_tcp.go:341 | The uint16 merge tests equal the unbounded ones for points inside the register space, except that a group already reaching address 65535 takes no further point |
| RegisterPlan.SpanBound | protocols/modbus/modbus_tcp.go:337-349 | Every group the tests allow spans fewer than 125 registers and ends inside the register space |
| RegisterPlan.RequestIsLegal | protocols/modbus/modbus_tcp.go:350-352 | Each request asks for 1 to 124 registers, for every sorted input, wrapping points included |
| RegisterPlan.GroupIsExact | protocols/modbus/modbus_tcp.go:335-352 | For points that fit, a request holds each of its points whole, covers no register that none of them uses, and does not run past the address space |
| RegisterPlan.NextGroupEndsBeyond | protocols/modbus/modbus_tcp.go:335-349 | The key step of optimality: where the planner opens a group, that point ends beyond all earlier ones, up to the last group that ran to address 65535 |
| RegisterPlan.PlanIsOptimal | protocols/modbus/modbus_tcp.go:335-349 | No split of the sorted points into consecutive groups passing the same merge tests has fewer groups than the plan, widths 1, 2 and 4 mixed and overlapping |
| GreedySplit.GreedyStaysAhead | protocols/modbus/modbus_tcp.go:335-349 | The exchange argument: longest-first splitting from anchored points never needs more groups than any split that starts no later |
| RegisterWrap.SpoiledIsNotOptimal | protocols/modbus/modbus_tcp.go:337-349 | For every point that runs past address 65535 there is a list, otherwise of points inside the space, on which three requests are planned where two groups pass the same tests |
| RegisterWrap.OptimalIff | protocols/modbus/modbus_tcp.go:335-349 | A point can be planned with optimally in every list of register-space points and itself exactly when it lies in that space |
| RegisterBatch.ParseAll | protocols/modbus/modbus_tcp.go:310-317 | Points are parsed in order and the first bad address decides the error |
| RegisterBatch.ParsedIff | protocols/modbus/modbus_tcp.go:310-317 | Parsing succeeds exactly when every address parses, and gives each point its own id, address and width in order, for any format; otherwise the error names the first bad address |
| RegisterBatch.AddressIsPlainIff | protocols/modbus/modbus_tcp.go:622-639 | An address parses exactly when it has two characters and starts with a number; the result is that number less its base exactly when that lies in the register space, and modulo 65536 otherwise |
| RegisterBatch.FindGroup | protocols/modbus/modbus_tcp.go:336-351 | The inner loop ends where the planning function says, with its base address and quantity |
| RegisterBatch.ReadEntry | protocols/modbus/modbus_tcp.go:357-381 | One point's entry from its group's answer, with no slice out of range whatever the answer's length |
| RegisterBatch.ReadSorted | protocols/modbus/modbus_tcp.go:331-385 | The planning and slicing loops return the result and send the requests of the run function |
| RegisterBatch.ReadBatchWithFormat | protocols/modbus/modbus_tcp.go:300-386 | A bad address ends the call before any request; otherwise the result is a run over some address-sorted permutation of the points |
| RegisterReading.PlanPartitions | protocols/modbus/modbus_tcp.go:333-384 | The groups cut the sorted points into consecutive non-empty pieces |
| RegisterReading.RunFollowsPlan | protocols/modbus/modbus_tcp.go:333-385 | Requests go out in plan order; at the first error nothing more is sent and no entry is returned; without one there is a request per group |
| RegisterReading.RunEntry | protocols/modbus/modbus_tcp.go:356-385 | For answers of any length, every point of a finished run has its entry at its place in address order, cut from its own group's answer |
| RegisterReading.RunLength | protocols/modbus/modbus_tcp.go:356-385 | A finished run returns exactly one entry per point, good or bad, whatever the answers hold |
| RegisterReading.GoodIffInAnswer | protocols/modbus/modbus_tcp.go:357-382 | An entry carries the point's id and is good exactly when the answer, of even or odd length, holds all the point's bytes; then it holds exactly those registers |
| RegisterReading.RunReadsMemory | protocols/modbus/modbus_tcp.go:333-385 | Against a device with fixed registers a batch of points that fit succeeds and returns each point's own registers |
| RegisterReading.SingleValueIs | protocols/modbus/modbus_tcp.go:368-381 | A point of one register reads as its word, one of two or four as the slice of its words in order |
| RegisterReading.BatchRefinesSingleReads | protocols/modbus/modbus_tcp.go:300-386 | The batch equals reading every point alone, one after the other |
| RegisterReading.BatchIsPermutation | protocols/modbus/modbus_tcp.go:318 | Whatever the unstable sort does, the answers are the configured points' own values, once each |
| RegisterReading.RunNeverFakes | protocols/modbus/modbus_tcp.go:333-385 | For any sorted points, wrapping ones included, every entry of a finished run is bad or holds its own point's registers, and then the point lies inside the register space |
| RegisterReading.AllGoodIffAllFit | protocols/modbus/modbus_tcp.go:333-385 | A batch is complete and all good exactly when every point lies inside the register space |
| RegisterReading.FewestRequests | protocols/modbus/modbus_tcp.go:335-352 | A batch sends no more requests than any split under the same tests has groups |
| CoilBatch.ReadCoilsSorted | protocols/modbus/modbus_tcp.go:497-531 | The coil loops return the result and send the requests of the coil run function |
| CoilReading.CoilGroupIsRun | protocols/modbus/modbus_tcp.go:501-514 | Each request is a run of 1 to 2000 consecutive coils, one per point, and stops before the next coil only at 2000 |
| CoilReading.CoilPlanIsOptimal | protocols/modbus/modbus_tcp.go:501-512 | No split under the driver's coil merge test has fewer groups, repeated addresses included |
| CoilReading.CoilEntriesExact | protocols/modbus/modbus_tcp.go:519-528 | Slicing a run panics exactly when the answer is shorter than the run needs; otherwise every point gets its own bit |
| CoilReading.CoilRunOutcome | protocols/modbus/modbus_tcp.go:501-531 | For any answers: one entry per point when every group is answered in full, else the run stops at the first group that is not, with the client's error or a panic |
| CoilReading.CoilRunEntry | protocols/modbus/modbus_tcp.go:519-528 | For any answers, every entry of a finished run is the bit at its own coil's place in the answer to its own group's request |
| CoilReading.CoilBatchRefinesSingleReads | protocols/modbus/modbus_tcp.go:497-531 | The coil batch equals reading every coil alone, for any multiset of addresses |
| ModbusBatch.ReadCoilsBatch | protocols/modbus/modbus_tcp.go:478-532 | A bad address ends the call before any request; otherwise the result is a coil run over a sorted permutation of the points |
| ModbusBatch.ReadBatch | protocols/modbus/modbus_tcp.go:271-297 | Function codes 01, 02 and 04 go to their readers and all else to holding registers, ids being the addresses and the format dropped |
| ModbusBatch.BatchReadsTheDevice | protocols/modbus/modbus_tcp.go:271-297 | Over devices with fixed contents and for addresses that parse, a batch under any function code holds each point's own register, coil or input under its own address, once per point |
| ModbusBatch.BadAddressSendsNothing | protocols/modbus/modbus_tcp.go:310-317 | With a bad address the batch ends in the error of the first one and sends nothing, under every function code |
| ModbusBatch.FormattedBatchReads | protocols/modbus/modbus_tcp.go:300-386 | With formats, points of any id and width inside the register space get exactly their own registers, once per point |
| ModbusBatch.CoilBatchReads | protocols/modbus/modbus_tcp.go:478-532 | Coils of any id get exactly their own bit, once per point |
| Packing.WriteMultipleCoils | protocols/modbus/modbus_tcp.go:231-241 | Bit i is bit i mod 8 of byte i / 8, the padding bits are zero, and the quantity is the length mod 65536 (section 6.11 of MODBUS V1.1b3) |
| Packing.PackingIsUnique | protocols/modbus/modbus_tcp.go:231-241 | That description leaves one payload only |
| Packing.UnpackCoils | protocols/modbus/modbus_tcp.go:122-128 | The read side yields the first quantity bits, or panics exactly when the answer is short |
| Packing.BitIsDigit | protocols/modbus/modbus_tcp.go:123-127 | Bit k of a byte is its binary digit k, the lowest being digit 0 |
| Packing.BitsRoundTrip | protocols/modbus/modbus_tcp.go:122-127 | Unpacking a packed list gives it back, cut to the truncated quantity, for every length |
| Packing.WriteMultipleRegisters | protocols/modbus/modbus_tcp.go:243-250 | The payload is the words, high byte first, in order |
| Packing.UnpackRegisters | protocols/modbus/modbus_tcp.go:182-186 | The read side yields quantity words of the answer and of the bytes behind it up to its capacity, or panics exactly when even those do not suffice |
| Packing.SpareIsIgnoredIff | protocols/modbus/modbus_tcp.go:182-186 | What lies behind the answer decides nothing exactly when the answer is long enough |
| Packing.WordsRoundTrip | protocols/modbus/modbus_tcp.go:182-186 | Unpacking packed words, whatever lies behind them, gives them back, cut to the truncated quantity |
| OutboundQueue.OutboundQueue.constructor | uplink/sparkplugb/queue.go:29-32 | A new queue holds whatever LoadAll returned, failed or not |
| OutboundQueue.OutboundQueue.Enqueue | uplink/sparkplugb/queue.go:34-39 | The message is appended, and stored under its id unless Save fails |
| OutboundQueue.OutboundQueue.Process | uplink/sparkplugb/queue.go:41-60 | Queue and storage become what one pass leaves, for any outcomes of publish and Delete |
| OutboundQueue.PassConserves | uplink/sparkplugb/queue.go:45-58 | Every message of a pass is delivered, dropped or kept exactly once |
| OutboundQueue.PassIsExact | uplink/sparkplugb/queue.go:45-58 | Delivered are exactly the messages the broker took; kept, with Retry one higher, exactly the others still below the limit then; dropped exactly the rest |
| OutboundQueue.PassCleansStorage | uplink/sparkplugb/queue.go:55-57 | Storage loses exactly the ids both delivered and deleted |
| OutboundQueue.PassKeepsOrder | uplink/sparkplugb/queue.go:45-59 | Survivors, delivered and dropped messages each keep queue order |
| OutboundQueue.QueueDrains | uplink/sparkplugb/queue.go:41-60 | max(1, maxRetry - low) passes with nothing enqueued empty a queue whose Retry values are at least low, whatever the broker does |
| OutboundMachine.StepKeeps | uplink/sparkplugb/queue.go:29-60 | Every step, crash and restart included, keeps the delivery invariant, each pass with a maxRetry of its own up to a bound |
| OutboundMachine.NothingIsLost | uplink/sparkplugb/queue.go:29-60 | Over any run with crashes, a saved and never published message stays in storage unchanged and is queued again by a restart that loads everything |
| OutboundMachine.RequeuedIff | uplink/sparkplugb/queue.go:29-60 | After such a restart a message enqueued and never published is queued again exactly when its Save had succeeded |
| OutboundMachine.DroppedReturnsIff | uplink/sparkplugb/queue.go:49-54 | In any run a message dropped since the last restart comes back with the next one that loads everything, as enqueued, exactly when its Save had succeeded |
| OutboundMachine.AtMostOncePerIncarnation | uplink/sparkplugb/queue.go:29-60 | No message is successfully published more than 1 + crashes times |
| OutboundMachine.DeliveryBoundIsReached | uplink/sparkplugb/queue.go:46-56 | For every n and every maxRetry some run with n crashes, each between a publish and its Delete, publishes a message n + 1 times |
| OutboundMachine.AttemptsAreBounded | uplink/sparkplugb/queue.go:47-51 | Attempts since the last restart are at most max(1, maxRetry - Retry), for the highest maxRetry of any pass |
| OutboundMachine.ExactlyOnePlace | uplink/sparkplugb/queue.go:41-60 | Without a crash every enqueued message is held, delivered once or dropped once, never two of these |
| OutboundMachine.DroppedMessageReturns | uplink/sparkplugb/queue.go:49-54 | Such a run exists: a saved message is dropped after its last retry, the queue is empty, and a restart queues it with its first Retry |
| OutboundMachine.ProcessRefinesMachine | uplink/sparkplugb/queue.go:41-60 | What Process does is an uninterrupted run of the machine |
| EdgeRules.ExtractAggregateRules | config/edge_rule_loader.go:52-62 | The nested loops return the groups' rules in order, with device and type overwritten |
| EdgeRules.ExtractAlarmRules | config/edge_rule_loader.go:65-75 | The same for alarm rules |
| EdgeRules.EachAggregateKept | config/edge_rule_loader.go:52-62 | Rule j of group i comes out after all rules of earlier groups, with its group's device, the kind aggregate, and every other field as configured |
| EdgeRules.EachAlarmKept | config/edge_rule_loader.go:65-75 | The same for alarm rules |
| RuleEngine.PointBuffer.AddValue | types/edge_rule.go:44-49 | Adding a value moves the buffer as the window function says |
| RuleEngine.PointBuffer.Average | types/edge_rule.go:51-60 | The loop returns the average of the buffer, 0 when empty |
| SlidingWindow.AvgBounds | types/edge_rule.go:51-60 | The average of a non-empty window lies between any bounds on its values |
| SlidingWindow.AvgIsMean | types/edge_rule.go:51-60 | The average times the number of values is their sum, which adds up over any cut, is the value on a single one, and gives 0 on none |
| SlidingWindow.BuffersHoldTheLast | types/edge_rule.go:44-49 | For any stream of samples a buffer exists exactly for the keys offered, and holds the last max(0, size) values, size being the Window of the rule that made it |
| RuleEngine.RuleEngine.constructor | edgecompute/rule_engine.go:24-31 | A new engine has the given rules, no buffers and no alarms |
| RuleEngine.RuleEngine.TakeSample | edgecompute/rule_engine.go:49-54 | A sample goes to the buffer of its key, created when missing, and to no other |
| RuleEngine.RuleEngine.ApplyRules | edgecompute/rule_engine.go:34-98 | The buffers take exactly the samples the rules offer, in order, and LastAlarms becomes exactly the triggered alarms |
| RuleEngine.RuleEngine.Reload | main.go:520-524 | A reload replaces the rules and leaves buffers and alarms |
| RuleRuns.KeysCollideIff | edgecompute/rule_engine.go:40 | Two devices can share a buffer key exactly when one id continues the other after a dot |
| RuleRuns.WindowsAreExact | edgecompute/rule_engine.go:38-59 | After any run and reloads the buffer of a device's point holds exactly the last samples of that point, each once per rule on it, when no applied device id continues this one after a dot or the other way round |
| RuleRuns.WindowsAreExactWithoutDots | edgecompute/rule_engine.go:38-59 | The same when no device id contains a dot |
| RuleRuns.FlattenedWindowsAreGrouped | config/edge_rule_loader.go:52-62 | The rules on a device's point are those its own groups configure for it, in order, whatever device the rules themselves carry |
| RuleRuns.CycleOffersAgain | main.go:481-484 | Anywhere in a run, one cycle adds a sample to its window once per function group from its own on, each time once per rule in force |
| RuleRuns.FlattenedAlarmsAreGrouped | config/edge_rule_loader.go:65-75 | Flattening groups and filtering by device equals concatenating that device's groups |
| RuleRuns.ConditionSees | edgecompute/rule_engine.go:69-84 | What a condition is evaluated on, by Go type: seven number types as float64, everything else as it is |
| RuleRuns.AlarmsAreExact | edgecompute/rule_engine.go:36-98 | After any run LastAlarms is the in-order list of triggered alarms of the last device applied, under the configuration of that call |
| PointStore.BacnetClient.Init | protocols/bacnet/bacnet.go:50-168 | The table and both indexes are those of the configuration, later entries winning, and every index entry names a point |
| PointStore.BacnetClient.ReadBatch | protocols/bacnet/bacnet.go:215-268 | One reading per key in order, by name, then address, then id; an error when not connected |
| PointStore.BacnetClient.ReadAll | protocols/bacnet/bacnet.go:187-212 | Every point exactly once with its value or its default |
| PointStore.BacnetClient.Write | protocols/bacnet/bacnet.go:270-334 | The new table or the reason nothing was written, the panic on a nil value included |
| PointStore.BacnetClient.Close | protocols/bacnet/bacnet.go:336-341 | Only the connection flag changes |
| PointStore.BacnetClient.Reconnect | protocols/bacnet/bacnet.go:343-349 | Only the connection flag changes |
| PointRuns.ReadIs | protocols/bacnet/bacnet.go:222-266 | A key reads as the point with that name, else address, else id: its value or default, transformed unless that fails, under its name; any other key reads as bad |
| PointRuns.DefaultIs | protocols/bacnet/bacnet.go:195-203 | A point without a value reads as false for the type bool and 42.0 for any other |
| PointRuns.FieldsAreConfigured | protocols/bacnet/bacnet.go:64-115 | Each field of a point from its configuration, absent and nil ones included, and the id made of device and name when none is given |
| PointRuns.TypesAreNamed | protocols/bacnet/bacnet.go:117-139 | Each property type has exactly its configured name; any other name is no type |
| PointRuns.WriteIff | protocols/bacnet/bacnet.go:286-334 | A write to a writable point succeeds exactly for the Go type its property type takes, and anything without one; it changes that value only; otherwise the error or the panic on nil |
| PointRuns.WriteNeedsPoint | protocols/bacnet/bacnet.go:273-288 | A closed client and an unknown key refuse every write |
| PointRuns.WriteThenRead | protocols/bacnet/bacnet.go:270-334 | A failed write changes nothing; after a write every key of that point reads the new value and every other key what it read before |
| PointRuns.ReadBackExactly | protocols/bacnet/bacnet.go:247-266 | With no transform the written value itself is read back by any of the three keys; nil, which only an untyped point takes, reads as the default |
| PointRuns.RunEvolves | protocols/bacnet/bacnet.go:270-349 | Over any run points keep their identity, read-only points their value, and every value is the configured one or of the Go type its property type takes |
| PointRuns.RunConnected | protocols/bacnet/bacnet.go:336-349 | The client is open exactly when the last Close or Reconnect left it so |
| PointRuns.ClosedKeepsValues | protocols/bacnet/bacnet.go:336-349 | A closed client refuses reads and writes, and a reconnect finds every value unchanged |
| PointRuns.CoherentIff | protocols/bacnet/bacnet.go:157-163 | Each index leads to a point with that very address or id exactly when every entry whose name is taken again later has its address and id taken again later |
| PointRuns.CoherenceIsKept | protocols/bacnet/bacnet.go:270-349 | Runs neither mend nor break that |
| PointRuns.RepeatedNameBreaksIndex | protocols/bacnet/bacnet.go:157-163 | Two entries of one name with different addresses break the address index |
| DeviceRegistry.ParsersAgree | protocols/bacnet/discover.go:82-122 | Both I-Am parsers read the same device from a frame both accept, and when the second accepts what the first does |
| DeviceRegistry.FrameFields | protocols/bacnet/discover.go:82-122 | Exactly which frames each parser accepts; the device id is bytes 8 to 11 and the vendor bytes 12 and 13, high byte first |
| DeviceRegistry.KeyIsInjective | protocols/bacnet/discover.go:128 | Different device ids have different keys |
| DeviceRegistry.DecimalIsNumeral | protocols/bacnet/discover.go:128 | The number in a key is the decimal numeral of the device id, without leading zero |
| DeviceRegistry.Registry.RegisterDevice | protocols/bacnet/discover.go:125-142 | One machine step: insert and start a poller, or nothing when the key is taken |
| DeviceRegistry.Registry.InsertDevice | protocols/bacnet/discover.go:145-159 | One machine step: insert and owe a poller, or nothing when the key is taken |
| DeviceRegistry.PolledDevice.StartPolling | protocols/bacnet/discover.go:169-188 | Polling stops right after the first three failures in a row and never otherwise; FailCount is the trailing failure run and Online says whether it still polls |
| DeviceRegistry.OnePollerPerDevice | protocols/bacnet/discover.go:125-166 | Under every interleaving pollers started plus calls about to start one are 1 once the device is registered and 0 before |
| DeviceRegistry.EntriesAreTheirOwn | protocols/bacnet/discover.go:125-166 | A device's entry carries its own device id |
| DeviceRegistry.FirstHeardIsEntered | protocols/bacnet/discover.go:128-139 | A device heard first is entered with the address, id and vendor heard, online and without failures; heard again it changes nothing |
| DeviceRegistry.EntriesAreFirstHeard | protocols/bacnet/discover.go:125-166 | Under every interleaving a device is registered exactly once it was announced, and its entry is that of the first announcement |
| DeviceRegistry.RegistrationIsFinal | protocols/bacnet/discover.go:129-139 | No later run replaces the fields of the first registration; only online state and fail count move |
| DeviceRegistry.PollStateIsExact | protocols/bacnet/discover.go:169-188 | In every reachable state FailCount is the trailing failure run and a device is online exactly until its first three failures in a row |
| DeviceRegistry.FrameHeardTwice | protocols/bacnet/discover.go:125-166 | A frame both listeners accept yields one poller, in either order |
| DeviceRegistry.OfflineForever | protocols/bacnet/discover.go:129-131 | A device gone offline is never polled again, whatever is announced later |
| FormatParser.ParseIsPermutation | utils/format_parser.go:29-112 | Every format decodes the big-endian number of its bytes in a fixed order that undoes itself |
| FormatParser.EncodeThenParse | utils/format_parser.go:29-112 | Every bit pattern has an encoding in each format that decodes to it |
| FormatParser.ParseThenEncode | utils/format_parser.go:29-112 | Every input of the right length is the encoding of what it decodes to |
| FormatParser.ShortNames | utils/format_parser.go:31-40 | What INT and UINT decode to, from the two bytes; short inputs are errors |
| FormatParser.LongNamesMean | utils/format_parser.go:41-60 | What each of the four Long names decodes to, byte by byte |
| FormatParser.FloatNamesMean | utils/format_parser.go:61-84 | What each of the four Float names decodes to, byte by byte, as bit pattern |
| FormatParser.DoubleNamesMean | utils/format_parser.go:85-108 | What each of the four Double names decodes to, byte by byte, as bit pattern |
| FormatParser.OtherNamesMeanNothing | utils/format_parser.go:109-111 | No other name is a format |
| FormatParser.IntCasts | utils/format_parser.go:121-133 | What INT makes of each Go type: a word in two's complement, an int or uint cut to 16 bits |
| FormatParser.UintCasts | utils/format_parser.go:134-141 | What UINT makes of a word and of a uint |
| FormatParser.OtherCasts | utils/format_parser.go:142-150 | Otherwise bytes are parsed under the name and anything else stays as it is |
| FormatParser.ReversedFormatsAgree | utils/format_parser.go:51-110 | Full byte reversal equals word reversal followed by swapping the bytes of each word |
| FormatParser.LongCDABIsLongBADC | utils/format_parser.go:46-55 | Long CD AB and Long BA DC agree on every input |
| FormatParser.LongCDABIsRightIff | utils/format_parser.go:46-50 | Long CD AB yields the word-reversed number its name promises exactly when the outer bytes are equal and the inner bytes are equal |
| FormatParser.RegisterAndBytePathsAgree | utils/format_parser.go:121-139 | INT and UINT give the same number from a register and from its two bytes |
| FormatParser.IntCastIsStable | utils/format_parser.go:122-133 | INT casting lands in the 16-bit range and changes nothing the second time |
| Collector.WidenValue | main.go:391-426 | The sequence of tests on the raw value computes the widening function |
| Collector.WidenedIs | main.go:391-426 | Which raw values become bytes under Float and Double formats, byte by byte, and which stay |
| Collector.CastIs | main.go:450-473 | Which arithmetic the Types float and int apply to which operand, by dynamic type |
| Collector.ConvertValue | main.go:390-473 | Widening, decoding and casting in turn compute the conversion function |
| Collector.MergeValues | main.go:377-480 | The nested loops blank the group's names and give each answer to the first point with that address or name |
| Collector.ReadWithRetry | main.go:93-113 | The first success of at most maxRetry attempts; one reconnect exactly when all fail, and no attempt after it |
| Gateway.GroupNames | main.go:376-386 | Every configured name is a key, other groups' values stay, and a failed read leaves its group's names nil |
| Gateway.FirstMatchIff | main.go:387-389 | An answer goes to the first point that has its id as address or name |
| Gateway.NoMatchIff | main.go:387-389 | And to none exactly when no point has |
| Gateway.NoAnswerIsNil | main.go:376-480 | For any answers, a configured name none of them goes to ends as nil |
| Gateway.LastAnswerWins | main.go:387-480 | Of several answers that go to one name the last one is converted and kept |
| Gateway.MergeGivesOwn | main.go:387-480 | When names are distinct and none is another point's address, a name holds the conversion of its own answer if its point is the first on its address, and nil if it is not or had no answer, in whatever order answers come |
| Gateway.EachReachedIff | main.go:387-389 | Every point is reached by the answers under its address exactly when no two points share one |
| Gateway.SecondOnAddressStaysNil | main.go:387-389 | Of two points on one address the second stays nil unless answered by name |
| Gateway.ContentsReachTheirNames | main.go:376-480 | From a device to named values, for every function code: each name ends with the conversion of what the device holds at its own address, or nil when an earlier point is on the same address |
| Gateway.BadIsNil | main.go:390-476 | A point the driver calls bad ends as nil, whatever its format and Type |
| Gateway.OneBadAddressLeavesNils | main.go:376-386 | A group with one address that does not parse gets no values and sends nothing |
| Gateway.RegistersHoldFormat | protocols/modbus/modbus_tcp.go:320-329 | For every known format the driver reads as many registers as the format has pairs of bytes |
| Gateway.RegisterDecodes | main.go:412-432 | The value of every register under every format |
| Gateway.RegisterConverts | main.go:390-473 | And under every Type: what a point read as one register ends as |
| Gateway.FloatIsRightIff | main.go:412-432 | A Float point read through one register decodes to the value of its two registers exactly when the second is zero |
| Gateway.TwoRegistersMakeFloat | main.go:391-397 | Two answered registers decode as one Float AB CD, the first being the high half |
| Gateway.LongStaysRaw | utils/format_parser.go:142-150 | A Long point read through one register keeps it undecoded |
| Gateway.DoubleStaysRaw | main.go:398-405 | So does a Double point |
| Gateway.IntIsRight | utils/format_parser.go:122-128 | An INT point is its register in two's complement |
| Pipeline.SampledIff | main.go:450-473 | A point read as one register reaches the rules as a float64 exactly when its Type is "float", its Format is not UINT and, if it starts like a Float, is a known one |
| Pipeline.TurnValue | main.go:376-480 | The map handed to the rules after any number of function groups has a name exactly from the first group with it on, with what the last group with it that was read left: the conversion of its own contents, or nil after a failed read |
| Pipeline.WindowsHoldContents | main.go:376-484 | Over any run of collection cycles with any number of function groups, other devices and reloads, the window of a name holds exactly the last converted contents of its own address, one for each call from its group on and each rule in force |
| Pipeline.CycleSamples | main.go:376-484 | A full cycle anywhere in a run adds what was read for a point of group g alone, if a float64, once for each group from g on and each rule in force, and otherwise nothing |
| Pipeline.NeverSampled | edgecompute/rule_engine.go:45-48 | A name under which there are only points whose Type is not "float", such as float64, coils, discrete inputs, or points not first on their address, never enters a window on this path |

## Left out

- Sockets, connecting, timeouts and the single-read wrappers that reconnect once: the batch readers call the raw client, whose answers are a parameter; a client that is nil is not modelled.
- Expression evaluation: a parameter of alarms and of BACnet transforms.
- Collector.ConvertValue: Float and Double values are bit patterns, and the arithmetic of the Type conversion (rounding, widening, reading a number out of a text) is a parameter, so its rounding errors are not captured.
- RuleEngine.PointBuffer.Average: sums over real numbers, so the rounding of float64 addition is not captured.
- Linkage rules: they only print, so neither their extraction nor their evaluation is modelled.
- PointStore.BacnetClient.Init: object type, instance, description, access, format, unit and property are copied and never used, so the model has no such fields; names are texts.
- Lack of synchronisation: the rule engine and one Modbus client are shared by goroutines without a lock in the source; here their calls come one at a time.
- A storage that returns on restart messages it was not given, or one message twice, and a queue without storage.
- Point templates written to YAML after registration, which need no more than grouping by object type.
- Uplink senders, Sparkplug payloads, TLS reload, configuration loading, the API server, the CLI, the other drivers and the frontend: I/O, stubs and configuration.
