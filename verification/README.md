# Verification of the bridge, the benchmark and the environment exporter

A Dafny 4.11 model of the parts of this repository that carry state or structure, with proofs of what
they promise. `dafny verify dfyconfig.toml` checks all of it.

- **Message copier** (`Messages`, `Conversion`, `Arrival`, `ArrivalBack`, `ConversionFrame`, `RoundTrip`,
  `LcmRoundTrip`, `Overwriting`, `DimosConversion`, `MessageObjects`, `ObjectCopy`, `ObjectCopyBack`,
  `ObjectRoundTrip`). Messages are trees of attributes, and classes, imports and default instances are a
  parameter. `Conversion` states the two recursive copies
  as functions on trees, errors included; `Arrival` and `ArrivalBack` say field by field what they leave in
  the target and what they raise; the round trips, the framing and the length companions are
  proved about those; `ObjectCopy` and `ObjectCopyBack` are the in-place copies on mutable objects,
  proved to have the effect of the functions.
- **Ping-pong protocol** (`PingPong`). The measuring loop, `on_pong`, the clock and a network that loses,
  delays and repeats pongs take interleaved steps; results hold for every run. Callbacks read the clock,
  take the lock, store and set the event in separate steps.
- **Statistics** (`Moments`, `Statistics`, `Intervals`) in exact arithmetic, and the byte codec (`Codec`).
- **Buses** (`DdsListener`, `DdsBus`, `DdsInterleaving`, `RosBus`, `Discovery`, `Transport`,
  `Participants`). Classes whose methods are proved against functions of the old state, and results over every run of those functions.
  Objects compared by identity are numbers.
- **Environment exporter** (`ShellExport`), against an evaluator of the POSIX shell quoting it is written
  in (POSIX.1-2017, Shell Command Language, sections 2.2.2, 2.2.3 and 2.14). Text that the evaluator does
  not cover evaluates to nothing, so each result also says that the exported text is covered.
- **G1 dead-man timer** (`DeadMan`). Serialised calls, with timer threads running between and inside them.
- **Image geometry** (`Geometry`).

Where the code does not keep a promise, a lemma says exactly when it does, and another gives a case where
it does not: a ROS field written to an attribute that a later field is written to
(`ComesBackIffNoOverwrite`, `CollisionHappens`), a raw ROS callback subscribed twice on one topic
(`BalancedIff`, `SharedCallbackHappens`), a DDS stop inside a subscribe (`BusRefinesIff`,
`OvertakenHappens`), a ROS transport whose backend failed to start (`RosLifeCycle`, `RaisedStartHappens`),
unguarded starts and stops of the base transport (`BaseLifeCycle`, `UnguardedHappens`), an announcement
that is running during `unsubscribe_all` (`LeavesNoneIff`, `LeftOverHappens`), and a client call or timer
start that fails after the auto-stop timer was cancelled (`CoverExactly`, `TimerGoneFirst`): the comment at
the timer promises only that it cannot fire before the move is sent.

## Model

| member | source | states |
|---|---|---|
| RoundTrip.RosRoundTrip | dimos_bridge/dimos/protocol/pubsub/impl/rospubsub_conversion.py:158-249 | A ROS message tree of any depth (nested messages, lists of messages, lists of primitives, byte strings, uint8 arrays, scalars) copied to a default LCM tree and back into a default ROS tree: neither copy raises, every path whose fields exist on both sides has its value again, every other path keeps the default. Asked of fields that exist on both sides: none is written to another's attribute, or to the `X_length` of another X whose value has a length. |
| Overwriting.ComesBackIffNoOverwrite | dimos_bridge/dimos/protocol/pubsub/impl/rospubsub_conversion.py:132-249 | For a class of scalars, byte strings, uint8 arrays, lists of plain values and nested messages of such kinds, to any depth, all messages of these kinds come back if and only if at no level two fields are written to one attribute (the `nanosec`/`nsec` collision), or one to the `X_length` of a later field X of a kind that has a length. |
| Overwriting.LostWithField | dimos_bridge/dimos/protocol/pubsub/impl/rospubsub_conversion.py:132-249 | A message comes back only if each message in it does. |
| Overwriting.CollisionHappens | dimos_bridge/dimos/protocol/pubsub/impl/rospubsub_conversion.py:55-57 | A class declaring `nanosec` and then `nsec`, and a message of it that does not come back. |
| RoundTrip.MirroredComesBack | dimos_bridge/dimos/protocol/pubsub/impl/rospubsub_conversion.py:158-249 | When every field exists on both sides, at every depth, the very same message comes back. |
| LcmRoundTrip.LcmComesBack | dimos_bridge/dimos/protocol/pubsub/impl/rospubsub_conversion.py:158-249 | The other way round, an LCM message copied to a ROS instance and back is the same message, its length companions included. |
| Arrival.CopyArrives | dimos_bridge/dimos/protocol/pubsub/impl/rospubsub_conversion.py:132-207 | For every message in which no field is written to what another one is written to: the copy raises exactly the error of the first field that cannot be copied; if there is none, every declared field the target has arrived under its own name, `nanosec` under `nsec`, plain values as they are, uint8 arrays as bytes, messages and list items to any depth; each `X_length` that no field goes to is the length of its X, and everything else keeps its default. |
| Arrival.RaisedAt | dimos_bridge/dimos/protocol/pubsub/impl/rospubsub_conversion.py:158-207 | When a field cannot be copied, the fields before it have arrived, those after it are not looked at, and its own attribute changes only if a message was being copied into it. |
| ArrivalBack.CopyFills | dimos_bridge/dimos/protocol/pubsub/impl/rospubsub_conversion.py:132-155 | The other direction, for any two messages whose classes declare each name once: the copy raises exactly the error of the first field that cannot be filled, and if there is none every declared field has what the LCM side holds under its name, `nanosec` what it holds under `nsec`, to any depth, and the fields it lacks keep their value. |
| ArrivalBack.FillRaisedAt | dimos_bridge/dimos/protocol/pubsub/impl/rospubsub_conversion.py:210-249 | What has been filled when that copy raises. |
| ArrivalBack.ItemClasses | dimos_bridge/dimos/protocol/pubsub/impl/rospubsub_conversion.py:266-316 | With the usual modules, a list item of ROS package p and name N becomes one of `dimos_lcm.p.N`, and that one of `p.msg.N` again, with or without the hint. |
| ArrivalBack.OtherItemClasses | dimos_bridge/dimos/protocol/pubsub/impl/rospubsub_conversion.py:179-184 | An item is like the first element that the target list holds, or of the class the type hint names. |
| ArrivalBack.ItemErrors | dimos_bridge/dimos/protocol/pubsub/impl/rospubsub_conversion.py:266-316 | A class that cannot be imported, and an LCM class with no package in its module path, raise. |
| ArrivalBack.PlainElements | dimos_bridge/dimos/protocol/pubsub/impl/rospubsub_conversion.py:181-183 | The class call on a plain element gives the false value of its type. |
| DimosConversion.DimosComesBack | dimos_bridge/dimos/protocol/pubsub/impl/rospubsub_conversion.py:319-376 | `ros_to_dimos` undoes `dimos_to_ros`, for simple types and for the types that go through an LCM encoding, provided decoding undoes encoding. |
| DimosConversion.RosRestored | dimos_bridge/dimos/protocol/pubsub/impl/rospubsub_conversion.py:319-376 | For a simple type, `dimos_to_ros` after `ros_to_dimos` restores the ROS message on every path that the dimos type has. |
| DimosConversion.DimosToRosFills | dimos_bridge/dimos/protocol/pubsub/impl/rospubsub_conversion.py:319-347 | A dimos message, or for the four encoded types what its octets decode to, fills the ROS message field by field, or the error of the first field that cannot be filled is raised. |
| DimosConversion.RosToDimosArrives | dimos_bridge/dimos/protocol/pubsub/impl/rospubsub_conversion.py:350-376 | A ROS message arrives field by field in a message of the dimos class, or for the four encoded types of its LCM class, whose octets are then decoded; or the error of the first field that cannot be copied is raised. |
| DimosConversion.NoLcmClass | dimos_bridge/dimos/protocol/pubsub/impl/rospubsub_conversion.py:319-376 | The four encoded types raise when their LCM class cannot be imported. |
| ConversionFrame.CopyKeepsLengths | dimos_bridge/dimos/protocol/pubsub/impl/rospubsub_conversion.py:158-207 | If every `X_length` in an LCM tree is the length of its `X`, that is so in the whole tree after a copy into it, also after one that raises midway, provided no ROS field maps to a companion and no message to an attribute that an earlier field is written to. |
| ConversionFrame.UnmappedUnchanged | dimos_bridge/dimos/protocol/pubsub/impl/rospubsub_conversion.py:132-207 | LCM attributes that no ROS field maps to, and that are no companion of such an attribute, keep their value whether the copy returns or raises. |
| ConversionFrame.UnsentUnchanged | dimos_bridge/dimos/protocol/pubsub/impl/rospubsub_conversion.py:132-155 | In the other direction ROS attributes that are not declared, or whose LCM name the source lacks, keep their value, and the class and the set of attributes stay, whether the copy returns or raises. |
| RoundTrip.FieldUntouched | dimos_bridge/dimos/protocol/pubsub/impl/rospubsub_conversion.py:141-155 | The lazily read target value of a field is still the initial one when its turn comes: the fields handled before leave it alone. |
| MessageObjects.Message.Set | dimos_bridge/dimos/protocol/pubsub/impl/rospubsub_conversion.py:188-200 | `setattr` on a message object keeps the objects a tree and changes exactly one attribute of the message it stands for. |
| MessageObjects.Instantiate | dimos_bridge/dimos/protocol/pubsub/impl/rospubsub_conversion.py:266-316 | Calling a message class gives fresh objects that stand for its default message. |
| ObjectCopy.CopyRosToLcm | dimos_bridge/dimos/protocol/pubsub/impl/rospubsub_conversion.py:158-207 | The in-place recursive copy on objects: the target, its nested objects filled in place and its lists replaced by fresh objects, stands for the tree `RosToLcm` gives, with the same error if one is raised; only target objects are modified, so the source is unchanged. |
| ObjectCopy.CopyFieldToLcm | dimos_bridge/dimos/protocol/pubsub/impl/rospubsub_conversion.py:167-207 | One turn of the loop on objects: skip, copy by kind, then bring the length companion up to date. |
| ObjectCopy.CopyListInto | dimos_bridge/dimos/protocol/pubsub/impl/rospubsub_conversion.py:174-191 | A list of messages becomes a list of fresh, pairwise disjoint objects, or the target list stays as it was when an element raises. |
| ObjectCopy.PlainItems | dimos_bridge/dimos/protocol/pubsub/impl/rospubsub_conversion.py:181-187 | Copying messages into a list of plain values copies nothing: the new list holds one default plain value per message, or the class call raises. |
| ObjectCopyBack.CopyLcmToRos | dimos_bridge/dimos/protocol/pubsub/impl/rospubsub_conversion.py:210-249 | The reverse in-place copy stands for the tree `LcmToRos` gives, with the same error; the source is unchanged. |
| ObjectRoundTrip.ThereAndBack | dimos_bridge/dimos/protocol/pubsub/impl/rospubsub_conversion.py:158-249 | The two in-place copies one after the other, on three object trees without common objects: neither raises, the source is as it was, and the last object stands for what was sent on every path that exists on both sides. |
| ObjectRoundTrip.SentSeparable | dimos_bridge/dimos/protocol/pubsub/impl/rospubsub_conversion.py:158-249 | What a copy sends can be copied back without handing any message object over by reference. |
| ObjectCopyBack.CopyListToRos | dimos_bridge/dimos/protocol/pubsub/impl/rospubsub_conversion.py:226-237 | A list of LCM messages becomes a list of fresh ROS objects of the class named in the type hint, else of the class derived from the LCM module path. |
| PingPong.StepInv | scripts/bench/pingpong.py:278-320 | Every step of the main loop, the clock, the network and `on_pong` keeps the invariant that ties the shared variables, the lists and the pacing together. |
| PingPong.SamplesAreTrue | scripts/bench/pingpong.py:263-320 | In every interleaving with lost, late and repeated pongs, sample k is the clock at a delivery of a pong for ping k, and t0(k) <= t1(k) <= t0(k+1). |
| PingPong.OutcomeExactly | scripts/bench/pingpong.py:289-320 | Each iteration k ends by giving up its wait, and is then a timeout, or by reading: it is a sample exactly if a pong for ping k was accepted before, taken at the clock of the last one that was; its send time is the clock at its stamping step. |
| PingPong.AnyPattern | scripts/bench/pingpong.py:289-320 | For every choice of pings that come back in time there is a run to the end that has samples for exactly these, whatever the interval. |
| PingPong.ListsAreTheLog | scripts/bench/pingpong.py:296-320 | `rtt_ns`, `pub_ns` and `arrival_ns` are exactly the samples and sends of the iterations after warm-up, in order, with arrivals never decreasing. |
| PingPong.WokenWithoutSample | scripts/bench/pingpong.py:309-315 | The branch `t1 is None` is reached only when a pong for the previous ping set the event between the clear and the arming; it then costs one timeout and records no sample. |
| PingPong.WokenWithoutSampleHappens | scripts/bench/pingpong.py:293-315 | A run of two pings in which that happens. |
| PingPong.Accounting | scripts/bench/pingpong.py:289-320 | At the end of every run the number of sends is `samples`, round trips and arrivals are `samples` minus the timeouts after warm-up, and samples <= recorded + timeouts <= warmup + samples. |
| PingPong.Paced | scripts/bench/pingpong.py:114-121 | If sleep never returns early, consecutive entries of `pub_ns` are at least the interval apart in every run. |
| Statistics.OrderDoesNotMatter | scripts/bench/pingpong.py:33-54 | The report is the same for any order of the samples. |
| Statistics.PctBetween | scripts/bench/pingpong.py:37-44 | The interpolated percentile lies between the two order statistics next to its rank. |
| Statistics.PctMonotone | scripts/bench/pingpong.py:37-44 | The percentile is monotone in p. |
| Statistics.PctInterpolates | scripts/bench/pingpong.py:37-44 | With n samples in order, the percentile goes in a straight line from sample k at p = 100 k/(n - 1) to the next. |
| Statistics.PctAtSample | scripts/bench/pingpong.py:37-44 | It is sample k there. |
| Statistics.ReportPicks | scripts/bench/pingpong.py:46-49 | Where the three percentiles fall on samples, the report gives these, in microseconds. |
| Statistics.ReportMedian | scripts/bench/pingpong.py:37-47 | p50 is the middle sample, or the mean of the two in the middle. |
| Statistics.ReportExtremes | scripts/bench/pingpong.py:50-51 | min and max are the least and the greatest sample. |
| Statistics.ReportMean | scripts/bench/pingpong.py:52 | The mean is the sum of the samples over their number. |
| Statistics.PercentilesShift | scripts/bench/pingpong.py:36-49 | Adding a constant to all samples adds it to every percentile. |
| Statistics.PercentilesOrdered | scripts/bench/pingpong.py:46-54 | min <= p50 <= p95 <= p99 <= max in every report. |
| Statistics.ReportSpread | scripts/bench/pingpong.py:50-53 | stdev squared <= (max - mean)(mean - min). |
| Statistics.SortCorrect | scripts/bench/pingpong.py:36 | The sorted samples ascend and are the samples. |
| Moments.SpreadBound | scripts/bench/pingpong.py:52-53 | The same bound for any list whose entries lie between lo and hi. |
| Moments.VarianceAndMean | scripts/bench/pingpong.py:52-53 | The variance and the square of the mean add up to the mean of the squares. |
| Intervals.Filter | scripts/bench/pingpong.py:165-171 | The jitter loop computes the recurrence over the changes of the gaps. |
| Intervals.IntervalSeriesStats | scripts/bench/pingpong.py:152-188 | The report of a series is made of its gap percentiles, the percentiles of the deviations from the target or the median, and the filtered jitter. |
| Intervals.SeriesIs | scripts/bench/pingpong.py:152-188 | The count, the percentiles of the gaps, those of the distances from the target or else from the median gap, the jitter of the second differences of the timestamps, and the target. |
| Intervals.SmoothIsWeightedSum | scripts/bench/pingpong.py:165-171 | The 1/16 recurrence of RFC 3550, section 6.4.1 and appendix A.8, is a sum of the changes weighted by (1/16)(15/16)^age. |
| Intervals.SmoothApproaches | scripts/bench/pingpong.py:168-170 | While the changes stay the same, the distance of the filter from them shrinks by a sixteenth each time. |
| Intervals.SmoothMonotone | scripts/bench/pingpong.py:168-170 | The filter is monotone in every change. |
| Intervals.SmoothBounds | scripts/bench/pingpong.py:168-170 | The filter stays between zero and the largest change. |
| Intervals.JitterWithinRange | scripts/bench/pingpong.py:152-188 | The reported jitter is at most the series' largest gap minus its smallest. |
| Intervals.MeanGap | scripts/bench/pingpong.py:154-155 | The mean gap is (last - first)/(n - 1). |
| Intervals.PacedReport | scripts/bench/pingpong.py:114-121 | For every run of the loop, the smallest reported publish interval is at least the target. |
| Intervals.PacedRunDeviations | scripts/bench/pingpong.py:153-159 | For a target of whole nanoseconds, the reported percentiles of |gap - target| of a run are the gap percentiles minus the target. |
| Codec.PatternIsData | scripts/bench/pingpong.py:105-111 | Block repetition plus remainder is the sequence i mod 256 of `make_data_bytes`. |
| Codec.DataBytesAt | dimos_bridge/dimos/protocol/pubsub/benchmark/testdata.py:40-42 | `make_data_bytes(size)` has size entries, entry i being i mod 256, and is empty for a size below one. |
| Codec.HeaderReads | scripts/bench/pingpong.py:757-760 | For every sequence number below 2^32 and time below 2^64, reading the `<IQ` header gives both back, whatever follows, and the rest is what follows. |
| Codec.HeaderWrites | scripts/bench/pingpong.py:724-727 | Conversely any blob of at least twelve octets is the packing of what is read off it, followed by its rest; shorter ones are ignored. |
| Codec.HeaderOctets | scripts/bench/pingpong.py:724-727 | The header is the number in four octets and the time in eight, the lowest octet first. |
| Codec.HeaderFits | scripts/bench/pingpong.py:724-727 | Packing raises exactly for a number or a time that does not fit. |
| Codec.UnpackPacked | scripts/bench/pingpong.py:538-586 | Packing and unpacking a multiarray of either kind gives the blob back. |
| Codec.PackedForms | scripts/bench/pingpong.py:538-586 | A byte multiarray holds one bytes object per octet, a uint8 multiarray the octets; a byte reader takes both, a uint8 reader fails on bytes objects. |
| Codec.PingComesBack | scripts/bench/pingpong.py:738-760 | A ping of any size and kind is read back with its number, its time and all payload octets; its length is the size asked for, but never under twelve. |
| DdsListener.Listener.AddCallback | dimos_bridge/dimos/protocol/pubsub/impl/ddspubsub.py:63-66 | Registration appends. |
| DdsListener.Listener.RemoveCallback | dimos_bridge/dimos/protocol/pubsub/impl/ddspubsub.py:68-71 | Removal filters out every registration of that callback; the next three rows say what filtering keeps. |
| DdsListener.RemovesOne | dimos_bridge/dimos/protocol/pubsub/impl/ddspubsub.py:68-71 | A callback registered once goes, and the others stay in their order. |
| DdsListener.WithoutParts | dimos_bridge/dimos/protocol/pubsub/impl/ddspubsub.py:68-71 | Removal goes entry by entry, so order and multiplicity of the others are kept. |
| DdsListener.WithoutCounts | dimos_bridge/dimos/protocol/pubsub/impl/ddspubsub.py:68-71 | Every other callback stays registered as often as it was. |
| DdsListener.Listener.OnDataAvailable | dimos_bridge/dimos/protocol/pubsub/impl/ddspubsub.py:73-86 | The dispatch loops, with arbitrary registrations and removals by callbacks or other threads before each of their steps and callbacks that raise, make exactly the calls `Calls` lists and leave the registrations as the others made them; nothing happens when `take` raises. |
| DdsListener.ExactlyOnce | dimos_bridge/dimos/protocol/pubsub/impl/ddspubsub.py:80-86 | Each sample that is not None reaches exactly the registrations held when its iteration began, in order, once per registration; a None reaches nobody. |
| DdsListener.CallsInOrder | dimos_bridge/dimos/protocol/pubsub/impl/ddspubsub.py:80-86 | Every call carries the sample at its position, and samples are handed out in the order taken. |
| DdsListener.RemovedStaysRemoved | dimos_bridge/dimos/protocol/pubsub/impl/ddspubsub.py:63-86 | A callback that is not held at some step of a delivery and not added again is called for no sample whose turn comes then or later. |
| DdsListener.AddedIsCalled | dimos_bridge/dimos/protocol/pubsub/impl/ddspubsub.py:63-86 | A callback added during a delivery and not removed is called for every sample whose turn comes then or later. |
| DdsListener.TurnComes | dimos_bridge/dimos/protocol/pubsub/impl/ddspubsub.py:80-86 | The turn of a sample comes after one step for each real sample before it and one for each call they led to. |
| DdsListener.QuietDelivery | dimos_bridge/dimos/protocol/pubsub/impl/ddspubsub.py:73-86 | While nobody registers or removes, each real sample goes to all registrations in order, whichever of them raise. |
| DdsBus.DDS.GetWriter | dimos_bridge/dimos/protocol/pubsub/impl/ddspubsub.py:104-110 | A topic's writer is made once and then found again; without a participant the call raises. |
| DdsBus.DDS.GetListener | dimos_bridge/dimos/protocol/pubsub/impl/ddspubsub.py:120-130 | Readers and listeners have equal keys, each listener carries its topic, no reader is shared by two topics and an existing one is never replaced. |
| DdsBus.DDS.Subscribe | dimos_bridge/dimos/protocol/pubsub/impl/ddspubsub.py:132-136 | On the abstract map from topic to callbacks, subscribe appends, and a reader is made only for a topic that has none. |
| DdsBus.DDS.UnsubscribeCallback | dimos_bridge/dimos/protocol/pubsub/impl/ddspubsub.py:138-143 | On the abstract map, the handle filters out that callback of that topic and changes nothing else. |
| DdsBus.DDS.Stop | dimos_bridge/dimos/protocol/pubsub/impl/ddspubsub.py:145-152 | Stop empties the map, the readers and the writers. |
| DdsInterleaving.NextInv | dimos_bridge/dimos/protocol/pubsub/impl/ddspubsub.py:104-152 | In every interleaving of the locked steps the tables hold exactly the readers and writers made since the last stop, and at most one reader and one writer per topic are made between two stops. |
| DdsInterleaving.StepRefines | dimos_bridge/dimos/protocol/pubsub/impl/ddspubsub.py:132-148 | Every step does to the abstract map what it should, except exactly a subscribe that a stop overtook between its two steps, whose callback is lost. |
| DdsInterleaving.BusRefinesIff | dimos_bridge/dimos/protocol/pubsub/impl/ddspubsub.py:120-148 | What samples can reach is the abstract map throughout a run if and only if no stop falls inside a subscribe in it. |
| DdsInterleaving.BusRefines | dimos_bridge/dimos/protocol/pubsub/impl/ddspubsub.py:120-148 | In particular it is the abstract map at the end of every run without such a stop. |
| DdsInterleaving.OvertakenHappens | dimos_bridge/dimos/protocol/pubsub/impl/ddspubsub.py:132-148 | After any run, a stop between the two steps of a subscribe leaves its callback on no reader of the bus. |
| DdsInterleaving.SubscribeWorks | dimos_bridge/dimos/protocol/pubsub/impl/ddspubsub.py:120-136 | In every state a subscribe with nothing in between puts its callback behind the others of its topic and leaves the other topics alone. |
| DdsInterleaving.UnsubscribeWorks | dimos_bridge/dimos/protocol/pubsub/impl/ddspubsub.py:137-142 | In every state a handle call with nothing in between takes its callback out from between the others of its topic. |
| DdsInterleaving.StopWorks | dimos_bridge/dimos/protocol/pubsub/impl/ddspubsub.py:144-148 | Stop leaves nothing that samples reach, and no writers. |
| DdsInterleaving.WriteWorks | dimos_bridge/dimos/protocol/pubsub/impl/ddspubsub.py:104-110 | Publishing finds the writer of its topic, or makes the one it finds from then on. |
| RosBus.RawROS.Subscribe | dimos_bridge/dimos/protocol/pubsub/impl/rospubsub.py:206-246 | A new subscription is live on the node and appended to its topic's entries; before start the call raises. |
| RosBus.RawROS.Unsubscribe | dimos_bridge/dimos/protocol/pubsub/impl/rospubsub.py:235-244 | The handle filters its topic's entries by callback and destroys its own subscription only. |
| RosBus.RawROS.Publish | dimos_bridge/dimos/protocol/pubsub/impl/rospubsub.py:180-204 | The topic's one publisher is used, made at the first publish; before start nothing happens. |
| RosBus.RawROS.Stop | dimos_bridge/dimos/protocol/pubsub/impl/rospubsub.py:134-167 | Stop leaves no node, no entries and no publishers; a second stop does nothing. |
| RosBus.DimosROS.Subscribe | dimos_bridge/dimos/protocol/pubsub/impl/rospubsub.py:290-308 | Each subscribe registers a callback of its own. |
| RosBus.UnsubscribeBalancedIff | dimos_bridge/dimos/protocol/pubsub/impl/rospubsub.py:235-244 | Calling a handle keeps live and tracked subscriptions equal if and only if no other entry of its topic has the same callback. |
| RosBus.SharedCallbackLeaks | dimos_bridge/dimos/protocol/pubsub/impl/rospubsub.py:235-244 | Any other entry with the handle's callback stays live and is forgotten. |
| RosBus.UnsubscribeTakesOut | dimos_bridge/dimos/protocol/pubsub/impl/rospubsub.py:235-244 | A handle whose callback no other entry of its topic has takes its entry out from between the others. |
| RosBus.SharedCallbackHappens | dimos_bridge/dimos/protocol/pubsub/impl/rospubsub.py:206-246 | After any run that leaves the bus started, subscribing one callback twice and calling the first handle leaves a subscription that is live and that nothing tracks. |
| RosBus.BalancedIff | dimos_bridge/dimos/protocol/pubsub/impl/rospubsub.py:118-246 | Over every run of a RawROS bus, repeated and stale handles included, live and tracked subscriptions are equal throughout if and only if every handle is called while no other entry of its topic has its callback. |
| RosBus.RawBalanced | dimos_bridge/dimos/protocol/pubsub/impl/rospubsub.py:118-246 | In particular they are equal at the end of every run whose callbacks are distinct on each topic. |
| RosBus.DimosBalanced | dimos_bridge/dimos/protocol/pubsub/impl/rospubsub.py:290-308 | Over every run of a DimosROS bus they are equal, with no condition. |
| RosBus.DimosHandleRemovesOwn | dimos_bridge/dimos/protocol/pubsub/impl/rospubsub.py:290-308 | On a DimosROS bus a handle takes away its own entry and no other. |
| RosBus.OnePublisherPerTopic | dimos_bridge/dimos/protocol/pubsub/impl/rospubsub.py:180-191 | In every run the publishers on the node are exactly one for each tracked topic. |
| RosBus.PublishersIff | dimos_bridge/dimos/protocol/pubsub/impl/rospubsub.py:180-204 | A topic has a publisher exactly if it was published to while the bus was up, with no stop since. |
| RosBus.UpIff | dimos_bridge/dimos/protocol/pubsub/impl/rospubsub.py:118-167 | There is a node exactly after a start that no stop has followed. |
| RosBus.SubscribeWorks | dimos_bridge/dimos/protocol/pubsub/impl/rospubsub.py:206-246 | Whenever the bus is up, a subscribe puts a live entry of its own behind the others of its topic and gives out its handle. |
| Transport.DDSTransport.Broadcast | dimos_bridge/dimos/core/transport.py:240-244 | A broadcast starts the backend if need be and then publishes, or raises without publishing. |
| Transport.DdsLifeCycle | dimos_bridge/dimos/core/transport.py:221-252 | Over every sequence of operations, failing starts included, backend starts and stops of a DDS transport alternate beginning with a start, and every publish and subscribe reaches a started backend. |
| Transport.ROSTransport.Start | dimos_bridge/dimos/core/transport.py:207-210 | The backend object is kept before it is started. |
| Transport.RosLifeCycle | dimos_bridge/dimos/core/transport.py:183-215 | A ROS transport keeps the same discipline in a run if and only if, whenever the first operation since the last stop raised, only start follows it. |
| Transport.StrandedIff | dimos_bridge/dimos/core/transport.py:193-215 | The backend held is one whose start raised exactly when the first operation since the last stop raised. |
| Transport.RaisedStartHappens | dimos_bridge/dimos/core/transport.py:193-210 | A start that raises, then a broadcast, which goes to a backend that is not up. |
| Transport.RosWorksSound | dimos_bridge/dimos/core/transport.py:183-215 | When backend starts succeed, every run of a ROS transport keeps it. |
| Transport.BaseLifeCycle | dimos_bridge/dimos/core/transport.py:65-98 | The base class keeps it if and only if no working start comes while started and no stop while stopped. |
| Transport.UnguardedHappens | dimos_bridge/dimos/core/transport.py:78-86 | Two starts in a row, and a stop with nothing started, do not. |
| Transport.DdsUpIff | dimos_bridge/dimos/core/transport.py:221-252 | A DDS transport and its backend are up exactly if an operation since the last stop had a working start. |
| Transport.DdsPasses | dimos_bridge/dimos/core/transport.py:221-252 | Over every run it passes to its backend, in order, exactly the broadcasts and subscribes that do not raise. |
| Transport.RosPasses | dimos_bridge/dimos/core/transport.py:183-215 | A ROS transport passes everything on while it holds a backend, and else what makes it hold a working one. |
| Transport.BasePasses | dimos_bridge/dimos/core/transport.py:65-98 | The base class passes on what a DDS transport does. |
| Participants.ParticipantsStay | dimos_bridge/dimos/protocol/service/ddsservice.py:36-70 | Over all services of the process each domain has at most one participant, whose identity never changes. |
| Participants.ParticipantIff | dimos_bridge/dimos/protocol/service/ddsservice.py:36-61 | A domain has a participant exactly if a service whose participant could be made has started in it. |
| Participants.ParticipantTable.Participant | dimos_bridge/dimos/protocol/service/ddsservice.py:63-69 | The participant of a domain is looked up, or the call raises. |
| Discovery.NewTopics.OnMsg | dimos_bridge/dimos/protocol/pubsub/spec.py:135-142 | The closure announces what `Announced` says for the stream so far. |
| Discovery.AnnouncedAll | dimos_bridge/dimos/protocol/pubsub/spec.py:133-144 | Exactly the topics of the stream are announced. |
| Discovery.AnnouncedInOrder | dimos_bridge/dimos/protocol/pubsub/spec.py:133-144 | Each of them is announced once, in the order of first appearance. |
| Discovery.EveryTopicHeld | dimos_bridge/dimos/protocol/pubsub/spec.py:133-169 | When the discovery announces topics as `subscribe_new_topics` does for a stream of messages, and every call of `on_new_topic` has subscribed, exactly the topics of the stream have a live subscription. |
| Discovery.OnePerTopic | dimos_bridge/dimos/protocol/pubsub/spec.py:133-169 | And no topic has two. |
| Discovery.SubscribeAll.UnsubscribeAll | dimos_bridge/dimos/protocol/pubsub/spec.py:171-178 | The closure and its loop, called once or again, with calls of `on_new_topic` proceeding before the copy and before each unsubscribe: it is a run of the steps, and leaves exactly the subscriptions of calls that were running at the copy. |
| Discovery.ListedInOrder | dimos_bridge/dimos/protocol/pubsub/spec.py:159-178 | Subscriptions are listed, and so undone, in the order in which their calls appended them. |
| Discovery.LeftOver | dimos_bridge/dimos/protocol/pubsub/spec.py:171-178 | After `unsubscribe_all` the subscriptions that still live are those made by calls of `on_new_topic` that were running while the list was copied. |
| Discovery.LeavesNoneIff | dimos_bridge/dimos/protocol/pubsub/spec.py:159-178 | Once every call of `on_new_topic` is through, nothing lives if and only if none was running at the last step that copied the list. |
| Discovery.QuietLeavesNone | dimos_bridge/dimos/protocol/pubsub/spec.py:159-178 | If none is running when `discovery_unsub` returns, nothing lives after `unsubscribe_all`. |
| Discovery.LeftOverHappens | dimos_bridge/dimos/protocol/pubsub/spec.py:159-178 | One announcement that is running meanwhile, whose subscription stays until `unsubscribe_all` is called again. |
| ShellExport.Process.Apply | config/env/load.py:48-53 | The items are set in order, then the names unset; at the first item that the environment refuses it raises, with the items before it set. |
| ShellExport.ExportableIsSettable | config/env/load.py:48-53 | It does not raise on shell names with NUL-free values. |
| ShellExport.SettableIff | config/env/load.py:48-53 | It raises exactly if some name is empty or has a `=` or a NUL, or some value has a NUL. |
| ShellExport.EffectsBind | config/env/load.py:49-53 | Afterwards a name is unbound if it was to be unset, else bound to its last value, else as before. |
| ShellExport.ShSingleReads | config/env/load.py:56 | For any text without NUL, reading the quoted value under POSIX quoting gives the text back and stops right after it. |
| ShellExport.LineReads | config/env/load.py:42-45 | A printed line is read as its keyword and its operand. |
| ShellExport.PrintedText | config/env/load.py:42-45 | The exact text for a value without quotes and a name to unset. |
| ShellExport.EvaluatingIsApplying | config/env/load.py:42-53 | For any NUL-free values, valid names and starting environment, evaluating the exported text gives the environment that `apply` gives, also after the final newline is stripped by command substitution. |
| DeadMan.G1.Move | dimos_bridge/dimos/robot/unitree/g1/effectors/high_level/dds_sdk.py:286-321 | Cancel, then the client call, then for a continuous move the new timer, kept before it is started, with timer threads running in between; the result is True when the call succeeded and the timer started. |
| DeadMan.MoveTells | dimos_bridge/dimos/robot/unitree/g1/effectors/high_level/dds_sdk.py:286-316 | A move tells the robot exactly one thing, if its call arrives: `Move` or `SetVelocity` with the twist's linear x and y and angular z, and the duration asked for; before and after it only stops of earlier timers reach the robot. |
| DeadMan.StopTells | dimos_bridge/dimos/robot/unitree/g1/effectors/high_level/dds_sdk.py:223-234 | A stop of a started module tells it StopMove, if the call arrives, after stops of earlier timers. |
| DeadMan.MotionsAreAsked | dimos_bridge/dimos/robot/unitree/g1/effectors/high_level/dds_sdk.py:286-316 | Over every run the robot is told exactly the motions that the moves since the first start ask for and whose calls arrive, in order, with nothing but stops between. |
| DeadMan.G1.Start | dimos_bridge/dimos/robot/unitree/g1/effectors/high_level/dds_sdk.py:149-206 | Starting makes the clients and lets the module run, and leaves commands and timers alone. |
| DeadMan.G1.Stop | dimos_bridge/dimos/robot/unitree/g1/effectors/high_level/dds_sdk.py:223-234 | Cancel, StopMove whatever its outcome, not running. |
| DeadMan.G1.CancelStopTimer | dimos_bridge/dimos/robot/unitree/g1/effectors/high_level/dds_sdk.py:216-221 | An armed timer is cancelled and forgotten; one already firing is only forgotten. |
| DeadMan.NextInv | dimos_bridge/dimos/robot/unitree/g1/effectors/high_level/dds_sdk.py:216-321 | After every call and timer step at most one timer is armed, and it is the one the module holds. |
| DeadMan.StopDisarms | dimos_bridge/dimos/robot/unitree/g1/effectors/high_level/dds_sdk.py:223-234 | After stop no timer is armed; if its StopMove arrives the robot stops. |
| DeadMan.CoverExactly | dimos_bridge/dimos/robot/unitree/g1/effectors/high_level/dds_sdk.py:216-321 | From a covered state a robot told to go on loses its auto-stop exactly at the steps `LosesCover` names, told from the state before, the client's answer and what timers already firing do meanwhile: a Move that raises after arriving; a Move that raises, a SetVelocity that does not arrive or a stop whose StopMove does not, when the robot goes on and no timer already firing has stopped it or is about to; a timer that does not start after a Move; the failing auto-stop of the only timer made since the last command. |
| DeadMan.CalledExposed | dimos_bridge/dimos/robot/unitree/g1/effectors/high_level/dds_sdk.py:216-221 | After the cancel and any timer steps the robot goes on with nothing about to stop it exactly if it went on before and no timer already firing then has stopped it or, made after the last command, has yet to. |
| DeadMan.AlwaysCovered | dimos_bridge/dimos/robot/unitree/g1/effectors/high_level/dds_sdk.py:286-321 | In every run whose client calls and timer starts succeed, with any timer firings, a robot told to go on always has a timer created after that command that will stop it. |
| DeadMan.MoveLeavesOneTimer | dimos_bridge/dimos/robot/unitree/g1/effectors/high_level/dds_sdk.py:310-318 | After a continuous move whose client call returned, one new timer is held and made after the command, and it is the only one armed, if it started. |
| DeadMan.TimerGoneFirst | dimos_bridge/dimos/robot/unitree/g1/effectors/high_level/dds_sdk.py:292-321 | Concrete runs in which a going robot loses its cover because the timer is cancelled first. |
| DeadMan.CoverStops | dimos_bridge/dimos/robot/unitree/g1/effectors/high_level/dds_sdk.py:303-316 | The covering timer, once it expires and its StopMove arrives, stops the robot with that one command, and is done. |
| Geometry.NearlySquare | dimos_bridge/dimos/protocol/pubsub/benchmark/testdata.py:45-58 | For every size from 1, height <= width <= height + 2, the height is the integer root of the number of pixels, fewer than height pixels are cut, and the payload is the pattern, with zeros behind it, of length between size - 3(height - 1) and size + 2. |
| Geometry.EmptyImage | dimos_bridge/dimos/protocol/pubsub/benchmark/testdata.py:45-58 | Without data the image has one row and no pixels. |

## Left out

- `RoundTrip.RosRoundTrip`: does not cover arrays of other element types than uint8, numpy arrays and tuples; the first two become raw bytes one way and uint8 the other.
- `Arrival.CopyArrives`: leaves out messages in which one field is written to what another one is written to; the later one wins.
- `Overwriting.ComesBackIffNoOverwrite`: lists of messages are left to the sufficient condition of `RosRoundTrip`, and fields that are messages have attributes of their own; two messages written to one attribute can both survive, if their fields differ.
- `ConversionFrame.CopyKeepsLengths`: leaves out messages written to an attribute that an earlier field is written to, and fields mapped to a companion, which overwrite it.
- `ObjectCopy.CopyRosToLcm`: asks that every nested message of the source is a ROS message; other objects would be handed over by reference.
- `MessageObjects.Message`: no attribute holds a list that mixes messages with other values; the functions on trees cover such lists, the objects do not.
- `ObjectCopyBack.CopyLcmToRos`: leaves out trees where a message object is handed over by reference, which happens where the ROS side expects no message; then the two sides share objects. What a ROS message was copied to is never such a tree (`SentSeparable`).
- `DimosConversion.DimosComesBack`: `lcm_encode` and `lcm_decode` are parameters, assumed to undo each other on the message at hand; the generated classes are not part of this model.
- Attributes that `hasattr` finds on Python built-ins, properties with side effects, aliasing of list objects, and the caches of imported types, which are transparent.
- The regular expression over a type hint: a hint is modelled as the package and name found in it.
- `PingPong.SamplesAreTrue`: assumes a topic fresh to the case; cross-host runs that share one prefix restart their numbers on a topic where old pongs may arrive.
- `PingPong.StepInv`: the two measuring loops differ only in how a ping is packed; the packing is in `Codec`.
- `Statistics.ReportSpread`: states the bound on the variance; the square root and all floating-point rounding are left out, also in the pacing arithmetic.
- `Geometry.NearlySquare`: takes the root as the exact integer square root; the floating-point root is exact for pixel counts below 2^52.
- `DeadMan.CoverExactly`: calls of `move` and `stop` are serialised; two at once can each create a timer.
- Mode selection, stand-up, arm, audio and raw API requests of the G1 module: short branch lists over foreign calls.
- `DdsListener.Listener.OnDataAvailable`: one delivery at a time, with everything else as arbitrary edits between its steps; other deliveries on the same listener are such others.
- `Transport.DdsLifeCycle`: stops are assumed not to raise; calls are serialised by the transport's lock.
- `Transport.BaseLifeCycle`: the base class is modelled on values, as functions of its flag and log.
- `Discovery.SubscribeAll.UnsubscribeAll`: one call at a time; two at once undo the same list twice.
- `Transport.RosLifeCycle`: one operation at a time; `ROSTransport` and the base class take no lock, and racing first uses are not modelled.
- `ShellExport.EvaluatingIsApplying`: names that are not shell names, which the environment mostly accepts, print text that no shell accepts; the constant chain tables and the command line are left out.
- rclpy, Cyclone DDS and Unitree SDK internals: their resources are sets of live numbers, their calls succeed or fail.
- `_subscribed_queue`, the printing of reports, document checks, runners and configuration files: input, output and short branch lists.
