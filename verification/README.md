# ShipStream: the protocols its simulations demonstrate, as proofs

ShipStream's simulations drive a Redpanda cluster to show what acknowledgements, idempotence,
retention, schema evolution and consumer groups do; its knowledge base writes the rules down. This
project models those rules and proves the simulations' claims for every run, every input and every
schema. Where a claim is false it gives the run that breaks it and the exact condition under which
it holds.

Check everything with `dafny verify dfyconfig.toml`.

## What is modelled

**A. One replicated partition** (`Replication`, `Durability`, `Idempotence`, `Ordering`, `Accounting`,
`FailureRuns`, `Traces`, `Progress`, `Cluster`). `Replication.Step` is one transition of the partition: a producer sends, a
request is delivered (any earlier one, any number of times, in any order), a follower fetches, the
leader acknowledges, a callback reports success or failure, the ISR shrinks or grows, brokers stop and
restart, a leader is elected cleanly or uncleanly. `Replication.Reach` runs any sequence of these.
Rules: knowledge-base/kafka/replication.md lines 15-60, 105-155 and 170-217,
knowledge-base/kafka/producer-delivery-guarantees.md lines 27-68 and 86-165. `Cluster.Partition` is the
same partition as an object whose methods change logs, ISR and leader in place.

**B. Storage and consumers** (`SegmentedLog`, `Retention`, `Rolling`, `Capacity`, `DiskLog`,
`ConsumerResume`, `GroupConsumer`).
`SegmentedLog.Step` appends, lets time pass and runs the cleaner over closed segments and one active
segment (knowledge-base/kafka/log-retention.md lines 68-87, 97, 137-156, 177-227). `ConsumerResume.Act`
adds a consumer group on top: join, poll, commit, leave, and the reset policy when the committed offset
is gone (the same file, lines 301-340). `DiskLog.Storage` and `GroupConsumer.Consumer` are the imperative
forms.

**C. Protobuf and its evolution** (`Varint`, `Wire`, `Schemas`, `Codec`, `Decoder`, `Merging`,
`Evolution`, `TypeChanges`, `Readability`, `Histories`, `Envelope`, `Orders`). Bytes to records, records to messages under an arbitrary
schema with nested messages, and back; then the repository's `Order` v1, `Order` v2 and `Payment`. The
standard is the Protocol Buffers Encoding specification, "Base 128 Varints", "Message Structure" and
"Last One Wins". `Decoder` is the decoding loop, proved equal to the specification function
`Codec.ParseOnto`.

**D. Two client loops and group assignment** (`Drain`, `DrainOrders`, `ProducerQueue`, `Assignment`,
`Rebalancing`).
Polling until every partition has reported its end, the producer's queues up to `flush`, and range
assignment under joins, leaves and crashes.

Every machine is a total `Step` function over a `State`, run over an arbitrary sequence of events; a
step whose guard does not hold changes nothing. Schedules (which poll times out, what the background
thread does, when a request arrives) are parameters, so "for every run" includes every interleaving.

## Assumptions the source leaves open

- A follower that fetches first drops whatever it does not share with the current leader's log.
- A stopped broker keeps its log; nothing acknowledged is lost between page cache and disk.
- The broker appends sequence number last+1, drops anything lower silently and rejects anything higher;
  a new leader rebuilds the last numbers from its log. The source says only "reorders or rejects"
  (knowledge-base/kafka/producer-delivery-guarantees.md line 165).
- "Caught up" means holding exactly the leader's log at the moment of joining. The source's rule, caught up
  within a time window, is weaker; `Durability.GuardedNoLoss` covers it whenever the follower holds what is
  acknowledged.
- With one request in flight, no copy of a request is still under way once its message has been reported.
  Only `Ordering.OneInFlightKeepsOrder` needs this; elsewhere the network may deliver late copies.
- An empty active segment never rolls, and a segment's age counts from its first record.
- `retention.bytes` counts closed segments, as in knowledge-base/kafka/log-retention.md line 207; the
  flowchart at line 217 says "partition size".
- No message reaches 2^64 bytes. A field whose wire type does not fit its kind is skipped as unknown.
- Range assignment gives the first members, in joining order, the extra partitions, as in the example of
  knowledge-base/kafka/rebalancing.md lines 26-54.
- The client library reports a partition's end only when it has handed over everything there is, and a
  group of one member keeps its assignment during a drain.

## Where the repository's text does not hold, or is made exact

- knowledge-base/kafka/replication.md line 47 lets a follower into the ISR for having fetched recently.
  That loses acknowledged messages (`FailureRuns.RecentFetchLoses`). A follower may join safely if and
  only if it holds the acknowledged prefix (`Durability.JoinGuardExact`), and runs in which all do lose
  nothing (`Durability.GuardedNoLoss`). The durable setting's rule, after
  knowledge-base/kafka/brokers-and-clusters.md line 152, implies that.
- simulations/sim_acks_comparison.py line 198 takes `confirmed - hw` for the number of lost messages.
  `Accounting.GapExact` says what it is, and that it is that number if and only if every survivor was
  confirmed; `FailureRuns.ZeroGapHidesLoss` is a run where it hides a loss.
- simulations/sim_acks_comparison.py line 229 says "confirmed = on disk". It holds as "confirmed is
  contained in what is on disk" (`Durability.ConfirmedOnDisk`). `FailureRuns.UnconfirmedOnDisk` is a run
  where the two differ, and `Accounting.GapUnderAcksAll` says exactly when they agree.
- simulations/sim_idempotence.py lines 176-184 take `hw - COUNT` for the number of duplicates. See
  `Accounting.DuplicatesExact`, which says it is that number if and only if nothing is missing, and
  `FailureRuns.ZeroDuplicatesHidesBoth`.
- simulations/sim_log_start_offset.py line 147 prints `0..first-1` as skipped after every successful
  resume. That is right if and only if nothing, or offset zero, was committed
  (`ConsumerResume.PrintedRangeExact`); in the simulation ten offsets were
  (`ConsumerResume.SimulationPrintsTooMuch`).
- simulations/sim_segment_roll.py lines 152-153 say 180-byte writes each roll a 1 KB segment. They do if
  and only if one record fills a segment (`Rolling.EveryMessageRolls`).
- simulations/sim_retention_bytes.py line 192 bounds a topic by P x N bytes. The active segments come on
  top, also with the simulation's own numbers (`Capacity.SimulationExceedsCap`).
  `Capacity.CapsBoundTopicExactly` says exactly when P x N does hold, and `Capacity.PeakReached` that the
  larger bound is attained.
- knowledge-base/protobuf/binary-encoding.md line 247 reads the tag as one byte; tags are varints, of one
  byte only below field 16 (`Wire.TagIsOneByte`).
- knowledge-base/protobuf/proto-schema.md lines 363-377 promise a DecodeError on a changed type. Here one
  is raised if and only if a string is read as a message and its bytes are not one
  (`TypeChanges.ParseFailsExactly`), which the schemas allow exactly where the reader declares a message for
  the writer's string (`TypeChanges.SomeMessageRaisesExactly`); a value whose wire type changed is silently missing
  (`TypeChanges.ChangedTypeIsMissing`, with `Histories.ReuseLosesValue` as a case).
- knowledge-base/schema-registry/compatibility-modes.md lines 91-104 say that adjacent checks do not cover
  older versions, and so they need not (`Histories.ReuseSlipsThrough`). They do if and only if every field
  that skips a version comes back with its type (`Histories.AdjacentEnoughExactly`), which keeping removed
  numbers reserved guarantees (`Histories.AllPairsCompatible`).
- knowledge-base/schema-registry/python-integration.md line 93 and wire-format.md line 22 put the Protobuf
  bytes at offset 5; the message-index byte of wire-format.md lines 64-74 comes first
  (`Envelope.RawParserFails`).
- "Silently dropped" in the version 2 scripts means not visible to the reader.

## Model

| member | source | states |
|---|---|---|
| Durability.ReachSafe | knowledge-base/kafka/replication.md:170-192 | With acks=all, the caught-up join rule and no unclean election, every state of every run is safe: each in-sync replica, running or stopped, holds the acknowledged prefix, and every acknowledgement lies inside it |
| Durability.NoAcknowledgedLoss | simulations/sim_acks_comparison.py:6-7 | Whatever happens after an acknowledgement, any later leader has that message at that offset |
| Durability.ConfirmedOnDisk | simulations/sim_acks_comparison.py:194-202 | Every message the producer counted as confirmed is in the surviving leader's log |
| Durability.AckSurvivesMinIsrLosses | knowledge-base/kafka/replication.md:105-145 | An acknowledgement is issued only with at least min.insync.replicas replicas in sync, and losing any min.insync.replicas-1 brokers at that moment leaves a copy at its offset |
| Durability.AckSurvivesLaterLosses | knowledge-base/kafka/replication.md:145-155 | At every later point of every run, losing any min.insync.replicas-1 brokers still leaves a replica with the acknowledged message at its offset |
| Durability.JoinRuleExact | knowledge-base/kafka/replication.md:47 | From any safe state, a follower that joins the ISR early can take over without losing an acknowledged message if and only if it had fetched up to the acknowledged prefix |
| Durability.GuardedSafe | knowledge-base/kafka/brokers-and-clusters.md:152-152 | Under any join rule, every run in which each joining follower holds the acknowledged prefix is safe throughout |
| Durability.GuardedNoLoss | knowledge-base/kafka/brokers-and-clusters.md:152-152 | In such a run no acknowledged message is ever lost |
| Durability.JoinGuardExact | knowledge-base/kafka/replication.md:47 | After any such run, the next follower may join without endangering an acknowledged message if and only if that guard holds for it |
| Durability.UncleanElectionLoss | knowledge-base/kafka/replication.md:196-218 | After an unclean election of any replica the acknowledged prefix survives exactly as far as its log agrees with it; of a log that merely stops early, an acknowledged message survives if and only if its offset is below the end |
| Durability.FirstTermRun | knowledge-base/kafka/replication.md:32-39 | Until the first leader stops, every replica holds a prefix of its log, whatever the acks setting |
| Durability.LeaderKillLoss | knowledge-base/kafka/producer-delivery-guarantees.md:39-52 | When the first leader is killed and an in-sync follower takes over, an acknowledged message survives if and only if the follower had fetched it |
| Progress.FetchCopies | knowledge-base/kafka/replication.md:32-37 | A live follower that asks for everything ends up with the leader's log; one that asks for less holds it that far, or as far as it already shared it; no other log changes |
| Progress.FetchedIsAcknowledged | knowledge-base/kafka/producer-delivery-guarantees.md:54-68 | Once every ISR member has fetched past an offset, in any order, and the ISR is large enough, the leader acknowledges it |
| Progress.WriteIsConfirmed | knowledge-base/kafka/producer-delivery-guarantees.md:56-68 | With every in-sync follower up and the ISR large enough, a new message is stored at the end of the log, copied by the whole ISR, acknowledged and confirmed, under either acks setting |
| Progress.FollowerReturns | knowledge-base/kafka/replication.md:43-63 | A follower that stops leaves the ISR, and after restarting, fetching and rejoining everything is as before, except that it has caught up |
| Progress.LeaderReturns | knowledge-base/kafka/replication.md:176-192 | When a leader stops, an elected in-sync follower leads all in-sync replicas that are up, and the old leader can return as its follower |
| Progress.OnlyRunningTakePart | knowledge-base/kafka/replication.md:15-37 | Only running brokers join the ISR, become leader or change their logs |
| Progress.OfflineUntilReturn | knowledge-base/kafka/replication.md:192-192 | With no in-sync replica up and clean elections, the partition stays offline through anything until one of them returns |
| Progress.UncleanElectionExactly | knowledge-base/kafka/replication.md:196-200 | An unclean election takes effect exactly when it is allowed, nobody leads, no in-sync replica is up and the candidate is; the new leader is then the whole ISR |
| Progress.ReportedOnce | simulations/sim_idempotence.py:99-104 | No message is ever reported both as delivered and as failed |
| Idempotence.ReachDeduplicated | knowledge-base/kafka/producer-delivery-guarantees.md:112-131 | Over any loss, repetition and reordering of requests and any elections, every replica's log holds each producer's messages as a prefix of the send order, and the leader expects exactly what its log lacks |
| Idempotence.RebuildExact | knowledge-base/kafka/producer-delivery-guarantees.md:116-117 | The numbers a new leader reads back from its log are exactly the counts of what it holds |
| Idempotence.VerdictExactly | knowledge-base/kafka/producer-delivery-guarantees.md:112-131 | In every idempotent run a request is a duplicate exactly if the leader's log holds its message, appended exactly if it is the producer's next, and out of order exactly if it is beyond that |
| Idempotence.RequestOutcome | knowledge-base/kafka/producer-delivery-guarantees.md:116-129 | The next message sent is stored at the end of the log; retries of stored messages and requests out of order change nothing |
| Idempotence.NoDuplicates | knowledge-base/kafka/producer-delivery-guarantees.md:129 | Such a log stores no message twice |
| Idempotence.ExactlyOnce | simulations/sim_idempotence.py:6-17 | Together with acks=all: the leader's log has each producer's messages once, in order, without gaps, every confirmed one among them, and all of them after a flush without errors |
| Accounting.GapIdentity | simulations/sim_acks_comparison.py:197-202 | Confirmed minus stored equals lost minus never-confirmed survivors minus surplus copies, in any state |
| Accounting.GapExact | simulations/sim_acks_comparison.py:107-140 | With retries off, over every run, the reported gap is lost messages minus survivors nobody confirmed, so it is the number lost if and only if all survivors were confirmed |
| Accounting.GapUnderAcksAll | simulations/sim_acks_comparison.py:229-230 | Under acks=all nothing confirmed is lost and the gap is never positive; confirmed equals on disk if and only if every stored message is confirmed and stored once |
| Accounting.DuplicatesExact | simulations/sim_idempotence.py:175-186 | The reported duplicates are surplus copies minus messages never written, so they are the surplus copies if and only if every message was written |
| Accounting.IdempotentCount | simulations/sim_idempotence.py:15-17 | With idempotence the disk never holds more than COUNT messages, and exactly COUNT after a flush without errors |
| FailureRuns.ZeroGapHidesLoss | simulations/sim_acks_comparison.py:198-202 | A run under acks=1 whose gap is zero although a confirmed message is gone |
| FailureRuns.RecentFetchLoses | knowledge-base/kafka/replication.md:47 | A run under acks=all that loses an acknowledged message through the recent-fetch join rule |
| FailureRuns.ZeroDuplicatesHidesBoth | simulations/sim_idempotence.py:181-184 | A run with zero reported duplicates, one message stored twice and one never stored |
| FailureRuns.UnconfirmedOnDisk | simulations/sim_acks_comparison.py:229-229 | A run under acks=all with a message on disk that is not confirmed |
| FailureRuns.InFlightReorders | knowledge-base/kafka/producer-delivery-guarantees.md:141-152 | Two requests in flight and a retry store the messages in the wrong order |
| Ordering.OneInFlightKeepsOrder | knowledge-base/kafka/producer-delivery-guarantees.md:154-154 | When each message is sent only after all earlier ones have been reported, and no copy of a reported one is still under way, every replica's log has the producer's messages in send order, over any run and without idempotence |
| Ordering.ArrivalOrderKeepsOrder | knowledge-base/kafka/producer-delivery-guarantees.md:141-154 | Deliveries in send order keep every log in order, whatever else happens |
| Ordering.LateArrivalsExactly | knowledge-base/kafka/producer-delivery-guarantees.md:141-152 | Without idempotence a step breaks the order of the leader's log if and only if it stores a message below a later one already there |
| Cluster.SharedPrefix | knowledge-base/kafka/replication.md:32-37 | The comparing loop finds the longest prefix two logs share |
| Cluster.ReadNumbers | knowledge-base/kafka/producer-delivery-guarantees.md:116 | The scan of a log yields every producer's next number |
| Cluster.Partition.Produce | knowledge-base/kafka/producer-delivery-guarantees.md:112-131 | One produce request: verdict and new state are those of the state machine |
| Cluster.Partition.FetchLoop | knowledge-base/kafka/replication.md:32-39 | Dropping what is not shared and copying entry by entry is one fetch step |
| Cluster.Partition.TryAcknowledge | knowledge-base/kafka/producer-delivery-guarantees.md:54-68 | The loop over the ISR acknowledges exactly when the rule allows |
| Cluster.Partition.ElectLeader | knowledge-base/kafka/replication.md:176-218 | Clean and unclean election change leader, ISR and expected numbers as the state machine does |
| Cluster.Partition.MembershipStep | knowledge-base/kafka/replication.md:43-63 | Leaving and joining the ISR, stopping and restarting brokers |
| Cluster.Partition.ClientStep | simulations/sim_acks_comparison.py:117-136 | Sending and the delivery callbacks |
| Cluster.Partition.Apply | knowledge-base/kafka/replication.md:15-60 | Any step at all, carried out in place, is the step of the state machine |
| Cluster.RunRetryRound | simulations/sim_idempotence.py:155-186 | A whole round over any schedule returns the number of duplicates the simulation reports, which is surplus copies minus messages never written, never positive with idempotence and acks=all, and zero after a flush without errors |
| Cluster.RunRound | simulations/sim_acks_comparison.py:152-204 | A whole round over any schedule returns the two numbers the simulation compares; nothing confirmed is lost in the durable setting, and their difference is losses minus unconfirmed survivors when each request arrives at most once |
| Retention.Refines | knowledge-base/kafka/log-retention.md:68-87 | After any mix of appends, rolls and cleaner runs, segments are contiguous and the log on disk is the append-only sequence cut at the start offset, which is at most the active segment's base |
| Retention.StartNeverDecreases | knowledge-base/kafka/log-retention.md:301-308 | The log start offset never moves back |
| Retention.CleanerExact | knowledge-base/kafka/log-retention.md:177-227 | A cleaner run deletes a prefix of the closed segments, each expired or needed to get under the cap, and leaves none expired and the rest within the cap |
| Retention.CleanLeavesWithinLimits | knowledge-base/kafka/log-retention.md:207-227 | The same after every run that ends with a cleaner pass |
| Retention.NothingDeletedEarly | knowledge-base/kafka/log-retention.md:177-179 | Without a size cap, at any point of any run, every deleted record is older than the retention time |
| Retention.NothingKeptLate | knowledge-base/kafka/log-retention.md:177-227 | After a cleaner pass the last record of every closed segment is within the retention time, and all closed records together within the cap |
| Retention.NothingToClean | knowledge-base/kafka/log-retention.md:177-227 | A pass over closed segments within both limits changes nothing |
| Retention.ActiveBelowSegmentBytes | knowledge-base/kafka/log-retention.md:97-97 | In every reachable state the active segment is smaller than segment.bytes |
| Capacity.PartitionCapacity | simulations/sim_retention_bytes.py:4-6 | For all limits with a cap, no run leaves a partition above the peak after a cleaner pass: the cap plus segment.bytes minus one, less where the active segment is always empty or everything closed ages out at once |
| Capacity.PeakReached | simulations/sim_retention_bytes.py:189-197 | For all limits with a cap some run leaves a partition at exactly that peak |
| Capacity.TopicCapacity | simulations/sim_retention_bytes.py:189-197 | A topic takes at most the sum of its partitions' peaks |
| Capacity.CapsBoundTopicExactly | simulations/sim_retention_bytes.py:192-192 | For any number of partitions, P x N bounds every run if and only if segment.bytes is at most one, segment.ms is zero, or retention.ms is zero and the cap is segment.bytes minus one |
| Capacity.SimulationExceedsCap | simulations/sim_retention_bytes.py:48-68 | With 512-byte segments, a 5120-byte cap and 180-byte messages, 29 messages leave 5220 bytes after a cleaner pass |
| Rolling.ActiveKeptExactly | knowledge-base/kafka/log-retention.md:68-68 | From any reachable state on, through any schedule, the active segment is still the same one if and only if what was written since its base is below both roll limits, and then all it held, however old, is still on disk |
| Rolling.QuietPartitionKeepsAll | simulations/sim_segment_roll.py:4-14 | For all limits and runs: nothing ever rolled, so that everything written is still in the first segment, if and only if it is below segment.bytes and its first record younger than segment.ms |
| Rolling.UniformRolls | simulations/sim_segment_roll.py:16-20 | Equal-sized records, with any pauses and cleaner runs in which no segment rolls by age, fill every segment with exactly the number that first reaches segment.bytes |
| Rolling.YoungRunsRollBySize | knowledge-base/kafka/log-retention.md:137-156 | No segment rolls by age in a run shorter than segment.ms |
| Rolling.EveryMessageRolls | simulations/sim_segment_roll.py:148-154 | For records of any one size and any pauses in which no segment rolls by age, the log rolls with every message if and only if one record fills a segment |
| DiskLog.Storage.RollIfDue | knowledge-base/kafka/log-retention.md:137-156 | Closing the active segment in place, by size or by age |
| DiskLog.Storage.Append | knowledge-base/kafka/log-retention.md:68-68 | An append is the append step of the state machine |
| DiskLog.Storage.Wait | knowledge-base/kafka/log-retention.md:137-137 | Passing time is the waiting step |
| DiskLog.Storage.SizeOf | knowledge-base/kafka/log-retention.md:207-207 | The summing loop returns the bytes of the segments |
| DiskLog.Storage.RunCleaner | knowledge-base/kafka/log-retention.md:177-227 | The deleting loop, with its running byte count, terminates and is the cleaner step |
| DiskLog.Storage.Read | knowledge-base/kafka/log-retention.md:301-308 | A search through the segments finds the record written at an offset in [start, end) and nothing outside |
| DiskLog.ReadAfter | simulations/sim_segment_roll.py:79-90 | The same after any history of appends, pauses and cleaner runs |
| ConsumerResume.NothingSilentlyLost | knowledge-base/kafka/log-retention.md:332-340 | Over every run of consuming, committing, crashing and retention, each offset below the position and below the committed offset was handed over or counted as skipped, and skips match the policy: deleted offsets only, under earliest; none, under error |
| ConsumerResume.AtLeastOnce | knowledge-base/kafka/log-retention.md:338-340 | An offset below the committed one that was never handed over rules out the error policy, and under earliest it has been deleted |
| ConsumerResume.ResumeSkipsExactly | knowledge-base/kafka/log-retention.md:332-340 | Every resume in every reachable state skips exactly [c, log start) or [c, log end) for a deleted committed offset c, the same from zero without a commit, nothing for a valid one, and halts under error |
| ConsumerResume.PrintedRangeExact | simulations/sim_log_start_offset.py:145-147 | For every log, policy and committed offset with a resume point, the printed range 0..first-1 is what was skipped if and only if nothing, or offset zero, was committed |
| ConsumerResume.SimulationPrintsTooMuch | simulations/sim_log_start_offset.py:196-235 | With ten offsets committed and deleted, the printed range has offsets 0-9 too many |
| ConsumerResume.DeletedThenOne | simulations/sim_log_start_offset.py:9-11 | A run after which any number of records is deleted and one is left to resume from |
| ConsumerResume.ValidOffsetIgnoresPolicy | knowledge-base/kafka/log-retention.md:332-334 | While the committed offset exists, the policy makes no difference |
| GroupConsumer.Consumer.ResetPosition | knowledge-base/kafka/log-retention.md:336-340 | The three policies as updates of the group's state |
| GroupConsumer.Consumer.Subscribe | simulations/sim_log_start_offset.py:80-80 | Subscribing takes up the committed offset, or resets when there is none |
| GroupConsumer.Consumer.PollOnce | simulations/sim_log_start_offset.py:84-91 | One answered poll hands over at most the message at the position |
| GroupConsumer.Consumer.ConsumeAndCommit | simulations/sim_log_start_offset.py:71-95 | The loop gathers the offsets and leaves the state that the specification function gives, for any schedule of polls and timeouts |
| GroupConsumer.CommitsWhatItConsumed | simulations/sim_log_start_offset.py:81-95 | The gathered offsets ascend and are exactly what was handed over; the committed offset moves only when all of count arrived, to one past the last |
| GroupConsumer.GathersConsecutively | simulations/sim_log_start_offset.py:83-91 | From a position retention does not overtake, with enough messages there, over any schedule of timeouts, answers and broker steps the loop gathers the next messages one by one, as many as asked for or answered |
| GroupConsumer.ConsumesAndCommits | simulations/sim_log_start_offset.py:71-95 | Started where the group resumes, it returns exactly the next messages, and once count polls were answered it has all of them and has committed one past the last |
| GroupConsumer.CollectedIsRun | simulations/sim_log_start_offset.py:83-93 | The loop is a run of the consumer state machine |
| GroupConsumer.TryConsumeWithReset | simulations/sim_log_start_offset.py:98-147 | The loop halts, finds nothing or returns consecutive offsets from the resume point, up to three and as many as there are if four polls are answered; what it skipped is the resume's range, equal to the printed one if and only if nothing, or offset zero, was committed |
| Varint.EncodedSize | knowledge-base/protobuf/binary-encoding.md:169-179 | A number takes k bytes if and only if it needs k groups of seven bits |
| Varint.EncodedBits | knowledge-base/protobuf/binary-encoding.md:127-167 | Byte i carries bits 7i to 7i+6 of the number, and the top bit is set on every byte but the last |
| Varint.AtMostTenBytes | knowledge-base/protobuf/binary-encoding.md:181-181 | No 64-bit number takes more than ten bytes |
| Varint.RoundTrip | knowledge-base/protobuf/binary-encoding.md:123-167 | Decoding an encoded number returns it and consumes exactly its bytes |
| Varint.Shortest | knowledge-base/protobuf/binary-encoding.md:127-131 | No other bytes say the same number in less space, and a decoder reads at most ten |
| Varint.DecodesExactly | knowledge-base/protobuf/binary-encoding.md:127-131 | For any bytes, minimal or not: the number is what its groups say, cut to 64 bits, if it ends within ten bytes, and there is none otherwise |
| Varint.DecodeAppend | knowledge-base/protobuf/binary-encoding.md:129-129 | Bytes that follow a varint do not change what is read |
| Varint.ReadRaw | knowledge-base/protobuf/binary-encoding.md:127-131 | The loop over seven-bit groups computes the varint |
| Varint.ReadVarint | knowledge-base/protobuf/binary-encoding.md:247-250 | The same, cut to 64 bits |
| Wire.RecordRoundTrip | knowledge-base/protobuf/binary-encoding.md:81-119 | Decoding an encoded field returns its number, wire type and payload and leaves the rest |
| Wire.DecodedMatchesTag | knowledge-base/protobuf/binary-encoding.md:243-261 | Whatever decodes is a well-formed record of the number and wire type its tag says, so that unknown wire types and bad numbers are rejected |
| Wire.RoundTripAll | knowledge-base/protobuf/binary-encoding.md:185-239 | The same for a whole run of records of all wire types |
| Wire.DecodeConcatenation | knowledge-base/protobuf/binary-encoding.md:318-326 | The records of a concatenation are the records of its parts |
| Wire.TagIsOneByte | knowledge-base/protobuf/binary-encoding.md:247-247 | A tag takes one byte if and only if the field number is below sixteen |
| Wire.ZeroTagRejected | knowledge-base/schema-registry/wire-format.md:58-58 | Bytes starting with zero are malformed |
| Decoder.ReadPayload | knowledge-base/protobuf/binary-encoding.md:249-261 | Reading the payload a wire type calls for, by position |
| Decoder.ReadRecord | knowledge-base/protobuf/binary-encoding.md:246-249 | Reading one tag and its payload, by position, with progress |
| Decoder.StoreRecord | knowledge-base/protobuf/binary-encoding.md:250-253 | Storing one field, nested messages included, equals the specification |
| Decoder.ParseInto | knowledge-base/protobuf/binary-encoding.md:243-264 | The decoding loop returns what the specification returns, DecodeErrors included |
| Merging.ConcatenationMerges | knowledge-base/protobuf/binary-encoding.md:318-324 | Parsing the concatenation of two encodings is merging the two parsed messages |
| Merging.LastOneWins | knowledge-base/protobuf/binary-encoding.md:324-324 | Of a concatenation each field has the second part's value where it has one, the first part's otherwise, and nested messages are merged |
| Merging.ParseMerges | knowledge-base/protobuf/binary-encoding.md:243-264 | Parsing on top of a message is merging into it what the bytes parse to |
| Merging.MergeAssociative | knowledge-base/protobuf/binary-encoding.md:324-324 | Merging (later scalar wins, nested messages merged) is associative |
| Merging.FieldDependsOnItsRecords | knowledge-base/protobuf/binary-encoding.md:320-324 | The value of a field depends on that field's own records only |
| Merging.OrderOfFieldsIsFree | knowledge-base/protobuf/binary-encoding.md:318-326 | Any order that keeps each field's own records in order gives the same message, or the same failure |
| Merging.DistinctFieldsPermute | knowledge-base/protobuf/binary-encoding.md:322-322 | Records with distinct numbers may be permuted freely |
| Evolution.ReadsAcross | knowledge-base/schema-registry/compatibility-modes.md:17-52 | For any two schemas that agree on shared numbers up to int32 read as int64, nested ones included, reading the writer's bytes never fails and gives the shared fields unchanged and nothing else |
| Readability.ReadableExactly | knowledge-base/schema-registry/compatibility-modes.md:17-52 | All messages of a writer read as the reader's view if and only if the two schemas agree in that way |
| Evolution.RoundTrip | knowledge-base/protobuf/binary-encoding.md:266-284 | Parsing what was serialized gives back the message, for every schema, with zero values omitted |
| Evolution.ZeroIsMissing | knowledge-base/protobuf/binary-encoding.md:268-284 | A zero value is not written: the bytes are those of the message without the field |
| Evolution.IntsKeepLowBits | knowledge-base/protobuf/binary-encoding.md:181-181 | Any number read as an integer keeps its low bits, as two's complement |
| Evolution.WithoutHidesOnly | simulations/consumer_v2.py:2-4 | A reader whose schema lacks one field sees every other field unchanged |
| Evolution.DropField | proto/order/v2/order.proto:14-15 | Removing any one field from a well-formed schema leaves all other numbers as they were |
| Histories.CompatibleSymmetric | knowledge-base/schema-registry/compatibility-modes.md:17-61 | On the wire, what is readable backward is readable forward |
| Histories.Composes | knowledge-base/schema-registry/compatibility-modes.md:63-69 | Compatibility passes through a middle version that retires the numbers it drops |
| Histories.AllCompatibleExactly | knowledge-base/schema-registry/compatibility-modes.md:63-69 | All pairs of versions are compatible if and only if every field, at any depth, that is declared again after any number of versions without it has the type it had |
| Histories.AdjacentEnoughExactly | knowledge-base/schema-registry/compatibility-modes.md:91-104 | Of a history that passes all adjacent checks, all pairs are compatible if and only if every field that skips a version comes back with its type |
| Histories.AllPairsCompatible | knowledge-base/schema-registry/compatibility-modes.md:91-104 | With removed numbers kept reserved, adjacent checks imply compatibility of all pairs of versions |
| Histories.WholeTopicReadable | knowledge-base/schema-registry/compatibility-modes.md:102-102 | Then any version reads what any version wrote, as its own view of it |
| Histories.ReuseSlipsThrough | knowledge-base/schema-registry/compatibility-modes.md:101-102 | Three versions that pass every adjacent check although the last is incompatible with the first |
| TypeChanges.ParseFailsExactly | knowledge-base/protobuf/proto-schema.md:361-377 | For every reader and writer, parsing a written message raises a DecodeError if and only if somewhere a string is read as a message and its bytes are not one |
| TypeChanges.NothingElseRaises | knowledge-base/protobuf/proto-schema.md:361-377 | Between schemas that never declare a message where the other has a string, no change of type raises |
| TypeChanges.TextAsMessageRaises | knowledge-base/protobuf/proto-schema.md:361-377 | Where the reader declares a message for the writer's string, a string of one zero byte raises |
| TypeChanges.SomeMessageRaisesExactly | knowledge-base/protobuf/proto-schema.md:361-377 | Some message of the writer raises if and only if, at any depth, the reader declares a message where the writer declares a string |
| TypeChanges.ChangedTypeIsMissing | knowledge-base/protobuf/proto-schema.md:361-377 | A number whose wire type differs between reader and writer is absent from every result |
| Histories.ReuseLosesValue | knowledge-base/protobuf/proto-schema.md:361-377 | Read under the reused number, the first version's value is missing without an error |
| Envelope.FrameRoundTrip | knowledge-base/schema-registry/wire-format.md:64-74 | Unframing a framed message gives the schema id and the Protobuf bytes |
| Envelope.FrameLayout | knowledge-base/schema-registry/wire-format.md:20-22 | Magic byte, the id as four bytes with the highest first, the message index, then the payload |
| Envelope.UnframeExactly | knowledge-base/schema-registry/wire-format.md:20-22 | Unframing takes exactly the framed messages apart and rejects everything else |
| Envelope.DeserializesAcross | knowledge-base/schema-registry/wire-format.md:88-93 | From serializer to deserializer across compatible versions, the result is the reader's view |
| Envelope.RawParserFails | knowledge-base/schema-registry/wire-format.md:54-60 | A raw parser rejects every framed message, also from offset 5 |
| Orders.OrderRoundTrip | proto/order/v1/order.proto:7-23 | Every version 1 order comes back from its bytes as itself: timestamps, negative enum values and omitted zeros included |
| Orders.OrderV2RoundTrip | proto/order/v2/order.proto:7-24 | The same for version 2 |
| Orders.PaymentRoundTrip | proto/payment/v1/payment.proto:7-25 | The same for payments |
| Orders.NegativeTakesTenBytes | knowledge-base/protobuf/binary-encoding.md:181-181 | A 64-bit integer takes the full ten bytes if and only if it is negative |
| Orders.V2DropsRegion | proto/order/v2/order.proto:7-16 | Version 2 is version 1 without field 7, and the two are compatible both ways |
| Orders.V2RetiresRegion | proto/order/v2/order.proto:14-15 | Version 2 reserves the number it drops |
| Orders.V1ReadAsV1 | simulations/sim_backward_compat.py:5-5 | A version 1 consumer reads every framed version 1 order as it was written |
| Orders.V1ReadAsV2 | simulations/sim_backward_compat.py:6-6 | A version 2 consumer reads every framed version 1 order: all fields as written, no region |
| Orders.V2ReadAsV1 | knowledge-base/schema-registry/compatibility-modes.md:32-36 | A version 1 consumer reads every framed version 2 order, with an empty region |
| Orders.ShortRecords | knowledge-base/protobuf/binary-encoding.md:80-119 | The bytes of one short field: tag (number times eight plus wire type), length, data |
| Orders.OrderBytes | proto/order/v1/order.proto:7-15 | What the serializer writes for any version 1 order: its fields' records in declaration order, empty ones left out |
| Orders.PaymentBytes | proto/payment/v1/payment.proto:7-16 | The same for any payment |
| Orders.TimeBytes | proto/payment/v1/payment.proto:15-15 | The same for any timestamp |
| Orders.FiveRecords | knowledge-base/protobuf/binary-encoding.md:24-54 | The byte map of five short fields, encoding and decoding |
| Orders.ShortOrderLayout | knowledge-base/protobuf/binary-encoding.md:24-54 | The exact bytes serialized for an order with short, non-empty fields and neither time nor region; the documented 32 bytes are an instance |
| Drain.DrainAll | simulations/sim_backward_compat.py:46-65 | The loop with its results list and end set returns what the specification function gives, for any schedule of polls |
| Drain.DrainsExactly | simulations/sim_backward_compat.py:46-65 | Per partition the results are the messages from the start position on, in order, each deserialized, and when the drain returns they cover at least everything there was at its start; it fails only at a message that does not deserialize |
| Drain.QuietDrain | simulations/sim_backward_compat.py:46-65 | On a topic that does not grow, a drain that returns has read each assigned partition exactly to its end |
| Drain.DrainsWhatIsGiven | simulations/sim_backward_compat.py:58-60 | The drain works on exactly the partitions of the group's assignment, every one of them |
| Drain.DrainsEveryPartition | simulations/sim_backward_compat.py:46-65 | Of every partition given, the results are its messages in order, and at the return they cover all there was at the start |
| Drain.QuietDrainComplete | simulations/sim_backward_compat.py:46-65 | On a topic that does not grow, exactly all there is, for every partition given |
| Drain.LogsGrow | simulations/sim_backward_compat.py:51-63 | Messages that arrive meanwhile are added to their partitions |
| Drain.EffectiveBounded | simulations/sim_backward_compat.py:51-63 | On such a topic every poll that brings something uses up one of a fixed number |
| Drain.NeverStuck | simulations/sim_backward_compat.py:51-63 | Until it returns there is always something for a poll to bring |
| Drain.Returns | simulations/sim_backward_compat.py:55-60 | After that number of such polls it has returned |
| DrainOrders.TopicDecodable | simulations/sim_backward_compat.py:86-87 | Neither version ever fails on a topic of version 1 orders |
| DrainOrders.BothVersionsAgree | simulations/sim_backward_compat.py:93-109 | Of each partition both groups were given, both drains cover the same offsets, from the start position to the end; version 1 shows the orders as written, version 2 the same without region |
| ProducerQueue.StepConserves | knowledge-base/kafka/poll-and-flush.md:13-42 | Every step keeps each produced message in exactly one of buffer, network, callback queue and fired callbacks |
| ProducerQueue.Conservation | knowledge-base/kafka/poll-and-flush.md:13-42 | The four add up to the messages produced, and no callback fires twice |
| ProducerQueue.IdleMeansAllFired | knowledge-base/kafka/poll-and-flush.md:134-148 | Nothing is left if and only if every callback has fired, each once, and then successes and failures add up |
| ProducerQueue.OverAllRuns | knowledge-base/kafka/poll-and-flush.md:32-40 | Both at every point of every run |
| ProducerQueue.BufferInOrder | knowledge-base/kafka/poll-and-flush.md:30-30 | The buffer holds the newest messages in the order they were produced |
| ProducerQueue.ReportsAreTrue | simulations/payment_producer.py:68-75 | Over every run a message is reported delivered if and only if the broker said so, and failed if and only if the broker said so or it expired |
| ProducerQueue.CountsAreTrue | simulations/payment_producer.py:66-75 | Successes and failures on record number the broker's positive answers, and its negative ones plus expiries |
| ProducerQueue.FlushAdvances | knowledge-base/kafka/poll-and-flush.md:143-148 | Without new messages every effective step brings flush nearer its end, and one can always be taken before |
| ProducerQueue.FlushReturns | knowledge-base/kafka/poll-and-flush.md:143-148 | While flush waits, no schedule holds more effective steps than are left, and one that holds that many has made the queues idle |
| ProducerQueue.FireAllFires | knowledge-base/kafka/poll-and-flush.md:75-96 | One poll fires exactly the queued callbacks, oldest first |
| ProducerQueue.PollsEveryTwentieth | simulations/payment_producer.py:77-85 | The producing loop leaves no callback waiting after every twentieth message and fires none in between |
| ProducerQueue.FlushingReturns | knowledge-base/kafka/poll-and-flush.md:143-148 | The program's flush returns when the background thread keeps working |
| ProducerQueue.Producer.Poll | knowledge-base/kafka/poll-and-flush.md:75-96 | The firing loop is that poll |
| ProducerQueue.Producer.OnDelivery | simulations/payment_producer.py:68-75 | The callback's counter always equals the successes fired so far |
| ProducerQueue.Producer.Flush | knowledge-base/kafka/poll-and-flush.md:134-148 | The loop returns if and only if nothing is buffered, in flight or queued, in the state the specification function gives |
| ProducerQueue.Producer.Publish | simulations/payment_producer.py:66-89 | When the program's flush returns, each of count callbacks has fired once, delivered is the number of the broker's positive answers, and delivered plus errors is count; every callback says what the broker said |
| Assignment.ExactlyOneOwner | knowledge-base/kafka/rebalancing.md:26-54 | Contiguous ranges give every partition exactly one owner |
| Assignment.BalancedAndCapped | simulations/sim_partition_ceiling.py:8-11 | Loads differ by at most one, and only the first min(partitions, members) members have work |
| Assignment.OneOwnerAlways | knowledge-base/kafka/rebalancing.md:26-54 | At every point of every run of joins, leaves, crashes and expiries each partition has exactly one owner, a member of the group |
| Assignment.LiveOwnerAfterExpiry | knowledge-base/kafka/rebalancing.md:51-53 | Whoever has crashed: once all of them have expired, in any order, each partition has exactly one owner, one of the members that were live, as long as there is one |
| Assignment.ExpiryFreesPartitions | knowledge-base/kafka/rebalancing.md:51-53 | Once a crashed member expires it owns nothing |
| Assignment.NewcomerLeavesNoTrace | knowledge-base/kafka/rebalancing.md:17-22 | A member that joins and leaves, or joins, crashes and expires, leaves the assignment as it was |
| Rebalancing.JoinTakesEffect | knowledge-base/kafka/rebalancing.md:30-46 | A joining member is in, nobody is put out, and it has work as long as there are enough partitions |
| Rebalancing.LeaveTakesEffect | knowledge-base/kafka/rebalancing.md:20-20 | A leaving member is out and owns nothing; all others stay |
| Rebalancing.CrashMovesNothing | knowledge-base/kafka/rebalancing.md:21-21 | Until its session expires, a crashed member's share stays with it |
| Rebalancing.AddedAreOwned | knowledge-base/kafka/rebalancing.md:22-22 | Added partitions are there and each has exactly one owner |
| Assignment.PartitionCeiling | simulations/sim_partition_ceiling.py:150-165 | In every reachable state exactly min(partitions, members) members hold a share, crashed but unexpired ones included, and shares differ by at most one |

## Left out

- Durability.ReachSafe: messages acknowledged from the page cache and lost before reaching disk are not modelled; a stopped broker keeps its log.
- Idempotence.ReachDeduplicated: no bound on requests in flight and no broker-side reordering buffer; an out-of-order request is rejected and may be sent again.
- Idempotence.ExactlyOnce: producer restarts with a new PID, epoch bumps after an expired message and transactions are not modelled.
- Capacity.TopicCapacity: bounds disk use right after a cleaner pass; between passes closed segments may exceed the cap by whatever arrived.
- ConsumerResume.NothingSilentlyLost: one partition and one member at a time; duplicates after a crash are allowed, since delivery is at least once.
- GroupConsumer.TryConsumeWithReset: the partition does not change while the loop runs, as in the simulation after its waiting time.
- Histories.ReuseLosesValue: states what this model's parser does with a mismatched wire type; a parser that raises an error does not recover the value either.
- Evolution.ReadsAcross: unknown fields are skipped; keeping them for re-serialization is not modelled, nor are maps, repeated and oneof fields, which no schema here uses.
- TypeChanges.ParseFailsExactly: strings are plain bytes; a parser that validates UTF-8 also raises on a nested message read as a string whose bytes are not UTF-8.
- TypeChanges.NothingElseRaises: the same, so under UTF-8 validation it holds where no reader declares a string for a writer's message either.
- TypeChanges.SomeMessageRaisesExactly: the same; such pairs would be a second way to raise.
- Readability.ReadableExactly: for writers nested less than 2^32 deep, so that the message that tells two schemas apart stays below 2^64 bytes.
- Rolling.EveryMessageRolls: runs without a cleaner pass, since it counts the closed segments.
- Orders.OrderRoundTrip: strings are byte strings and doubles eight opaque bytes; UTF-8 validity and floating-point meaning are left out.
- Drain.DrainsExactly: a rebalance in the middle of a drain is not modelled.
- ProducerQueue.Producer.Publish: the buffer's size limit, where produce blocks or raises, and flush with a timeout are left out.
- Assignment.PartitionCeiling: the coordinator is modelled on values, because its code is not in the repository; the consumers' counting threads and the printed summary are left out.
- Partitioning by key and the remapping of keys when partitions are added.
- acks=0, throughput, latency and recovery times: nothing decidable from the code.
- Docker, rpk, log files, printed tables and pauses: input and output without a property; reads of watermarks are reads of the model's state.
- The registry's own rules beyond wire compatibility (names, file layout, modes as configuration) and its schema cache.
- simulations/sim_crash_recovery.sh, simulations/sim_log_dirs.sh and simulations/sim_auto_create_footgun.py: they time a restart, list directories and set one flag.
- Compression, listeners, threading models, tiered storage and compaction: described in the knowledge base, exercised by no code.
