# Weekend Engine: a verified model

Weekend Engine is an in-memory event system written in Go. Events are published to a broker with partitioned topics,
delivered to consumer groups with retries and a dead-letter log, run through a five-stage pipeline, and kept in an
indexed store that is listed, paged, counted and swept. This project models those parts in Dafny and proves what they
keep in every run.

Verify everything with `dafny verify dfyconfig.toml`.

## How the model is built

- **Delivery protocol** (`Messages`, `Partitioner`, `TopicProtocol`, `TopicInvariant`, `TopicTheorems`,
  `Conservation`, `Draining`, `Histories`, `ExactlyOnce`, `BrokerProtocol`, `DepthGap`, `Refusals`). One topic is a
  labelled step machine whose labels are the broker's critical sections: append with its sends, subscribe, read the
  group's offset, read the log, receive, exit, one handler call, dead-letter append, commit, count. A run is any sequence of enabled labels, so results hold
  for every interleaving of any number of publishers, groups and consumers, several consumers of one group on one
  partition included, and for handlers that answer as they please. Call histories and the list of who gave up on what
  are history variables; no step depends on them. `BrokerProtocol` puts topics that are created on demand beside each
  other.
- **Broker objects** (`BrokerRuntime`, `BrokerObject`). The same broker as classes and methods that update logs,
  channels and maps in place. Their contracts use the step machine's own functions; `TurnRefines` and
  `PublishRefines` show that one undisturbed turn of the consume loop and one undisturbed publish are runs of the
  step machine; `ConsumeTurn` and `PublishTurn` keep the objects a representation of the machine's state.
- **Store** (`Text`, `Events`, `Storage`, `Listing`, `Paging`, `StoreStats`). The store class with its two indices,
  its listing method, and lemmas on what the index, the sort and the page arithmetic do to the answer.
- **Scoring and pipeline** (`Scoring`, `Pipeline`), **rate limiter** (`RateLimiter`), **metrics** (`Metrics` for the
  object, `CounterProtocol` for concurrent calls on it).
- **Composition** (`EndToEnd`, `TwoWorkers`). The broker's step machine whose handler decodes a message and runs the
  standard pipeline into the store, with deletions and evictions at any moment.

Unicode's letter tables, the logarithm's values and the calendar's seasons are parameters; results hold for all of
them. Where only ASCII matters, that is a stated condition on the tables. Machine words are integers with their wrap-around written
out; bytes are eight-bit vectors. Small functions on which much depends (the hash, validation, the filter, expiry, the
refill, the score) each have a lemma that says what they compute in plain terms.

## Where the code and its promises part

Each of these is proved as an if-and-only-if, so the condition is exact.

- README.md:21 says that consumer-group offsets have each message processed exactly once. Read as "each committed
  message was tried by one consumer of the group only, and ended there once, in a success or in a dead letter", that
  holds in every run if and only if no two consumers of the group serve the partition at the same time
  (`ExactlyOnceIff`); consumers that follow one another are fine. cmd/worker/main.go:70-71 runs several at once, and then
  one message can succeed twice (`SharedSlotDuplicates`) and leave two events in the store (`OneMessageTwoEvents`).
  Read as "one success each" it fails even for a single consumer, whose refused messages are committed with none
  (`RefusedNeverProcessed`); without overlap it holds if and only if nothing was dead-lettered (`OneSuccessIff`), and for
  the pipeline's handler a message succeeds once or never as its content decides (`ProcessedIffAccepted`).
- `QueueDepth` is documented as un-consumed messages (internal/broker/broker.go:325, GUIDE.md:243). It is the total
  length of all logs and never falls; it equals what a group has left if and only if the group has committed nothing
  in any topic (`DepthIsNotBacklog`), and it can be any number when nothing is left (`DepthOverstates`).
- The category index is keyed by lower case, the filter compares by case folding. The indexed listing always returns a
  subset of the scan's. Whatever the letter tables, it returns all of it for every store if and only if no letter of
  the filter's category folds with a letter of another lower case (`IndexCompleteIff`); sigma, beta and s do.
- Separate page requests show each match once, however ties are sorted, if and only if no tie in creation time
  straddles a page boundary (`PagesTileIff`).
- The page shown is the page asked for, in every store of at most a given number of events, if and only if its end
  index fits in 64 bits or its start index, wrapped, still lies past that number; for every other page some store makes
  the request panic or show another page (`StartIndexIff`, `PageIndexIff`).
- A window of requests admits at most burst + rate × duration of a key if and only if the configured burst is at
  least 1; a new key's first request is let through even when it is not (`WindowBoundIff`).

## Model

| member | source | states |
|---|---|---|
| Partitioner.PartitionFor | internal/broker/broker.go:338-346 | the byte loop computes the hash and yields a partition inside the topic; empty keys and single partitions go to 0. Which hash and which partition is stated by the next five rows |
| Partitioner.XorLowByte | internal/broker/broker.go:340-342 | in bits: exclusive or with a byte changes the low eight bits of a 32-bit word only, which is how a hash step is written over integers |
| Partitioner.KnownHashes | internal/broker/broker.go:340-345 | the hash of the empty string, "a" and "foobar" is the published 32-bit FNV-1a value |
| Partitioner.SocialGoesToTwo | internal/broker/broker.go:345 | the key "social" goes to partition 2 of 4 |
| Partitioner.Refines | internal/broker/broker.go:338-345 | with n·m partitions a key's partition leaves remainder its partition of n; with any multiple of 2^32 it is the hash; an empty key goes to 0 |
| Partitioner.LastByteSpreads | internal/broker/broker.go:338-345 | whatever comes before it, the last byte of a key spreads evenly: for every n that divides 256 each of the n partitions gets exactly 256 / n of the 256 last bytes |
| TopicInvariant.InitInv | internal/broker/broker.go:161-179 | a new topic satisfies the whole protocol invariant |
| TopicInvariant.ConsumerFrame | internal/broker/broker.go:35-56 | a longer log, a later commit or a wake-up leaves every other consumer's local facts true, given that an append to a partition leaves a token with each consumer waiting on it |
| TopicInvariant.AttemptKeeps | internal/broker/broker.go:246-257 | one handler call keeps the consumer's facts: attempts so far are failures numbered 1, 2, ..., and the loop ends in a success or after exactly maxRetries failures |
| TopicInvariant.CoveredStep | internal/broker/broker.go:92-98 | after any step every committed offset has been taken through the whole retry loop by some consumer of the group |
| TopicInvariant.GaveUpStep | internal/broker/broker.go:258-261 | a delivery becomes a dead letter exactly at its own routing step, and stays one |
| TopicInvariant.DlqStep | internal/broker/broker.go:258-261 | every step keeps the dead-letter log a list of the exhausted deliveries, each once, each the original message |
| TopicInvariant.CountStep | internal/broker/broker.go:200-204 | every step keeps total log length equal to the published count plus publishers between append and count |
| TopicInvariant.InvStep | internal/broker/broker.go:189-264 | every critical section of every publisher and consumer keeps the invariant |
| TopicInvariant.ReachableInv | internal/broker/broker.go:189-264 | the invariant holds in every state of every run |
| TopicTheorems.NoLostWakeup | internal/broker/broker.go:229-244 | in every reachable state a waiting consumer with an empty channel has read the whole log, and its group has committed all of it |
| TopicTheorems.MissMeansDrained | internal/broker/broker.go:234-244 | a consumer goes to wait if and only if, at its read, the group had committed the whole log |
| TopicTheorems.LastRead | internal/broker/broker.go:233-244 | in every run, a consumer that waits or has returned got there by a last read at which the group had committed the whole log, and did nothing but exit since |
| TopicTheorems.ExitLosesNothing | internal/broker/broker.go:238-241 | a consumer that has returned had its context cancelled, and everything in the log at its last read is committed and fully handled by the group |
| TopicTheorems.CommitByOne | internal/broker/broker.go:262 | the offset being committed is never ahead of the group, and the commit moves the group by one exactly when it is level, else not at all |
| TopicTheorems.GroupSafety | internal/broker/broker.go:213-264 | with any number of consumers, a committed offset was attempted to the end by at least one, and no offset costs the group more than maxRetries calls per consumer |
| TopicTheorems.DeadLetters | internal/broker/broker.go:246-262 | dead letters are, one to one, the exhausted deliveries past their routing step; an entry is the logged message with attempt maxRetries and its position in the dead-letter log |
| TopicTheorems.OffsetsIncrease | internal/broker/broker.go:233-264 | the offsets one consumer begins to deliver strictly increase, whatever the rest of its group does |
| TopicTheorems.SoleInOrder | internal/broker/broker.go:233-264 | the only consumer of its group on a partition is handed exactly the log's prefix 0, 1, 2, ... up to committed, plus at most one in flight |
| TopicTheorems.SoleConservation | internal/broker/broker.go:246-262 | ... and each committed offset is a success or a dead letter and never both |
| TopicTheorems.KeyOrder | internal/broker/broker.go:189-206 | all messages of a key sit in one partition, and a sole consumer there is handed them in the order they were appended |
| TopicTheorems.PublishAccounting | internal/broker/broker.go:189-206 | in every reachable state total log length is the published count plus publishers between append and count |
| Histories.LogsAreHistory | internal/broker/broker.go:189-206 | after any run every log entry has the key, value and time of a publish the run began, lies in its key's partition at its own offset with attempt 1, and there are as many entries as appends and as many counted messages as finished publishes |
| Histories.SpawnedAndCancelled | internal/broker/broker.go:208-241 | a consumer with given slot and context exists if and only if the run subscribed it, and a context is cancelled if and only if the run cancelled it |
| Conservation.DeliveriesConserved | internal/broker/broker.go:246-262 | for any groups and consumers: deliveries begun = successes + dead letters + deliveries being retried or routed |
| Draining.DrainBound | internal/broker/broker.go:233-264 | without new appends or subscriptions every consumer step lowers a measure of remaining work, however scheduled and whatever handlers answer |
| Draining.Choices | internal/broker/broker.go:229-263 | exactly which steps a consumer can take at each point: a handler may answer either way, a waiting one may take its token or, once cancelled, leave even with a token in its channel, and elsewhere there is one next step |
| Draining.StuckConsumer | internal/broker/broker.go:236-244 | a topic in which no consumer can step has only consumers that have left or wait, uncancelled, on a fully committed log |
| Draining.Drained | internal/broker/broker.go:233-264 | from any reachable state the number of further consumer steps is bounded, and once none is possible every partition with a live consumer is fully handled |
| Histories.Shutdown | internal/broker/broker.go:236-244 | once no goroutine of the topic can step, a subscribed consumer has returned if and only if its context was cancelled; otherwise it waits and its group has committed its whole partition |
| ExactlyOnce.SharedSlotDuplicates | cmd/worker/main.go:70-71 | from any reachable state with two idle consumers of one group on a partition holding an uncommitted message, a run exists after which the group has processed it successfully at least twice |
| ExactlyOnce.Duplicates | cmd/worker/main.go:70-71 | for any group size of at least two and any key, a run from the empty topic processes the first message of the key's partition at least twice, counting the whole group's successes |
| ExactlyOnce.OncePerConsumer | internal/broker/broker.go:246-257 | in every state that keeps the invariant, one consumer has at most one successful call for an offset |
| ExactlyOnce.NoOverlapNoDuplicates | internal/broker/broker.go:229-264 | in a run where at most one consumer of the slot is live at a time, the group never processes an offset successfully twice, however many consumers come and go |
| ExactlyOnce.NoOverlapEndsOnce | internal/broker/broker.go:229-264 | in such a run every committed offset was tried by exactly one consumer of the slot and ended there in a success or one dead letter, not both; no other consumer has an attempt or a dead letter for it |
| ExactlyOnce.NoOverlapCount | internal/broker/broker.go:246-262 | in such a run a committed message was processed successfully once, or not at all if it was dead-lettered |
| ExactlyOnce.OneSuccessIff | README.md:21 | in such a run every committed message succeeded exactly once if and only if none of them was dead-lettered |
| ExactlyOnce.ExactlyOnceIff | README.md:21 | on every partition a key can reach: after all runs with at most k live consumers of the group there, no offset was processed successfully twice and every committed one was tried by one consumer only and ended once, if and only if k is at most 1 |
| ExactlyOnce.OneConsumerOnce | README.md:21 | the same for a partition that only ever had one consumer of the group, with one success per committed message unless it was dead-lettered |
| Refusals.RefusedNeverProcessed | internal/broker/broker.go:246-262 | for any settings, group and key a run exists after which a sole consumer's first message is committed, dead-lettered and never processed successfully |
| BrokerProtocol.NewSound | internal/broker/broker.go:127-158 | whatever options are given, partitions and retries are positive, the last positive option of a kind decides, and without one the default stands |
| BrokerProtocol.SoundStep | internal/broker/broker.go:161-179 | every step of the broker leaves each topic in a state its own protocol can reach |
| BrokerProtocol.TopicsPersist | internal/broker/broker.go:161-179 | over any run no topic is dropped or replaced: each later state continues the same topic, and the settings never change |
| BrokerProtocol.DepthSandwich | internal/broker/broker.go:326-336 | a depth read one partition lock at a time lies between the depths at its start and its end |
| BrokerProtocol.DepthNeverFalls | internal/broker/broker.go:326-336 | over any run, topic creation included, the queue depth never falls |
| BrokerProtocol.DepthIsPublished | internal/broker/broker.go:200-204 | with no publisher between append and count, the depth is the sum of the published counts |
| BrokerProtocol.DepthIsNotBacklog | internal/broker/broker.go:325-336 | over all topics, the depth exceeds a group's backlog by exactly its committed offsets, so it is the un-consumed count if and only if the group has committed nothing in any topic |
| DepthGap.DepthOverstates | internal/broker/broker.go:325-336 | with any options, for any topic, group and m, a run exists after which the depth is m while the group has nothing left to consume |
| BrokerProtocol.SinceIsSuffix | internal/broker/broker.go:275-279 | on a numbered log the offset filter is a slice, for negative and far-future offsets too |
| BrokerProtocol.ClipIsOffset | internal/broker/broker.go:275-279 | that slice starts exactly at the first message at or past the offset |
| BrokerProtocol.ReplayIsSuffixes | internal/broker/broker.go:267-283 | the nested filter loops return the concatenated suffixes, partition by partition, and their number is the sum of the clipped suffix lengths |
| BrokerProtocol.ReplayStable | internal/broker/broker.go:267-283 | in every reachable topic a replay is those suffixes, and its part of each partition stays a contiguous slice of every later log |
| BrokerRuntime.Channel.TrySend | internal/broker/broker.go:41-44 | a non-blocking send leaves the capacity-one channel full, whether or not it was |
| BrokerRuntime.Partition.Append | internal/broker/broker.go:35-48 | the log grows by the message renumbered to its position, the old length is returned, and every subscriber's channel is full |
| BrokerRuntime.Partition.Subscribe | internal/broker/broker.go:50-56 | a new empty channel is added to the subscribers |
| BrokerRuntime.Partition.Get | internal/broker/broker.go:58-65 | the entry at the offset, or nothing for negative and future offsets |
| BrokerRuntime.ConsumerGroup.GetOffset | internal/broker/broker.go:86-90 | the committed offset, 0 for a partition never committed |
| BrokerRuntime.ConsumerGroup.Commit | internal/broker/broker.go:92-98 | the partition's offset becomes the larger of old and new; other partitions keep theirs |
| BrokerRuntime.RetryShape | internal/broker/broker.go:246-257 | the calls made for a message are numbered consecutively, all but the last failed, and if the last failed too all attempts were used |
| BrokerRuntime.AnswersIff | internal/broker/broker.go:246-257 | the answer sequences the attempt loop can see are exactly failures ending in a success or filling maxRetries, each given by some handler: a handler that is a function of message and attempt number can answer every call freely |
| BrokerRuntime.Deliver | internal/broker/broker.go:246-257 | the attempt loop makes exactly those calls, reports failure only when all failed, and then leaves the message at attempt maxRetries |
| BrokerRuntime.ConsumeOne | internal/broker/broker.go:233-263 | a turn blocks exactly at the end of the log and then changes nothing; otherwise it makes the message's calls, dead-letters it if refused, and advances this partition's offset by one |
| BrokerRuntime.ConsumeUntilBlocked | internal/broker/broker.go:233-263 | left alone, the loop commits the whole log, having made each remaining message's calls in order |
| BrokerRuntime.DeadAreRefused | internal/broker/broker.go:258-261 | the loop's dead letters are exactly the refused messages, in log order, renumbered after the existing entries |
| BrokerRuntime.AttemptsRun | internal/broker/broker.go:246-257 | the step machine can follow the attempt loop call by call to the same outcome |
| BrokerRuntime.TurnRefines | internal/broker/broker.go:233-263 | the method's turn is a run of the step machine ending with the same calls, dead letters and offset, all else unchanged |
| BrokerRuntime.ConsumeTurn | internal/broker/broker.go:233-263 | if the partition, dead-letter log and offsets represent a state of the step machine before a turn, they represent the state a run of the machine leads to after it, waiting or ready, with the same calls |
| BrokerRuntime.PublishRefines | internal/broker/broker.go:189-206 | an undisturbed publish is a run of the step machine: one message with the given key, value and time, attempt 1 and its position as offset at the end of the key's log, a token for each consumer listening there, one more counted |
| BrokerObject.Filter | internal/broker/broker.go:275-279 | the inner replay loop keeps exactly the messages at or past the offset, in order |
| BrokerObject.Broker.constructor | internal/broker/broker.go:145-158 | a broker without topics whose settings come from the options |
| BrokerObject.Broker.Install | internal/broker/broker.go:165-177 | a new topic and its empty group table enter together; all other topics are untouched |
| BrokerObject.Broker.EnsureTopic | internal/broker/broker.go:161-179 | an existing topic is returned as it is; a new one has only empty logs; no log changes |
| BrokerObject.Broker.AppendTo | internal/broker/broker.go:200 | exactly one log of one topic grows, by one message; its listeners' channels are full and all other channels, dead letters, subscriptions, topics and groups are as before |
| BrokerObject.Broker.Publish | internal/broker/broker.go:189-206 | the message, with its position as offset and attempt 1, lands at the end of its key's partition, that position is returned, the partition's listeners are woken and no others, its topic's count grows by one; all other logs, dead letters, subscriptions, counts, topics and groups are as before, apart from the entries of a topic named for the first time |
| BrokerObject.Broker.Group | internal/broker/broker.go:213-222 | subscribing again under a group id finds the same offsets object and changes no group; a new group starts with no offsets and is the only group entry to change |
| BrokerObject.Broker.Replay | internal/broker/broker.go:267-283 | an error exactly for unknown topics, otherwise the concatenated log suffixes |
| BrokerObject.Broker.DLQ | internal/broker/broker.go:286-296 | an error exactly for unknown topics, otherwise the dead-letter log |
| BrokerObject.Broker.QueueDepth | internal/broker/broker.go:326-336 | the sum of all partition log lengths over all topics, in whatever order topics are visited |
| BrokerObject.Broker.DepthRepresents | internal/broker/broker.go:326-336 | that sum is the queue depth of every step-machine state the broker object represents |
| BrokerObject.Broker.PublishTurn | internal/broker/broker.go:189-206 | if the broker object represents a state of the step machine before a publish, it represents the state a run of the machine leads to after it |
| Text.AsciiAgree | internal/storage/store.go:89 | with tables that know ASCII, two ASCII strings fold together if and only if their lower cases are equal |
| Text.SteadyIff | internal/events/event.go:93 | whatever the letter tables: folding determines lower case for all spellings of a string if and only if none of its letters folds with a letter of another lower case |
| Events.ValidIff | internal/events/event.go:50-61 | an event is valid if and only if its name and its category hold a character that is not white space and its mood is from 1 to 10; otherwise the first of the three that fails is the error |
| Events.WeekdayLaws | internal/pipeline/pipeline.go:113-117 | the zero time is a Monday, a day later it is the next weekday cyclically, moments of one day share it, and days 0 and 6 are the weekend |
| Scoring.MultiplierTable | internal/pipeline/pipeline.go:126-139 | 1.5, 1.3, 1.2 and 1.1 are the factors of exactly the listed lower-cased categories, and every other factor is 1 |
| Scoring.ByteLengthLaws | internal/pipeline/pipeline.go:109 | the length the name bonus uses adds up over concatenation and is the number of letters exactly for ASCII names |
| Scoring.BonusLaw | internal/pipeline/pipeline.go:109 | the name bonus is 0, 5, 10 and 15 at lengths 0, 1, 3 and 7, rises strictly up to length 15, and is 20 from there on |
| Scoring.BonusProduct | internal/pipeline/pipeline.go:109 | up to the cap, lengths whose successors multiply have bonuses that add, as 5 log2(n + 1) does |
| Scoring.ScoreLaw | internal/pipeline/pipeline.go:105-124 | the score of a valid event is (4 mood + name bonus) × factor + 10 at weekends + 2 per tag up to 10, cut at 100 and rounded to the nearest hundredth, halves up |
| Scoring.ScoreRange | internal/pipeline/pipeline.go:105-124 | every event that passes validation scores between 9 and 100 after clamping and rounding |
| Scoring.ScoreMonotone | internal/pipeline/pipeline.go:92-124 | more mood, a longer name or more tags never lower the score or the tier |
| Scoring.WeekdayCeiling | internal/pipeline/pipeline.go:126-139 | a weekday event of a category multiplied by less than 1.2 scores at most 76 |
| Scoring.CriticalIff | internal/events/event.go:70-81 | an event of a category can be critical at weekends always, on weekdays if and only if the category is one of the six multiplied by 1.2 or more |
| Storage.EnterAgrees | internal/storage/store.go:233-247 | adding an event to an index that agrees with the primary map makes it agree with the enlarged map |
| Storage.LeaveAgrees | internal/storage/store.go:249-257 | removing an event's entry makes the index agree with the map without it |
| Storage.Store.constructor | internal/storage/store.go:25-31 | an empty store whose indices agree with it |
| Storage.Store.AddIndex | internal/storage/store.go:233-247 | the id joins its category's set and, unless the priority is empty, its priority's set; no other set changes |
| Storage.Store.RemoveIndex | internal/storage/store.go:249-257 | the id leaves those two sets; no other set changes |
| Storage.Store.Put | internal/storage/store.go:34-45 | insert or overwrite, with keys equal to event ids and both indices equal to a scan afterwards even when category or priority changed |
| Storage.Store.Delete | internal/storage/store.go:56-66 | the id is gone, both indices follow, and the result says whether it was there |
| Storage.Store.EvictExpired | internal/storage/store.go:147-160 | an id stays if and only if its event has no expiry or one not before the given time, kept events are unchanged, both indices follow, and the result is the number of ids whose expiry is set and before that time |
| Storage.EvictionLaw | internal/storage/store.go:147-160 | the same as a law about the sweep, and a second sweep at the same or an earlier time finds nothing to remove |
| Storage.Store.Contents | internal/storage/store.go:233-257 | in every valid store events are kept under their ids, and each index holds exactly the ids of a lower-cased category or non-empty priority |
| Storage.PassesIff | internal/events/event.go:92-103 | the filter passes an event if and only if category and priority, where named, agree with it letter by letter under folding, and the query, where named, occurs at some position of the name, both lower-cased |
| Storage.SelectedPass | internal/storage/store.go:85-102 | the selected events pass, and all events that pass are selected if categories and the filter's category are ASCII or none is named |
| Storage.IndexRefinesScan | internal/storage/store.go:85-102 | the indexed path returns a subset of the scan by the filter whatever the letter tables, and the same set when all categories are ASCII |
| Storage.IndexCompleteIff | internal/storage/store.go:88-95 | whatever the letter tables: the indexed path returns the scan's set for every store if and only if no letter of the filter's category folds with a letter of another lower case |
| Storage.GreekMissed | internal/storage/store.go:88-95 | with entries of the real tables, filters on sigma and on beta for which it does not |
| Listing.ListingUnique | internal/storage/store.go:105-108 | with distinct creation times any two sorts of any map iteration order agree |
| Listing.SortNewestFirst | internal/storage/store.go:105-108 | any order of the matches is arranged into a listing: each once, newest first |
| Listing.StartIndexIff | internal/storage/store.go:110-125 | for any start index: the slice is the one meant for every listing of every store of at most `most` events, with distinct ids, if and only if the end index fits in 64 bits or the wrapped start lies past `most` |
| Listing.PageIndexIff | internal/storage/store.go:110-125 | the same for the start index of a page, with product and sum wrapped to 64 bits |
| Listing.List | internal/storage/store.go:77-126 | the answer is some sorted arrangement of the selected events cut at the clamped page, or a panic where a wrapped index is negative or the end comes before the start; every event listed is stored and passes each named field of the filter, the total is the number of stored events that pass (for ASCII categories), and a limit outside 1 to 100 becomes 20 |
| Listing.AnswerPasses | internal/storage/store.go:77-126 | the same for every possible answer, with the page it reports; for any letter tables the total is at most the number of events that pass |
| Paging.PagesTileIff | internal/storage/store.go:105-125 | separate requests always show every match exactly once if and only if no tie straddles a page boundary |
| Paging.PagesInOrder | internal/storage/store.go:105-125 | with distinct creation times the pages so far are exactly a prefix of the one listing |
| Paging.AnswerIsPage | internal/storage/store.go:77-126 | an answer of the listing carries the number of matches and one page of some listing, empty past the end |
| Paging.ListPages | internal/storage/store.go:77-126 | asking for pages 1, 2, ... of an unchanged store with distinct creation times yields every match once, newest first, with the right total each time and nothing after |
| StoreStats.CountsAdd | internal/storage/store.go:192-206 | counting one more event is one increment of its group's count |
| StoreStats.Collect | internal/storage/store.go:179-206 | one pass in any order yields the total and, for category, priority and score bucket, the size of each group that occurs |
| StoreStats.CountsTotal | internal/storage/store.go:191-206 | the counts of a breakdown sum to the number of events |
| StoreStats.BreakdownsTotal | internal/storage/store.go:183-206 | each of the three breakdowns sums to the total |
| StoreStats.SpellingsMatchIndex | internal/storage/store.go:192 | summed over its spellings, a category's count is the size of its index set |
| StoreStats.BucketsArePriorities | internal/storage/store.go:196-205 | if every stored event has the tier its score earns, each score bucket's count is the count of the matching priority |
| StoreStats.CountsPlain | internal/storage/store.go:191-193 | the count of a category or priority is the number of stored events that have it |
| StoreStats.BucketsPlain | internal/storage/store.go:196-205 | for scores from 0 to 100 the four score buckets count the events below 30, from 30 to below 55, from 55 to below 80, and from 80 on |
| EndToEnd.BucketsMatchTiers | internal/storage/store.go:179-206 | in every store that runs of the pipeline, deletions and evictions can produce, the four score buckets count the four priorities |
| RateLimiter.Limiter.constructor | internal/middleware/middleware.go:122-128 | no buckets, the given rate and burst |
| RateLimiter.Limiter.Allow | internal/middleware/middleware.go:130-153 | the answer and the new bucket table are those of the request rule, which the next three rows state in plain arithmetic; no other key's bucket is shared or touched |
| RateLimiter.RefillLaw | internal/middleware/middleware.go:141-152 | a bucket with x tokens at time s holds min(burst, x + rps (t - s)) at time t; the request is admitted if and only if that is at least 1, and then costs 1 |
| RateLimiter.EmptyRefills | internal/middleware/middleware.go:141-148 | a bucket empty at time s admits at time t if and only if rps (t - s) is at least 1 |
| RateLimiter.FirstRequest | internal/middleware/middleware.go:136-139 | a key's first request is admitted and leaves burst - 1 tokens |
| RateLimiter.Account | internal/middleware/middleware.go:141-153 | over any window, admissions of a key plus what it could still spend never exceed what it could spend before plus rps × the window's duration |
| RateLimiter.WindowBoundHolds | internal/middleware/middleware.go:130-153 | in every trace of all keys, any window admits at most burst + rps × duration requests of a key |
| RateLimiter.WindowBoundIff | internal/middleware/middleware.go:136-139 | that bound holds for all traces if and only if the configured burst is at least 1 |
| RateLimiter.TokensInRange | internal/middleware/middleware.go:141-152 | after every trace each bucket holds between 0 and burst tokens |
| RateLimiter.SpacedNeverRefused | internal/middleware/middleware.go:141-153 | a key whose requests are spaced so that rps × the gap is at least 1 is never refused, whatever other keys do |
| RateLimiter.KeysIndependent | internal/middleware/middleware.go:130-153 | a key's answers in a mixed trace are its answers to its own requests alone |
| RateLimiter.BurstIsExact | internal/middleware/middleware.go:136-153 | of n simultaneous requests of a new key exactly min(n, burst) are admitted |
| CounterProtocol.InvStep | internal/metrics/metrics.go:49-84 | every step of concurrent calls keeps each cell equal to the effect of the operations so far, one cell per name, each finished call logged once |
| CounterProtocol.NoLostUpdate | internal/metrics/metrics.go:49-84 | over every interleaving the same holds, and a registered name never changes cell |
| CounterProtocol.OnlyAddsSum | internal/metrics/metrics.go:49-65 | wrapped additions in any order amount to the wrapped sum of their deltas |
| CounterProtocol.SinceLastSet | internal/metrics/metrics.go:49-84 | after the last Set of a name the value is the set one plus the later deltas, wrapped; nothing before it matters |
| Prelude.WrapLaw | internal/metrics/metrics.go:49-65 | wrapping yields the one 64-bit value that differs by a multiple of 2^64 |
| CounterProtocol.ConcurrentAdds | internal/metrics/metrics.go:49-65 | concurrent additions to one new or existing name leave the 64-bit sum of all finished ones, each counted once |
| Metrics.Collector.constructor | internal/metrics/metrics.go:21-43 | the given names at 0, each with its own cell, and no samples |
| Metrics.Collector.CellFor | internal/metrics/metrics.go:50-63 | an existing name keeps its cell; an absent one gets a fresh zero cell |
| Metrics.Collector.Add | internal/metrics/metrics.go:49-65 | one name's value changes by the delta with 64-bit wrap-around, starting from 0 if new; no other changes |
| Metrics.Collector.Set | internal/metrics/metrics.go:68-84 | one name takes the value; no other changes |
| Metrics.Collector.RecordLatency | internal/metrics/metrics.go:88-97 | the sample in whole microseconds joins its window, the oldest of a thousand leaving; other windows keep theirs |
| Metrics.Collector.LatencySnapshot | internal/metrics/metrics.go:111-125 | zeros for no samples; otherwise p50 ≤ p95 ≤ p99, each the recorded sample whose rank, counted from 0, is that percentage of n - 1 rounded down |
| Metrics.WindowIsSuffix | internal/metrics/metrics.go:88-97 | after any number of samples the window is the last thousand in arrival order |
| Metrics.SortedRank | internal/metrics/metrics.go:119-123 | the index read in a sorted copy is in range and gives such a percentile |
| Metrics.PercentileUnique | internal/metrics/metrics.go:119-123 | no other value meets the conditions a percentile is stated by |
| Metrics.MicrosecondsLaw | internal/metrics/metrics.go:88-97 | durations become whole microseconds, truncated toward zero |
| Pipeline.Run | internal/pipeline/pipeline.go:38-48 | stages run in order on event and store up to the first error |
| Pipeline.AllOrNothing | internal/pipeline/pipeline.go:38-48 | a pipeline that writes only in its last stage leaves the store unchanged when it fails and puts exactly its final event when it succeeds |
| Pipeline.StandardRun | internal/pipeline/pipeline.go:63-159 | the five built-in stages fail exactly on events without a visible name, a visible category and a mood from 1 to 10, leaving the store alone, and otherwise store the enriched, scored, classified event |
| Pipeline.StoredEvent | internal/pipeline/pipeline.go:77-148 | what is stored keeps the submitted fields, takes given or new id and creation time, carries the day and season of that time, its own score in range and the tier it earns, expires one TTL after creation, and is valid |
| Pipeline.FinalEventWellFormed | internal/pipeline/pipeline.go:77-148 | what is stored is a copy of the submission with a score from 9 to 100, the tier whose range (from 80, 55, 30, below) holds it, and an expiry one TTL after creation |
| Pipeline.Reprocessed | internal/pipeline/pipeline.go:77-148 | running a stored event through the pipeline again changes nothing but the processing time |
| EndToEnd.PlayInv | cmd/api/main.go:70-88 | in every run with deletions and evictions at any moment: writes equal successful handler calls, every call is answered by its message's content, and the store's size is accounted for |
| EndToEnd.StoreAccounts | internal/pipeline/pipeline.go:156-159 | with any number of consumers the store was written once per successful call, and its size is writes less overwrites, deletions and evictions |
| EndToEnd.StoreHoldsPublished | cmd/api/main.go:70-88 | in every state the system can get into each stored event is kept under its id, has a visible name and category, a mood from 1 to 10, a score from 9 to 100 with its tier, an expiry one TTL after creation, and is a copy of what some message in the logs decodes to |
| EndToEnd.AcceptsIff | cmd/api/main.go:70-88 | the handler accepts exactly the messages that decode to a visible name, a visible category and a mood from 1 to 10 |
| EndToEnd.OtherMoves | internal/storage/store.go:56-66 | a step other than a handler call keeps every stored event unchanged except a deleted id and, in a sweep, the expired ones |
| EndToEnd.SweepByAge | internal/storage/store.go:147-160 | in every such state, with a positive TTL, a sweep keeps an event if and only if its creation plus TTL is not before the time of the sweep (or is the zero time) |
| EndToEnd.LastsItsTtl | internal/storage/store.go:147-160 | over any run with fresh ids in which the event is not deleted and no sweep is later than its creation plus TTL, it stays in the store unchanged |
| EndToEnd.FirstOrNever | cmd/api/main.go:70-88 | a finished delivery succeeded at attempt 1 or failed at all maxRetries attempts, and the message's content decides which |
| EndToEnd.OnePutPerMessage | internal/broker/broker.go:246-262 | with one consumer per group and partition the store was written once for each acceptable message handed over |
| EndToEnd.DeadIffRefused | internal/broker/broker.go:258-262 | a message committed by a sole consumer is in the dead-letter log if and only if it does not decode or validate |
| EndToEnd.DeadByContent | internal/broker/broker.go:258-262 | in plain terms: a message committed by a sole consumer is dead-lettered if and only if it does not decode, its name or category is blank, or its mood is outside 1 to 10 |
| EndToEnd.ProcessedIffAccepted | cmd/api/main.go:70-88 | such a message was processed successfully exactly once if it decodes and validates, and otherwise never |
| EndToEnd.NoOverwrites | internal/pipeline/pipeline.go:77-80 | with fresh generated ids nothing is ever overwritten |
| EndToEnd.NothingLost | internal/broker/broker.go:229-264 | one consumer on each partition for each of some groups, publishers done and consumers at rest: writes plus dead letters equal the number of groups times published messages, and each message ended for each group in a success or a dead letter and not in both |
| TwoWorkers.OneMessageTwoEvents | cmd/worker/main.go:70-71 | from any possible state with two idle consumers of one group on a partition holding an acceptable message without an id, a run exists in which the store gains two events for it |

## Left out

- HTTP handlers, routing, JSON encoding, the other middleware, configuration, the frontend and both `main` functions, apart from the subscribed handler and the worker's repeated subscriptions. Decoding is a parameter: any function of the message bytes.
- The scheduler. Eviction is a step that may happen at any time.
- Clocks, sleeps, back-off, stage timeouts and id generation. Times are inputs taken in UTC, the rate limiter's traces have a clock that does not run backwards, and ids are inputs.
- Rounding of floating point. Scores, tokens and rates are real numbers. The percentile index is the exact quotient, which for windows of up to a thousand samples is what the float computation gives.
- 64-bit wrap-around of log offsets and published counts.
- `Search`, average score, top categories, `Get`, `Size`, `Snapshot`, `GetStats`, `TopicNames`, stage and weekday names, and the season table: one-line facts or sorts of the kind already treated.
- Locks of the store, the limiter and the classes of `BrokerRuntime`, `BrokerObject` and `Metrics`: a method runs undisturbed there. Interleavings are the subject of the step machines, of `DepthSandwich` and of `CounterProtocol`.
- The loop of `Subscribe` that starts one goroutine per partition: each start is a step of its own, at any time.
- Deliver: the handler has no side effects and is a function of the message it is shown; AnswersIff says that this restricts no answers.
- Scoring.ScoreRange: the name bonus is any table with the logarithm's exact values where these are rational, rising strictly and turning products into sums, as the logarithm does.
- Storage.Store.EvictExpired: the clock is read once before the lock in the source and is a parameter here.
- Listing.List: a sort that may leave ties in any order is described by its possible results, and computed by insertion.
