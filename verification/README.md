# Deck2: models and proofs

Deck2 is the application with which an event team manages companies, speakers, threads and
members. Most of it moves documents between a browser and MongoDB. This project models the parts
with behaviour that is hard to get right, each as a module of its own, and proves what they are
for. `dafny verify dfyconfig.toml` checks everything.

- `Balancer.dfy`: the round-robin balancer of the vendored gRPC. Every section under the mutex is
  one atomic step; the class `RoundRobin` performs them on its fields and `Protocol` adds the
  goroutines asleep inside `Get`. Rotation is fair and no wakeup is lost.
- `UpdateQueue.dfy`: the unbounded queue of a one-slot channel and a backlog, with its producers
  and its watcher, and the in-place filter of addresses.
- `SpanBucket.dfy`, `SpanStore.dfy`: the sampling ring buffers of the vendored OpenCensus, which
  refine the list of the newest accepted spans, and the store with its range query that skips
  buckets.
- `TagMap.dfy`, `TagCodec.dfy`: tag maps, their validation and their binary format, with an encoder
  over a growing array.
- `SpanIds.dfy`: the span identifier counter, the arithmetic of its period and its use by several
  goroutines.
- `EventDuration.dfy`: the length of an event by comparing days of the month, on the Gregorian
  calendar.
- `ParticipationStatus.dfy`: the participation state machine in its two server and two client forms.
- `Companies.dfy`, `CompanyStore.dfy`: the participations of a company as a map from event, the
  public view, and the cached public list over every run of calls.
- `Threads.dfy`, `ThreadCreation.dfy`, `GmailSync.dfy`: posts, meetings and threads, the creation of a
  thread with its compensation, and the Gmail synchronisation.
- `NotificationModel.dfy`, `Notifications.dfy`: what the signature of a notification tells apart, and
  the fan-out of notifications that are stored once per signature.
- `Roles.dfy`: team membership, roles and the credentials derived from them.
- `Base64Url.dfy`: the base64url text of mail contents (sections 4 and 5 of RFC 4648).
- `Search.dfy`, `Powers.dfy`, `Wrappers.dfy`: shared definitions, among them the search for the first element with a property that the collections share.
- `BulkDrafts.dfy`: drafting many mails with one re-authentication.

Where the source updates state in place there is a class or a method with a loop, and its contract
ties the new state to a function on values; the lemmas are about those functions and about all runs
of them. Go slices that are shared by nobody are sequences held in fields; the ring buffer, the
encoder buffer and the filtered address slice are arrays. What a call gets from outside (answers of
the mail server, failing inserts, results of queries, map iteration order, fresh identifiers) is a
parameter.

Three hypotheses come from elsewhere in the source. gRPC starts a balancer once; it would lose a
wakeup exactly if, without a resolver, some target were started twice
(`RoundRobinBalancer.StartsAreSafeIff`). Spans end at or after their start, because
`Span.End` adds the elapsed monotonic time to the start (trace/trace.go:280, internal/internal.go);
the clamp of negative latencies would otherwise put a span into a bucket that the latency report
skips. The lists of team members are free of repetitions, because the membership calls keep them so
(`Roles.RunsKeepMembersDistinct`); credentials read only the first entry of a member in each team
(`Roles.RepeatedMemberLosesAccess`).

## Where the code does less than it says

Each of these has a lemma or a contract with the exact condition.

- The length of an event is right exactly when the begin is less far from the end than the previous
  date with the end's day of the month (`EventDuration.GapIsDistanceIff`,
  `EventDuration.FourWeeksOverFebruary`).
- The comment on `companyToPublic` promises only the participation of the wanted event; later
  participations of the company follow with its details (`Companies.PublicForEvent`,
  `Companies.OnlyThatEventIff`); without an event, unannounced participations after an announced one
  are listed too (`Companies.OnlyAnnouncedIff`). The carried variable points to the participation of
  the iteration that set it, as Go 1.22 and later define it; the module file asks for Go 1.23.
- Thread creation that does not succeed leaves nothing behind exactly when every inserted document
  could be read back and the call did not end before its cleanup. It ends there when a meeting has no
  kind, which the validation dereferences, and when the insert of a meeting fails, which exits the
  process (`ThreadCreation.CreationIsAllOrNothing`, `ThreadCreation.KindlessMeetingLeavesThePost`,
  `ThreadCreation.FailedMeetingInsertLeavesThePost`).
- The Gmail synchronisation looks up known messages once, before the loop, and goes on with whatever
  the lookup found. It keeps one thread for each message exactly when the ids not found are distinct
  and none of them is stored: a batch that repeats a new id, or a lookup that misses a stored one,
  ends with two (`GmailSync.BatchKeepsOneThread`, `GmailSync.RepeatedIdIsStoredTwice`,
  `GmailSync.MissedIdIsStoredTwice`).
- The mail that meets the expired session is reported as failed even when its retry succeeds, and
  the progress display adds running totals (`BulkDrafts.EntriesAddUp`,
  `BulkDrafts.ProgressIsRightIff`).
- The signature of a notification forgets which field an identifier stands in. It is unambiguous as
  long as no identifier occurs in two collections (`NotificationModel.FedIff`,
  `NotificationModel.FedIsTheNotification`, `NotificationModel.FieldsAreForgotten`).

## Model

| member | source | states |
|---|---|---|
| `RoundRobinBalancer.RotationIsFair` | backend/.vendor-new/google.golang.org/grpc/balancer.go:277-296 | with k addresses connected, any k consecutive Gets from any cursor answer every connected address and no address twice |
| `RoundRobinBalancer.GetsFollowTheCycle` | backend/.vendor-new/google.golang.org/grpc/balancer.go:277-296 | the j-th of consecutive Gets answers the j-th connected address in cyclic list order from the cursor, also when the cursor was left past the end |
| `RoundRobinBalancer.CycleRotates` | backend/.vendor-new/google.golang.org/grpc/balancer.go:281-295 | moving the cursor past the first connected address turns the cyclic order by one |
| `RoundRobinBalancer.NoLostWakeup` | backend/.vendor-new/google.golang.org/grpc/balancer.go:199-265 | in every interleaving of the locked sections, Starts included, addresses are distinct and a goroutine asleep on an open channel implies that nothing is connected and the balancer is open, as long as no target is started twice without a resolver |
| `RoundRobinBalancer.StartsAreSafeIff` | backend/.vendor-new/google.golang.org/grpc/balancer.go:199-253 | over all runs without a resolver with given targets, no wakeup is lost if and only if no target is started twice |
| `RoundRobinBalancer.WokenIsServed` | backend/.vendor-new/google.golang.org/grpc/balancer.go:317-359 | a woken goroutine gets a connected address, the closing error, or sleeps again on an open channel only when nothing is connected |
| `RoundRobinBalancer.SleepersCanLeave` | backend/.vendor-new/google.golang.org/grpc/balancer.go:317-330 | a goroutine calls Get or sleeps in it; a sleeper goes on when its channel is closed and leaves when its call is cancelled, which touches nothing else |
| `RoundRobinBalancer.UpWakesForOneEntry` | backend/.vendor-new/google.golang.org/grpc/balancer.go:230-253 | with nothing connected, Up wakes the sleepers if and only if the list holds exactly one entry for the address |
| `RoundRobinBalancer.StepKeepsInv` | backend/.vendor-new/google.golang.org/grpc/balancer.go:144-384 | every locked section keeps: distinct addresses, a wait channel only while all are down and not closed, every sleeper on a closed channel or on the current one, and the notified list equal to the addresses; a Start without a resolver does when its target is not listed |
| `RoundRobinBalancer.RunKeepsInv` | backend/.vendor-new/google.golang.org/grpc/balancer.go:144-384 | the invariant holds after every run whose Starts without a resolver have distinct targets |
| `RoundRobinBalancer.LastUpdateDecides` | backend/.vendor-new/google.golang.org/grpc/balancer.go:152-182 | after a batch an address is listed as the last update about it says, and as before when there is none |
| `RoundRobinBalancer.OnlyDeletesDisconnect` | backend/.vendor-new/google.golang.org/grpc/balancer.go:152-182 | after a batch an address is connected if and only if it was and was not deleted in between |
| `RoundRobinBalancer.UpdateOneDecides` | backend/.vendor-new/google.golang.org/grpc/balancer.go:152-182 | one update changes the listing of its own address only, and an added address starts disconnected |
| `RoundRobinBalancer.RepeatedTargetLoses` | backend/.vendor-new/google.golang.org/grpc/balancer.go:199-211 | a target that is started twice leaves a goroutine asleep on an open channel while the target is connected |
| `RoundRobinBalancer.DownDisconnects` | backend/.vendor-new/google.golang.org/grpc/balancer.go:256-265 | after Down an address is connected if and only if it was and is not the one that went down; the list and every other field are as before |
| `RoundRobinBalancer.DownIsNotServed` | backend/.vendor-new/google.golang.org/grpc/balancer.go:256-361 | over all runs: after Down of an address no blocking Get and no woken goroutine is answered that address before an Up of it |
| `RoundRobinBalancer.UpConnects` | backend/.vendor-new/google.golang.org/grpc/balancer.go:230-253 | after Up an address is connected if and only if it was, or is the one that came up and is listed, whether or not somebody sleeps; the list stays as it is |
| `RoundRobinBalancer.UpWakesIff` | backend/.vendor-new/google.golang.org/grpc/balancer.go:246-252 | Up closes the wait channel if and only if there is one, the address was not connected before and exactly one address is connected afterwards |
| `RoundRobinBalancer.CloseCloses` | backend/.vendor-new/google.golang.org/grpc/balancer.go:366-384 | after Close the balancer is done, the wait channel is closed and forgotten, and nothing else changed; a second Close changes nothing |
| `RoundRobinBalancer.StartLists` | backend/.vendor-new/google.golang.org/grpc/balancer.go:199-226 | a target without a resolver is listed at the end, unconnected; a working resolver makes the notification channel; nothing else changes |
| `RoundRobinBalancer.UpdatesNotify` | backend/.vendor-new/google.golang.org/grpc/balancer.go:186-196 | a batch replaces what waits in the notification channel by the new list, unless the balancer is closed |
| `RoundRobinBalancer.GetAnswers` | backend/.vendor-new/google.golang.org/grpc/balancer.go:268-316 | when Get answers the closing error, a connected address, any address to a fail-fast call, the error for an empty list, or sleeps; which fields it leaves alone |
| `RoundRobinBalancer.FailFastRotates` | backend/.vendor-new/google.golang.org/grpc/balancer.go:297-309 | while nothing is connected, consecutive fail-fast Gets answer the addresses in turn, from the cursor on |
| `RoundRobinBalancer.RoundRobin.constructor` | backend/.vendor-new/google.golang.org/grpc/balancer.go:124-142 | a new balancer has no addresses, no channels and is not closed |
| `RoundRobinBalancer.RoundRobin.Start` | backend/.vendor-new/google.golang.org/grpc/balancer.go:199-226 | adds the target without a resolver, makes the notification channel with one, and changes nothing when closed or when the resolver fails |
| `RoundRobinBalancer.RoundRobin.ApplyUpdates` | backend/.vendor-new/google.golang.org/grpc/balancer.go:150-197 | the loops apply every update in turn (add unless present, delete the first match by shifting, ignore others) and replace the pending notification by the resulting list unless closed |
| `RoundRobinBalancer.RoundRobin.ApplyUpdate` | backend/.vendor-new/google.golang.org/grpc/balancer.go:153-181 | one update: add unless present, delete the first match by shifting, ignore others |
| `RoundRobinBalancer.RoundRobin.Up` | backend/.vendor-new/google.golang.org/grpc/balancer.go:230-253 | marks the entries of the address up to one already connected, where it gives up; otherwise closes the wait channel when exactly one entry is connected |
| `RoundRobinBalancer.RoundRobin.Connect` | backend/.vendor-new/google.golang.org/grpc/balancer.go:233-244 | the loop marks and counts up to an entry that is already connected |
| `RoundRobinBalancer.RoundRobin.Down` | backend/.vendor-new/google.golang.org/grpc/balancer.go:256-265 | disconnects the first entry of the address and nothing else; on distinct addresses everything else stays connected |
| `RoundRobinBalancer.RoundRobin.Scan` | backend/.vendor-new/google.golang.org/grpc/balancer.go:277-296 | the circular scan finds the head of the cyclic order, moves the cursor past it, and ends after one round when nothing is connected |
| `RoundRobinBalancer.RoundRobin.Sleeper` | backend/.vendor-new/google.golang.org/grpc/balancer.go:310-315 | makes a new wait channel only when there is none |
| `RoundRobinBalancer.RoundRobin.Get` | backend/.vendor-new/google.golang.org/grpc/balancer.go:268-316 | the first locked section, with the closing error, the fail-fast answers that may leave the cursor past the end, and the wait |
| `RoundRobinBalancer.RoundRobin.Woken` | backend/.vendor-new/google.golang.org/grpc/balancer.go:322-357 | the locked section after a wakeup |
| `RoundRobinBalancer.RoundRobin.Close` | backend/.vendor-new/google.golang.org/grpc/balancer.go:366-384 | closes once and wakes the sleepers; a second Close is an error that changes nothing |
| `UpdateQueue.FifoOverRuns` | backend/.vendor-new/google.golang.org/grpc/balancer_conn_wrappers.go:51-75 | in every interleaving of puts with the watcher, delivered + channel + backlog is the sequence of puts, and a non-empty backlog implies a full channel or a watcher about to load |
| `UpdateQueue.NothingIsLost` | backend/.vendor-new/google.golang.org/grpc/balancer_conn_wrappers.go:51-117 | over every run from the empty queue, what was received, one update for each receive, and what waits is exactly what was put, in order |
| `UpdateQueue.WatcherDrains` | backend/.vendor-new/google.golang.org/grpc/balancer_conn_wrappers.go:113-117 | left alone the watcher delivers everything that was put, in order, with one receive and one load for each pending update |
| `UpdateQueue.PutNeverWaits` | backend/.vendor-new/google.golang.org/grpc/balancer_conn_wrappers.go:51-62 | a put never waits and goes to the channel exactly when nothing is ahead of it; a receive waits for a full channel and the load before it |
| `UpdateQueue.StepKeepsInv` | backend/.vendor-new/google.golang.org/grpc/balancer_conn_wrappers.go:51-83 | put, receive and load each keep the queue invariant |
| `UpdateQueue.StateUpdateBuffer.constructor` | backend/.vendor-new/google.golang.org/grpc/balancer_conn_wrappers.go:45-49 | a new buffer is empty |
| `UpdateQueue.StateUpdateBuffer.Put` | backend/.vendor-new/google.golang.org/grpc/balancer_conn_wrappers.go:51-62 | appends to what is pending, using the channel only when both it and the backlog are empty |
| `UpdateQueue.StateUpdateBuffer.Load` | backend/.vendor-new/google.golang.org/grpc/balancer_conn_wrappers.go:64-75 | keeps what is pending in order and leaves a backlog only behind a full channel |
| `UpdateQueue.FilterAddresses` | backend/.vendor-new/google.golang.org/grpc/balancer_conn_wrappers.go:184-195 | the in-place loop leaves exactly the addresses that are not load balancers, in order, or everything when grpclb is in charge |
| `UpdateQueue.ShiftLeft` | backend/.vendor-new/google.golang.org/grpc/balancer_conn_wrappers.go:189-189 | the overlapping copy moves every element behind the gap left by one |
| `UpdateQueue.DropAt` | backend/.vendor-new/google.golang.org/grpc/balancer_conn_wrappers.go:188-192 | dropping one address keeps those before it and moves those behind it |
| `UpdateQueue.BackendsKeepsOrder` | backend/.vendor-new/google.golang.org/grpc/balancer_conn_wrappers.go:184-195 | filtering distributes over concatenation, so the order is kept |
| `UpdateQueue.BackendsCount` | backend/.vendor-new/google.golang.org/grpc/balancer_conn_wrappers.go:184-195 | every backend address is kept as often as it occurred and no load balancer is kept |
| `SpanBuckets.BucketKeepsNewestAccepted` | backend/.vendor-new/go.opencensus.io/trace/spanbucket.go:52-106 | over every run of adds and resizes the bucket holds the newest accepted spans in order, at most its capacity, and any two ever accepted end a sample period apart |
| `SpanBuckets.BucketHoldsAllThatFit` | backend/.vendor-new/go.opencensus.io/trace/spanbucket.go:52-106 | over every run the contents are the newest accepted spans, exactly as many as were accepted and as the capacities along the run allowed |
| `SpanBuckets.AcceptedIff` | backend/.vendor-new/go.opencensus.io/trace/spanbucket.go:52-58 | a span is accepted if and only if the capacity is not zero and it ends at least a sample period after the last accepted one |
| `SpanBuckets.AddsEvictOnlyByCapacity` | backend/.vendor-new/go.opencensus.io/trace/spanbucket.go:52-66 | between resizes the contents are the newest of what was there plus what was accepted, so nothing is evicted early |
| `SpanBuckets.WriteStores` | backend/.vendor-new/go.opencensus.io/trace/spanbucket.go:59-65 | writing the next slot and wrapping around appends to the stored list and drops its oldest element only when full |
| `SpanBuckets.Bucket.constructor` | backend/.vendor-new/go.opencensus.io/trace/spanbucket.go:45-49 | a new bucket stands for the empty list of its capacity |
| `SpanBuckets.Bucket.Add` | backend/.vendor-new/go.opencensus.io/trace/spanbucket.go:52-66 | the circular buffer takes the step of the list: the time gate, the zero capacity, append and keep the newest |
| `SpanBuckets.Bucket.Size` | backend/.vendor-new/go.opencensus.io/trace/spanbucket.go:69-74 | the length of the list |
| `SpanBuckets.Bucket.Span` | backend/.vendor-new/go.opencensus.io/trace/spanbucket.go:77-85 | the i-th element of the list, oldest first, across the wrap |
| `SpanBuckets.Bucket.Resize` | backend/.vendor-new/go.opencensus.io/trace/spanbucket.go:88-106 | the new buffer stands for the newest n elements in order |
| `SpanBuckets.Bucket.Enlarge` | backend/.vendor-new/go.opencensus.io/trace/spanbucket.go:90-98 | the spans move to the front of a larger buffer |
| `SpanBuckets.Bucket.Shrink` | backend/.vendor-new/go.opencensus.io/trace/spanbucket.go:100-105 | the newest n spans fill the new buffer |
| `SpanBuckets.LatencyBucket` | backend/.vendor-new/go.opencensus.io/trace/spanbucket.go:109-115 | answers a bucket whose bounds contain the latency |
| `SpanBuckets.BucketsPartition` | backend/.vendor-new/go.opencensus.io/trace/spanbucket.go:122-130 | no latency lies within the bounds of two buckets |
| `SpanStores.ReportIsFullScan` | backend/.vendor-new/go.opencensus.io/trace/spanstore.go:146-179 | on every store reachable by spans that start, spans that end and resizes, and for all bounds, the pruned latency report is the filtered scan of all stored spans; spans end at or after their start, as Span.End makes them |
| `SpanStores.LatencyBucketsFollowTheRun` | backend/.vendor-new/go.opencensus.io/trace/spanstore.go:261-306 | over every run each latency bucket went through exactly the successful spans of its latency that finished, and the resizes |
| `SpanStores.ErrorBucketsFollowTheRun` | backend/.vendor-new/go.opencensus.io/trace/spanstore.go:261-306 | over every run there is a bucket for exactly the codes that occurred, made with the error capacity of that moment, which went through the finished spans of its code and the resizes since |
| `SpanStores.ActiveSpansAreRunning` | backend/.vendor-new/go.opencensus.io/trace/spanstore.go:274-306 | over every run the active spans are those that started and did not finish since |
| `SpanStores.ReportIsDocumented` | backend/.vendor-new/go.opencensus.io/trace/spanstore.go:146-179 | a stored successful span is reported as often as the bucket of its latency holds it if its duration is within the two bounds, 0 standing for no upper one, and not at all otherwise |
| `SpanStores.WantedIsDocumented` | backend/.vendor-new/go.opencensus.io/trace/spanstore.go:166-175 | the comparison of the clamped durations is the comparison of the durations |
| `SpanStores.SkippingEqualsFullScan` | backend/.vendor-new/go.opencensus.io/trace/spanstore.go:155-178 | skipping whole buckets yields the same sequence as filtering everything, whatever the bounds |
| `SpanStores.SkippedHoldNothingWanted` | backend/.vendor-new/go.opencensus.io/trace/spanstore.go:157-160 | a skipped bucket can hold no span the report wants, whatever the bounds |
| `SpanStores.FilterCount` | backend/.vendor-new/go.opencensus.io/trace/spanstore.go:166-175 | the filter keeps exactly the spans within the bounds, as often as they are there |
| `SpanStores.RunsAreSorted` | backend/.vendor-new/go.opencensus.io/trace/spanstore.go:261-306 | in every reachable store each latency bucket holds only successful spans of its range that ended after they started, and each error bucket only spans of its code |
| `SpanStores.ErrorReportIsFullScan` | backend/.vendor-new/go.opencensus.io/trace/spanstore.go:60-88 | looking only into the bucket of the wanted code finds what filtering every error span finds, in any map order |
| `SpanStores.SpanStore.VisitErrors` | backend/.vendor-new/go.opencensus.io/trace/spanstore.go:60-88 | code 0 visits every error bucket once, another code only its own, and the answer is their contents |
| `SpanStores.FilterStored` | backend/.vendor-new/go.opencensus.io/trace/spanstore.go:161-177 | stopping at the first empty slot misses nothing, and the buffer order is a rearrangement of the span order |
| `SpanStores.ScanBuffer` | backend/.vendor-new/go.opencensus.io/trace/spanstore.go:161-177 | the inner loop collects the wanted spans of the filled slots before the first empty one |
| `SpanStores.ClampSize` | backend/.vendor-new/go.opencensus.io/trace/spanstore.go:92-110 | sizes in range are kept, negative ones become 0 and large ones the maximum |
| `SpanStores.SpanStore.constructor` | backend/.vendor-new/go.opencensus.io/trace/spanstore.go:195-205 | nine empty latency buckets of the given size and no error buckets |
| `SpanStores.SpanStore.Add` | backend/.vendor-new/go.opencensus.io/trace/spanstore.go:274-278 | adds the span to the active ones and touches nothing else |
| `SpanStores.SpanStore.Finished` | backend/.vendor-new/go.opencensus.io/trace/spanstore.go:282-306 | stops the span being active and puts its data into exactly one bucket, by clamped latency or by code, making the error bucket when needed; the store stays sorted |
| `SpanStores.SpanStore.Resize` | backend/.vendor-new/go.opencensus.io/trace/spanstore.go:261-271 | every bucket keeps its newest spans up to its new size, and later error buckets get the new size |
| `SpanStores.SpanStore.Configure` | backend/.vendor-new/go.opencensus.io/trace/spanstore.go:92-110 | resizes with the clamped sizes |
| `SpanStores.SpanStore.ReportSpansByLatency` | backend/.vendor-new/go.opencensus.io/trace/spanstore.go:146-179 | the report over the real buffers has the elements of the full filtered scan of the stored spans, and each span as often as the documented bounds and its bucket say |
| `SpanStores.SpanStore.ScanBuckets` | backend/.vendor-new/go.opencensus.io/trace/spanstore.go:154-178 | the loops with the bucket skipping |
| `SpanStores.SpanStore.ReportSpansByError` | backend/.vendor-new/go.opencensus.io/trace/spanstore.go:60-88 | each error span of the wanted code, or of any code for 0, is reported as often as it is stored, and nothing else is |
| `TagMaps.CreateMetadatas` | backend/.vendor-new/go.opencensus.io/tag/map.go:158-171 | the last given time to live wins, no metadata means unlimited, only nil metadata means none |
| `TagMaps.Map.Apply` | backend/.vendor-new/go.opencensus.io/tag/map.go:70-182 | insert, update, upsert and delete with the value check; an error leaves the map as it was |
| `TagMaps.CopyChecked` | backend/.vendor-new/go.opencensus.io/tag/map.go:187-200 | succeeds exactly when every tag of the context is valid and then copies them all |
| `TagMaps.New` | backend/.vendor-new/go.opencensus.io/tag/map.go:187-209 | succeeds exactly when the context is valid and every mutator succeeds, with the result of applying them in turn |
| `TagMaps.NewKey` | backend/.vendor-new/go.opencensus.io/tag/key.go:25-30 | a key is made exactly for valid names and carries the name |
| `TagMaps.MutatorEffect` | backend/.vendor-new/go.opencensus.io/tag/map.go:70-156 | what the tags hold for any key after a mutator: only its own key may change, insert needs it absent, update present, and an invalid value is an error |
| `TagMaps.TtlIsTheLast` | backend/.vendor-new/go.opencensus.io/tag/map.go:158-171 | the time to live is that of the last metadata that is not nil |
| `TagMaps.NilMetadataIsNoTtl` | backend/.vendor-new/go.opencensus.io/tag/map.go:158-171 | only nil metadata mean no propagation, no metadata unlimited propagation |
| `TagMaps.Boundaries` | backend/.vendor-new/go.opencensus.io/tag/validate.go:18-56 | the bounds of the checks: printable bytes are 32 to 126, names have 1 to 255 of them, values up to 255 |
| `TagMaps.MutatorsKeepValid` | backend/.vendor-new/go.opencensus.io/tag/map.go:187-209 | mutators with checked keys keep every tag valid |
| `TagCodec.DecodeUndoesEncode` | backend/.vendor-new/go.opencensus.io/tag/map_codec.go:164-239 | for any map order decoding the encoding succeeds if and only if the tags that travel are valid, and then gives back exactly the unlimited-propagation tags |
| `TagCodec.BuiltMapsTravel` | backend/.vendor-new/go.opencensus.io/tag/map_codec.go:164-239 | a map built by New from checked keys survives the wire |
| `TagCodec.DecodeTags` | backend/.vendor-new/go.opencensus.io/tag/map_codec.go:206-237 | the decoding loop over written tags succeeds if and only if all of them are valid, and adds exactly these |
| `TagCodec.ReadUndoesWrite` | backend/.vendor-new/go.opencensus.io/tag/map_codec.go:65-136 | reading a written length-prefixed string gives it back and stops right behind it |
| `TagCodec.UvarintUndoesPut` | backend/.vendor-new/go.opencensus.io/tag/map_codec.go:67-79 | reading a written varint gives the number back and consumes exactly its bytes |
| `TagCodec.OverflowIsRefused` | backend/.vendor-new/go.opencensus.io/tag/map_codec.go:119-136 | a varint whose tenth byte does not fit in 64 bits, or that is longer, is not read |
| `TagCodec.UvarintReadsAll` | backend/.vendor-new/go.opencensus.io/tag/map_codec.go:119-136 | every 64-bit number is read back from its varint |
| `TagCodec.KnownEncodings` | backend/.vendor-new/go.opencensus.io/tag/map_codec.go:164-180 | the bytes of one tag that travels, of one that does not and of a nil map |
| `TagCodec.KnownDecodings` | backend/.vendor-new/go.opencensus.io/tag/map_codec.go:183-204 | no bytes and a version alone are no tags; the varint of 300 |
| `TagCodec.ShortString` | backend/.vendor-new/go.opencensus.io/tag/map_codec.go:119-136 | a string of fewer than 128 bytes is its length byte and its bytes; the errors when they are not all there |
| `TagCodec.Rejections` | backend/.vendor-new/go.opencensus.io/tag/map_codec.go:183-239 | an unknown version or type byte, a missing length and a length beyond the end each have their error |
| `TagCodec.BadKeyIsRejected` | backend/.vendor-new/go.opencensus.io/tag/map_codec.go:218-226 | an empty key is an error |
| `TagCodec.BadValueIsRejected` | backend/.vendor-new/go.opencensus.io/tag/map_codec.go:218-232 | a value with an unprintable byte is an error |
| `TagCodec.EncoderGrpc.constructor` | backend/.vendor-new/go.opencensus.io/tag/map_codec.go:37-41 | nothing written or read yet |
| `TagCodec.EncoderGrpc.GrowIfRequired` | backend/.vendor-new/go.opencensus.io/tag/map_codec.go:146-152 | makes the room asked for and loses nothing that was written |
| `TagCodec.EncoderGrpc.WriteByte` | backend/.vendor-new/go.opencensus.io/tag/map_codec.go:83-87 | appends one byte |
| `TagCodec.EncoderGrpc.WriteUvarint` | backend/.vendor-new/go.opencensus.io/tag/map_codec.go:76-77 | appends the varint within the room made for it |
| `TagCodec.EncoderGrpc.CopyIn` | backend/.vendor-new/go.opencensus.io/tag/map_codec.go:78-80 | copies the string behind the cursor and keeps what was written before |
| `TagCodec.EncoderGrpc.WriteStringWithVarintLen` | backend/.vendor-new/go.opencensus.io/tag/map_codec.go:65-81 | appends the length as a varint and then the bytes, never past the end of the buffer |
| `TagCodec.EncoderGrpc.WriteTagString` | backend/.vendor-new/go.opencensus.io/tag/map_codec.go:43-47 | appends the type byte, the key and the value |
| `TagCodec.EncoderGrpc.ReadByte` | backend/.vendor-new/go.opencensus.io/tag/map_codec.go:101-105 | answers the byte at the cursor and moves it by one |
| `TagCodec.EncoderGrpc.ReadBytesWithVarintLen` | backend/.vendor-new/go.opencensus.io/tag/map_codec.go:119-136 | the string at the cursor, or the error for missing bytes, for a length beyond the end, or for one that does not fit in an int; an error leaves the cursor where it was |
| `TagCodec.Encode` | backend/.vendor-new/go.opencensus.io/tag/map_codec.go:164-180 | the version byte and then every unlimited-propagation tag in map order; nothing for a nil map |
| `TagCodec.Decode` | backend/.vendor-new/go.opencensus.io/tag/map_codec.go:183-239 | the map of all tags read, or the first error |
| `SpanIds.IdsAreDistinct` | backend/.vendor-new/go.opencensus.io/trace/trace.go:577-585 | any 2^64 - 1 consecutive identifiers of an odd increment are non-zero and pairwise distinct, as numbers and as bytes |
| `SpanIds.InterleavedIds` | backend/.vendor-new/go.opencensus.io/trace/trace.go:577-585 | however goroutines interleave their additions, the identifiers are one and the same sequence, any 2^64 - 1 consecutive ones are non-zero and pairwise distinct, and no call, returned or running, takes more than two rounds of its loop while at most 2^64 additions are made during it |
| `SpanIds.CallIsCounted` | backend/.vendor-new/go.opencensus.io/trace/trace.go:577-585 | a call that begins adds once in each round, lasts for the additions of all goroutines, and returns the sum of its last addition, the first that is not zero |
| `SpanIds.StaysPatient` | backend/.vendor-new/go.opencensus.io/trace/trace.go:577-581 | a call that met a zero meets no second one within 2^64 additions, whoever makes them |
| `SpanIds.FullPeriod` | backend/.vendor-new/go.opencensus.io/trace/trace.go:577-581 | any 2^64 consecutive additions, whichever goroutines make them, produce every 64-bit value exactly once |
| `SpanIds.CounterRepeats` | backend/.vendor-new/go.opencensus.io/trace/trace.go:577-581 | two counter values agree if and only if their distance is a multiple of 2^64 |
| `SpanIds.EvenIncrementRepeats` | backend/.vendor-new/go.opencensus.io/trace/trace.go:546-546 | with an even increment the values repeat after 2^63 additions, so the forced bit is needed |
| `SpanIds.BytesTellIdsApart` | backend/.vendor-new/go.opencensus.io/trace/trace.go:582-584 | distinct identifiers have distinct little-endian bytes |
| `SpanIds.BytesStandForTheId` | backend/.vendor-new/go.opencensus.io/trace/trace.go:582-584 | read as a little-endian number the bytes are the identifier |
| `SpanIds.ForceOdd` | backend/.vendor-new/go.opencensus.io/trace/trace.go:546-546 | sets the lowest bit and keeps the others |
| `SpanIds.IdGenerator.constructor` | backend/.vendor-new/go.opencensus.io/trace/trace.go:540-546 | the seed is kept and the increment becomes odd |
| `SpanIds.IdGenerator.NewSpanID` | backend/.vendor-new/go.opencensus.io/trace/trace.go:577-585 | a non-zero identifier after at most two additions, two exactly when the first sum is zero |
| `EventDuration.GapIsDistanceIff` | backend/src/models/event.go:54-71 | for an end n days after the begin the loop counts n days if and only if n is less than the distance from the end back to the previous date with its day of the month |
| `EventDuration.GapIsFirst` | backend/src/models/event.go:65-68 | the loop stops at the first date with the wanted day of the month, at most 60 days away |
| `EventDuration.DurationOfShortEvents` | backend/src/models/event.go:54-71 | an end 0 to 27 days after the begin gives that difference plus one |
| `EventDuration.TwentyEightDistinctDays` | backend/src/models/event.go:65-68 | 28 consecutive dates have distinct days of the month |
| `EventDuration.FourWeeksOverFebruary` | backend/src/models/event.go:54-71 | 28 days across the end of a common February count as one day, so the bound is sharp |
| `EventDuration.BackGapIsFirst` | backend/src/models/event.go:65-68 | no date strictly between a date and the one BackGap days earlier shares its day of the month |
| `EventDuration.NextIsTheNextDay` | backend/src/models/event.go:65-68 | the next date is the next day of the Gregorian calendar, over the ends of months, leap years and centuries |
| `EventDuration.AddDaysCounts` | backend/src/models/event.go:65-68 | going n dates ahead adds n to the number of the day in the Gregorian calendar |
| `EventDuration.DurationInDays` | backend/src/models/event.go:54-110 | terminates for every pair of dates and answers one more than the days to the first matching day of the month; an error exactly when a date is missing |
| `ParticipationStatus.FourFormsAgree` | backend/src/models/participationStatus.go:40-165 | for every integer step the server machine, the server table, the client table and the client function are the same relation |
| `ParticipationStatus.ReachedFrom` | backend/src/models/participationStatus.go:40-111 | from which statuses and by which step each status is reached, and when there is no step |
| `ParticipationStatus.WalkLowersRank` | backend/src/models/participationStatus.go:40-111 | a run of successful steps is no longer than the rank it loses |
| `ParticipationStatus.PathsToAnnounced` | backend/src/models/participationStatus.go:40-111 | for every status, exactly which step sequences end in ANNOUNCED |
| `ParticipationStatus.RunsFromSuggested` | backend/src/models/participationStatus.go:40-111 | runs from SUGGESTED have at most six steps, two of them reach ANNOUNCED, and only from ACCEPTED |
| `ParticipationStatus.LastStep` | backend/src/models/participationStatus.go:40-111 | a run that ends in ANNOUNCED was in ACCEPTED one step earlier |
| `ParticipationStatus.StatusCell.Next` | backend/src/models/participationStatus.go:40-111 | the method moves exactly along the relation and leaves the status alone on each of the two errors |
| `ParticipationStatus.Parse` | backend/src/models/participationStatus.go:167-221 | an accepted text is the text of the answered status |
| `ParticipationStatus.ParseReadsBack` | backend/src/models/participationStatus.go:167-221 | parsing undoes printing for every status and rejects every other text |
| `ParticipationStatus.TextTellsApart` | backend/src/models/participationStatus.go:10-33 | every status has its own text |
| `Companies.EditFirstIsMapUpdate` | backend/src/mongodb/company.go:783-910 | a positional update of the list is the update of one key of the map from event to participation |
| `Companies.AppendIsMapInsert` | backend/src/mongodb/company.go:620-658 | appending an absent event is inserting a key |
| `Companies.ByEventIsLookup` | backend/src/mongodb/company.go:620-710 | the map has the first participation of each event |
| `Companies.EditSetsItsFields` | backend/src/mongodb/company.go:519-910 | field by field what each update of a participation sets; every other field keeps its value; subscribers and threads are added once |
| `Companies.PullsOnlyThat` | backend/src/mongodb/company.go:834-1430 | pulling takes out every occurrence of the element and nothing else, and keeps the order |
| `Companies.CompanyToPublic` | backend/src/mongodb/company.go:348-411 | the loop, with the participation it carries from one iteration to the next |
| `Companies.PublicItemsAre` | backend/src/mongodb/company.go:392-401 | exactly the public items are shown, in order, each with its quantity |
| `Companies.MakeEntry` | backend/src/mongodb/company.go:373-404 | one entry: the event of the iteration, partner, stands and package of the carried participation, with the public items of the package or the empty package when it is unknown |
| `Companies.PublicForEvent` | backend/src/mongodb/company.go:348-411 | for one event: an error exactly when its participation is not announced, otherwise that participation and its details repeated for every later one |
| `Companies.OnlyThatEventIff` | backend/src/mongodb/company.go:346-348 | the documented result, only the participation of the event, is what comes out if and only if it is the last one |
| `Companies.PublicWithoutEvent` | backend/src/mongodb/company.go:348-411 | without an event the view starts at the first announced participation and shows for each from there on the details of the last announced one so far |
| `Companies.CarriedIsLastAnnounced` | backend/src/mongodb/company.go:357-361 | what is carried is the last announced participation so far |
| `Companies.OnlyAnnouncedIff` | backend/src/mongodb/company.go:346-411 | without an event the documented result, the announced participations, comes out if and only if no participation after the first announced one is unannounced |
| `Companies.SuggestedIsListedToo` | backend/src/mongodb/company.go:346-411 | an announced participation followed by a suggested one gives two entries, with and without an event |
| `Companies.PublicReadsOnlyTheView` | backend/src/mongodb/company.go:348-411 | the public view depends only on event, status, partner, package, stand details and stands |
| `CompanyStore.CacheAgrees` | backend/src/mongodb/company.go:425-502 | over every run of calls a filled cache equals a fresh computation and no company has two participations for an event |
| `CompanyStore.RunKeepsInv` | backend/src/mongodb/company.go:620-1481 | both invariants hold along every run from a good state |
| `CompanyStore.CallKeepsInv` | backend/src/mongodb/company.go:620-1481 | every single call keeps them, whether it resets the cache or not |
| `CompanyStore.UnresetEditsAreInvisible` | backend/src/mongodb/company.go:519-1394 | participation updates that do not reset the cache (subscribers, threads, mail threads, billing removal) do not change the public list |
| `CompanyStore.UnresetCompanyEditsAreInvisible` | backend/src/mongodb/company.go:1076-1181 | neither do the updates of the employers |
| `CompanyStore.AnnounceIsStepEach` | backend/src/mongodb/company.go:1439-1481 | the bulk announce is step 1 on each accepted participation of the current event, and all of these steps succeed |
| `CompanyStore.EditAtChangesOne` | backend/src/mongodb/company.go:783-910 | an update changes one participation of one company, the first on the event of the first with the id, and fails if and only if there is none |
| `CompanyStore.StepMovesTheStatus` | backend/src/mongodb/company.go:662-710 | a step succeeds if and only if the participation is there and its status has that step, and then only the status changes, to the next one |
| `CompanyStore.QueryShows` | backend/src/mongodb/company.go:425-492 | the query shows, in order, the companies with a participation on the event, one with the partner flag, a matching name and a public view |
| `CompanyStore.AcceptedIdsAre` | backend/src/mongodb/company.go:1450-1475 | one id for each company with an accepted participation on the event, in order |
| `CompanyStore.CompaniesType.CreateCompany` | backend/src/mongodb/company.go:80-129 | appends the document with the given texts and nothing else set unless the insert fails; the cache survives exactly when nothing was added or the read back fails |
| `CompanyStore.CompaniesType.AddParticipation` | backend/src/mongodb/company.go:620-658 | if and only if the company has no participation on the current event, appends a suggested one whose only subscriber is the member, and resets the cache; otherwise changes nothing |
| `CompanyStore.CompaniesType.StepStatus` | backend/src/mongodb/company.go:662-710 | moves the status of the current-event participation and resets the cache, or changes nothing |
| `CompanyStore.CompaniesType.UpdateFirst` | backend/src/mongodb/company.go:783-822 | only the first participation of the event changes; fails when there is none |
| `CompanyStore.CompaniesType.UpdateParticipation` | backend/src/mongodb/company.go:783-910 | the setting calls: the positional update, and the reset of those that reset |
| `CompanyStore.CompaniesType.UpdateCompany` | backend/src/mongodb/company.go:932-1181 | field by field what each call on the company sets, and which of them reset the cache |
| `CompanyStore.CompaniesType.AnnounceAcceptedCompanies` | backend/src/mongodb/company.go:1439-1481 | announces exactly the accepted participations of the current event, changes nothing else, answers the number of companies changed and resets the cache |
| `CompanyStore.CompaniesType.GetPublicCompanies` | backend/src/mongodb/company.go:425-502 | answers the cached list or runs the query, stores the list only for the unfiltered query, and in every reachable state answers what the query finds afresh, for every combination of event, partner and name filter |
| `CompanyStore.CompaniesType.CachedOrFresh` | backend/src/mongodb/company.go:434-501 | the cache is used and filled only by the unfiltered query |
| `CompanyStore.SelectionWithoutFilters` | backend/src/mongodb/company.go:457-466 | absent filters let every company pass |
| `CompanyStore.CompaniesType.RunQuery` | backend/src/mongodb/company.go:441-492 | the loop converts the companies that pass event, partner and name filter, in order, and drops those whose conversion fails |
| `CompanyStore.CompaniesType.ResetCurrentPublicCompanies` | backend/src/mongodb/init.go:70-84 | a tick empties the cache |
| `ThreadCreation.AddCompanyThread` | backend/src/router/company.go:408-537 | the handler makes exactly these accesses; success adds exactly one post, one thread about it, the optional meeting, and the thread at the end of the communications of the company in the current event; any other end leaves the documents as they were if and only if no inserted document stayed unreadable and the call did not end before its cleanup; and exactly when it succeeds or ends without an answer |
| `ThreadCreation.CreationIsAllOrNothing` | backend/src/router/company.go:408-537 | for every request and every combination of failures: success exactly when nothing fails, an end without an answer exactly for a kindless meeting or a failing meeting insert, and unchanged documents if and only if there is no residue, whose extent is given |
| `ThreadCreation.CreationKeepsFreshIds` | backend/src/router/company.go:435-513 | no document that is left behind gets its id again |
| `ThreadCreation.CreateAll` | backend/src/router/company.go:435-513 | the post, the meeting with its three ways to end, and the rest |
| `ThreadCreation.CreateAndAttach` | backend/src/router/company.go:472-513 | the thread, its attachment and the two cleanups |
| `ThreadCreation.KindlessMeetingLeavesThePost` | backend/src/mongodb/meeting.go:106-109 | a meeting without a kind ends the call with the post stored although nothing fails |
| `ThreadCreation.FailedMeetingInsertLeavesThePost` | backend/src/mongodb/meeting.go:180-184 | a valid meeting whose insert fails ends the process with the post stored |
| `GmailSync.SyncGmailMessages` | backend/src/router/company.go:1372-1455 | the handler keeps the promise for whatever the lookup found, all, some or none of the stored ids: the count is the number of attached threads, and a batch that was found completely changes nothing |
| `GmailSync.BatchKeepsPromise` | backend/src/router/company.go:1372-1455 | old posts and threads stay, each attached thread is new and holds one message that was not found, in order, with its kind, id and text in a post of its own, none is missed when nothing fails, and nothing else is left behind when the read backs work |
| `GmailSync.LoopAddsOnlyAttached` | backend/src/router/company.go:1383-1450 | without failed read backs the new threads are the attached ones and the new posts are their entries |
| `GmailSync.CompleteLookup` | backend/src/mongodb/thread.go:125-150 | a complete lookup finds exactly the stored ids, and then only the new ids have to be distinct |
| `GmailSync.ResendChangesNothing` | backend/src/router/company.go:1372-1455 | sending a fully synced batch again changes nothing, even if every insert would fail |
| `GmailSync.UnstorableIsStoredTwice` | backend/src/router/company.go:1372-1455 | when nothing else fails, every batch with a repeated or an already stored id among those not found ends with two threads for one message |
| `GmailSync.RepeatedIdIsStoredTwice` | backend/src/router/company.go:1383-1449 | a batch that repeats a new id ends with two threads for it |
| `GmailSync.MissedIdIsStoredTwice` | backend/src/router/company.go:1377-1380 | a stored id that a failed lookup misses ends with two threads |
| `GmailSync.SyncNext` | backend/src/router/company.go:1383-1450 | one iteration: a found message is skipped, any other is synced and counted when attached |
| `GmailSync.SyncOne` | backend/src/router/company.go:1411-1449 | one message: post, thread, attachment and the two cleanups |
| `GmailSync.SyncOneIsOneSynced` | backend/src/router/company.go:1411-1449 | a message adds a post with its text, a thread and a reference, or no reference and, unless a read back failed, nothing; old posts and threads stay |
| `Threads.DeleteNewThread` | backend/src/mongodb/thread.go:153-190 | deleting a thread that nothing refers to, after its entry, gives back the documents from before the two were made |
| `Threads.AttachAppends` | backend/src/mongodb/company.go:1184-1212 | an attachment fails if and only if it does not reach the database or there is no participation; otherwise the thread is appended to its communications and no other field, participation or company changes |
| `Threads.AppendedByEvent` | backend/src/mongodb/company.go:1195-1199 | on the map from event to participation: the communications of that event are the old ones with the threads appended |
| `Threads.AppendedTwice` | backend/src/mongodb/company.go:1195-1199 | appending threads one after another appends all of them in order |
| `Threads.ValidationIs` | backend/src/mongodb/meeting.go:83-112 | which meetings are valid, and which end the call because they have no kind |
| `Threads.DeleteThreadRemoves` | backend/src/mongodb/thread.go:153-190 | exactly the thread, its entry, its comments and the references of speakers go; everything else stays |
| `GmailSync.HoldOneMore` | backend/src/router/company.go:1397-1449 | the threads attached so far keep their messages and the next one holds its own |
| `GmailSync.KnownIds` | backend/src/mongodb/thread.go:125-150 | the ids of the batch that the threads delivered by the cursor carry |
| `GmailSync.StorableKeepsOne` | backend/src/router/company.go:1383-1450 | when the ids to be stored are distinct and new, one thread per message is kept whatever fails |
| `GmailSync.OneNeedsStorable` | backend/src/router/company.go:1383-1450 | when every message that was not found got its thread, one thread per message needs distinct and new ids |
| `GmailSync.BatchKeepsOneThread` | backend/src/router/company.go:1372-1455 | when nothing else fails there is one thread per message afterwards if and only if there was before, the ids that were not found are distinct, and none of them is stored already; then every message with an id has a thread |
| `Threads.Database.CreatePost` | backend/src/mongodb/post.go:32-55 | a fresh post, nothing, or a post that is left behind when the read back fails |
| `Threads.Database.DeletePost` | backend/src/mongodb/post.go:71-82 | removes that post only and says whether it was there |
| `Threads.Database.CreateMeeting` | backend/src/mongodb/meeting.go:161-192 | a fresh meeting, one left behind when the read back fails, or the end of the process when the insert fails |
| `Threads.Database.DeleteMeeting` | backend/src/mongodb/meeting.go:209-229 | removes that meeting only |
| `Threads.Database.CreateThread` | backend/src/mongodb/thread.go:57-95 | a fresh thread, nothing, or one left behind when the read back fails |
| `Threads.Database.DeleteThread` | backend/src/mongodb/thread.go:153-190 | removes the thread, its entry and its comments, whether or not these still exist, and pulls it from every speaker |
| `Threads.Database.AddThread` | backend/src/mongodb/company.go:1184-1212 | with a thread that is not referred to yet: the thread at the end of the communications of the company in the current event and nothing else, or nothing at all |
| `Notifications.FanOutAddsTheMissing` | backend/src/mongodb/notification.go:24-203 | whatever inserts fail, signatures stay unique and only missing signatures of valid recipients are added; when all inserts work, exactly those |
| `Notifications.FanOutCounts` | backend/src/mongodb/notification.go:24-203 | it adds one document for each missing signature |
| `Notifications.FanOutStores` | backend/src/mongodb/notification.go:151-203 | what was stored stays, and what is new is the notification of one of the recipients |
| `Notifications.RepeatedFanOutIsNoOp` | backend/src/mongodb/notification.go:24-135 | repeating a fan-out changes nothing |
| `Notifications.SignaturesStayUnique` | backend/src/mongodb/notification.go:24-391 | signatures stay unique over every run of fan-outs and deletes |
| `Notifications.FanOutInRun` | backend/src/mongodb/notification.go:24-203 | in every run with working inserts a fan-out adds exactly the signatures of its valid recipients |
| `Notifications.WhoIsTold` | backend/src/mongodb/notification.go:24-135 | for every environment exactly who is told what, over the subscriptions, teams, posts and tags themselves: nobody without an event, admins outside production, subscribers of the event, coordinators and tagged members unless a company or speaker is missing before them, and the author in production only of tags |
| `Notifications.WhoIsTagged` | backend/src/mongodb/notification.go:104-134 | a member is told of a tag exactly when a tag of the given post, or else of the entry of the thread, names it, and what it is told has the kind and the post replaced |
| `Notifications.SubscribersAreTheFirst` | backend/src/mongodb/notification.go:49-62 | the subscribers are the list of the first participation on the event, and nobody when there is none |
| `Notifications.NotificationsType.DeleteNotification` | backend/src/mongodb/notification.go:362-374 | removes that document only and answers it, or nothing when there is none |
| `Notifications.NotificationsType.DeleteAllMemberNotifications` | backend/src/mongodb/notification.go:376-391 | removes exactly the documents of the member and answers how many |
| `NotificationModel.FedIff` | backend/src/models/notification.go:137-169 | two notifications feed the digester the same text if and only if kind, member and the list of present identifiers agree |
| `NotificationModel.FedIsTheNotification` | backend/src/models/notification.go:135-169 | as long as no identifier occurs in two collections, that is the case if and only if they agree in everything but the name |
| `NotificationModel.SignatureIff` | backend/src/models/notification.go:135-169 | unless the digest collides, signatures agree if and only if kind, member and the list of present identifiers do |
| `NotificationModel.FieldsAreForgotten` | backend/src/models/notification.go:137-169 | an identifier shared by a speaker and a company would give both notifications one signature |
| `NotificationModel.KindsArePlain` | backend/src/models/notification.go:12-41 | no character of a kind can be taken for a hexadecimal digit |
| `NotificationModel.InvalidIff` | backend/src/models/notification.go:84-132 | which notifications are invalid, kind by kind |
| `NotificationModel.AllPresent` | backend/src/models/notification.go:144-166 | the order of the identifiers in what is hashed |
| `NotificationModel.HexStandsForTheId` | backend/src/models/notification.go:142-142 | the hexadecimal text of an identifier, read as a number, is the identifier |
| `NotificationModel.TextTellsKinds` | backend/src/models/notification.go:12-41 | every kind can be read off its text |
| `NotificationModel.Hash` | backend/src/models/notification.go:137-169 | the conditional writes feed exactly the kind, the member and the present identifiers in order |
| `NotificationModel.FeedAll` | backend/src/models/notification.go:141-166 | each write is the hexadecimal text of a present identifier and nothing for an absent one |
| `Notifications.AsManyAsSignatures` | backend/src/mongodb/notification.go:151-203 | with unique signatures there are as many documents as signatures |
| `Notifications.NotificationsType.NotifyMember` | backend/src/mongodb/notification.go:151-203 | stores the notification unless it is invalid, its signature is stored or the insert fails |
| `Notifications.NotificationsType.Notify` | backend/src/mongodb/notification.go:24-135 | the nested loops tell exactly the list of recipients, in order, with the early returns |
| `Notifications.NotificationsType.NotifyTagged` | backend/src/mongodb/notification.go:104-134 | the tagged part, with the kind and the post replaced |
| `Notifications.NotificationsType.TellSubscribers` | backend/src/mongodb/notification.go:49-62 | the subscribers of the first subscription for the event, without the author in production |
| `Notifications.NotificationsType.TellCoordinators` | backend/src/mongodb/notification.go:87-102 | the coordinators of the teams that coordinate the author |
| `Roles.CredentialsAreRight` | backend/src/mongodb/member.go:295-373 | over the members collection itself: credentials are issued if and only if every query is answered and exactly one member with the sinfo id has a valid role in a current-event team; they carry the id of that member and the sinfo id asked for, its first best role and that team, and they grant a required role if and only if some entry of that member has that level or a better one |
| `Roles.BestIsBest` | backend/src/mongodb/member.go:325-348 | the chosen role is as good as any entry of the member, for every level |
| `Roles.BestIsFirst` | backend/src/mongodb/member.go:325-348 | the answer is the first of the most powerful roles that the teams of the event give to the member, with the name of that team, and none if and only if no team gives one |
| `Roles.RoleInIsFirstEntry` | backend/src/models/team.go:111-120 | the role of a member in a team is that of its first entry, if it is a valid one and the team is one of the event |
| `Roles.CredentialsDecided` | backend/src/mongodb/member.go:295-373 | over the members collection: not found if and only if the sinfo id does not occur, duplicate if and only if two of its members hold a role, issued if and only if exactly one does, and then with the id of that member and the requested sinfo id |
| `Roles.BySinfoIdCount` | backend/src/mongodb/member.go:303-310 | each member with the sinfo id is found as often as it is stored, and no other member |
| `Roles.CallChangesOneTeam` | backend/src/mongodb/team.go:265-387 | a call edits the members of the first team with the id and nothing else, or nothing when it cannot be made |
| `Roles.CredentialsCountHolders` | backend/src/mongodb/member.go:318-370 | no holder, one holder and several holders give the three outcomes |
| `Roles.GetMemberAuthCredentials` | backend/src/mongodb/member.go:295-373 | the loops compute the credentials of the best role, or the not-found, duplicate, no-team and query errors |
| `Roles.BestRole` | backend/src/mongodb/member.go:325-348 | the inner loop finds the most powerful role among the first entries |
| `Roles.EditMembersIsMapEdit` | backend/src/mongodb/team.go:265-387 | add, set role and delete are insertion, update and removal of one key, fail exactly on a present or absent member, and keep members distinct |
| `Roles.RunsKeepMembersDistinct` | backend/src/mongodb/team.go:265-387 | no run of these calls makes a team list a member twice |
| `Roles.RunOneMore` | backend/src/mongodb/team.go:265-387 | a run goes on with what the next call makes of the teams |
| `Roles.TeamsType.EditTeam` | backend/src/mongodb/team.go:265-387 | the list is appended to, changed at the first match or shifted; an unknown member or team changes nothing; when it succeeds |
| `Roles.TeamsType.EditList` | backend/src/mongodb/team.go:265-387 | the list after one call, or the failure on a present or absent member |
| `Roles.RepeatedMemberLosesAccess` | backend/src/models/team.go:111-120 | with a member listed twice the more powerful second entry is not seen |
| `Roles.AccessLevel` | backend/src/models/team.go:39-57 | levels lie between 0 and 3, and -1 exactly for texts that are no role |
| `Base64Url.DecodeUndoesEncode` | frontend/src/composables/useGmailMessages.ts:518-528 | decoding undoes encoding for every byte sequence |
| `Base64Url.TextHasNoPadding` | frontend/src/lib/utils.ts:82-90 | the text is the letters of btoa with plus and slash exchanged, and holds no plus, slash or equals sign |
| `Base64Url.KnownTexts` | frontend/src/lib/utils.ts:86-86 | the texts of RFC 4648 for one, two and three bytes |
| `Base64Url.KnownUrlText` | frontend/src/lib/utils.ts:86-89 | the two exchanged letters and the dropped padding on a concrete text |
| `Base64Url.PaddedTextDecodes` | frontend/src/composables/useGmailMessages.ts:521-524 | padded text decodes too |
| `Base64Url.ForeignIsRejected` | frontend/src/composables/useGmailMessages.ts:521-524 | decoding fails on the letters that were not exchanged back |
| `Base64Url.SpacesDoNotCount` | frontend/src/composables/useGmailMessages.ts:521-524 | white space may stand anywhere in what is decoded |
| `Base64Url.BytesUndoSextets` | frontend/src/composables/useGmailMessages.ts:521-524 | regrouping six-bit groups into bytes undoes the split, left-over bits included |
| `Base64Url.ToBase64` | frontend/src/lib/utils.ts:82-90 | the text is the letters of the bytes with two of them exchanged, holds no plus, slash or equals sign, and decodes to the bytes |
| `BulkDrafts.NoEmailIsStoredTwice` | frontend/src/composables/useBulkEmails.ts:370-397 | the calls of both rounds that store a draft are for emails in ascending position, so no email gets two drafts |
| `BulkDrafts.CallsAreInOrder` | frontend/src/composables/useBulkEmails.ts:370-397 | the calls are for the emails in turn up to the first expired session and, after a successful re-authentication, from the email that met it up to the next one |
| `BulkDrafts.SuccessesAreDecisive` | frontend/src/composables/useBulkEmails.ts:370-397 | the reported successes are those of one decisive attempt for each reached email, in input order |
| `BulkDrafts.FailedAre` | frontend/src/composables/useBulkEmails.ts:370-397 | the reported failures are those of the decisive attempts and one entry for each email that met an expired session |
| `BulkDrafts.NoResultIff` | frontend/src/composables/useBulkEmails.ts:322-380 | there is no result if and only if there is nothing to send or the session expired and was not renewed |
| `BulkDrafts.OneMoreResult` | frontend/src/composables/useGmailDrafts.ts:157-170 | the entry of one email: a success with its response, or a failure with its error |
| `BulkDrafts.EntriesAddUp` | frontend/src/composables/useBulkEmails.ts:376-397 | successes and failures together are one entry for each decisive attempt and one more for each expired session |
| `BulkDrafts.ProgressIsRightIff` | frontend/src/composables/useBulkEmails.ts:384-391 | the displayed progress is the number of completed emails if and only if the retry completed at most one |
| `BulkDrafts.ThreeEmailsShowAsSix` | frontend/src/composables/useBulkEmails.ts:384-391 | three emails drafted in the retry show up as six |
| `BulkDrafts.BulkEmails.constructor` | frontend/src/composables/useGmailDrafts.ts:31-35 | no re-authentication needed, nothing sent |
| `BulkDrafts.BulkEmails.CreateDraftEmail` | frontend/src/composables/useGmailDrafts.ts:63-129 | one logged call; the flag says whether the session had expired |
| `BulkDrafts.BulkEmails.TryEmail` | frontend/src/composables/useGmailDrafts.ts:157-170 | the entry of one email in the result |
| `BulkDrafts.BulkEmails.CreateBulkDraftEmails` | frontend/src/composables/useGmailDrafts.ts:146-181 | makes one call for each email up to the first expired session and no other, and leaves results, flag and progress counter as described |
| `BulkDrafts.BulkEmails.BothRounds` | frontend/src/composables/useBulkEmails.ts:369-397 | results, progress and the log of the calls of both rounds |
| `BulkDrafts.BulkEmails.SendProcessedEmails` | frontend/src/composables/useBulkEmails.ts:322-410 | the first round, the one re-authentication and the retry of the rest, or an error; the log of the calls it made is exactly these rounds, and in it no email is stored twice |

## Left out

- RoundRobinBalancer.RoundRobin.Start: the naming watcher is a source of update batches; its own errors, which end the goroutine, are not modelled.
- RoundRobinBalancer.NoLostWakeup: the receive on the notification channel and a second Close of that channel are not part of the steps that matter to it; comparing addresses whose metadata cannot be compared, which panics in Go, is not modelled.
- UpdateQueue.WatcherDrains: the shutdown of the watcher and the second channel for client connection states are not modelled.
- TagCodec.DecodeUndoesEncode: for encodings shorter than 2^63 bytes, the longest slice there is.
- TagCodec.Decode: the run-time failure of a slice whose declared length does not fit in an int is an error value.
- SpanIds.IdGenerator.NewSpanID: a call on its own; the calls of several goroutines are the subject of InterleavedIds.
- EventDuration.DurationInDays: dates in UTC, where 24 hours later is the next date.
- CompanyStore.CacheAgrees: calls come one after another with the current event and the packages fixed; removal of a company or of a participation, package edits and event changes do not reset the cache in the source and are not steps, and a cleanup tick restores agreement.
- CompanyStore.CompaniesType.GetPublicCompanies: which names match a pattern is a parameter.
- ThreadCreation.AddCompanyThread: deletes of documents that exist succeed, a write whose answer is an error is not applied, and requests come one after another.
- GmailSync.SyncGmailMessages: the same about deletes and writes; the posting dates of the threads are not modelled.
- Notifications.SignaturesStayUnique: fan-outs come one after another.
- Notifications.NotificationsType.Notify: SHA-256, the regular expression that finds tags and the lookups are parameters.
- NotificationModel.FedIff: about the hashed text; SHA-256 itself is an arbitrary function, so collisions are outside the model. A kind that is not one of the source's has to be free of hexadecimal digits.
- BulkDrafts.BulkEmails.SendProcessedEmails: the account is connected and the drafts are prepared; the signature and the totals on display are not modelled.
- Base64Url.ToBase64: on bytes; the UTF-8 conversion around it is not part of this model.
- HTTP routing, JSON, authentication tokens, uploads, documents and calendars, Vue components: input and output or library calls.
- Failures of MongoDB other than the ones named, and interleavings of requests.
- The speaker cache and thread creation for speakers: the same shape as for companies with weaker promises in the source.
- The session filters and the LRU wrapper: each filter overwrites the last, or they are library calls.
- Sampling by probability and trace identifiers: floating point and randomness.
- The registry of span stores by name and the summary per method: a map of independent stores.
