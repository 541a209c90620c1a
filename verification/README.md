# PySOA, modelled and proved in Dafny

PySOA connects clients to services over Redis. A client sends jobs made of actions, matches the responses to its
requests, and can expand the objects it gets back by further batched requests. This project models the parts of PySOA
that carry a protocol, shared state or arithmetic, and proves what they keep in every run.

* `Syslog`, `Utf8`, `Reader`: the syslog handler cuts a record into packets of bounded size without cutting a character.
* `Wire`, `Transfer`, `RoundTrip`, `Grammar`, `Queue`: the Redis gateway's message text, chunked replies, and the queue.
* `Transport`: the client transport's count of outstanding requests.
* `Json`, `Trees`, `TreeObjects`, `Converter`, `Maximal`: response bodies and expansion trees.
* `Expansion`, `Rounds`, `Discovery`, `ExpansionRun`, `Batching`: the expansion engine.
* `Jobs`, `Stub`, `Mocked`, `StubRun`: running the actions of a job, and a stubbed action that splits jobs in two.
* `Parallel`, `Reassembly`: jobs sent in parallel, and their responses put back in order.
* `Respawn`, `Censor`, `HashKey`: the respawn limiter, the log censor and the backend cache key.

`ByteText` holds decimal numerals and the `Option` and `Result` types.

## How to read the model

Services, actions, mocks, serializers, clocks and the ends of transport calls are inputs: functions or sequences over
which every statement quantifies. A byte is a `char` below 256, a text a sequence of Unicode scalar values. Where Python
iterates over a dict or takes whatever arrives first, the methods pick an arbitrary element, so their contracts hold for
every order. Python's slices are modelled for negative bounds, its `int` for signs, leading zeros and underscores, and
`list.insert` for an index past the end. Lists and dicts that the code updates are `seq` and `map` variables of methods
with loops; its objects with state are classes (`RedisQueue`, `RedisClientTransport`, `Handlers`, `ServiceStub`,
`ProcessMonitor`, `ExpansionNode`).

## What turned out not to hold as documented

Each of these is proved with its exact condition.

* The fragmenting loop of the syslog handler does not end for every record: once a packet's budget is smaller than the
  next character it loops for ever (`Syslog.LoopEndsIffFits`, `Syslog.LongPreambleNeverEnds`,
  `Syslog.ExampleNeverEnds`). A truncated packet exceeds the limit exactly when priority, prefix and suffix already do
  (`Syslog.SinglePacketFitsIff`).
* The packets of a record are numbered, but the first only by having no number: it reads as another packet exactly when
  its text begins with the marker of that one (`Reader.NumberInIff`, `Reader.FirstPacketMistold`). Packets of any other
  message can be put in order again, whatever order they come in (`Reader.AnyOrderReads`).
* Headers are not delimited from the payload. A reply cut into chunks so that a later piece starts with text such as
  `chunk-id:2;` is not returned as it was sent (`RoundTrip.WireRoundTrip`, `RoundTrip.CutAtHeaderTextCorrupts`).
* Requests made are remembered under the service, action and field names joined by dots. Where two actions share that
  text, only one of them asks for a value (`Batching.SharedPairAskedOnce`, `Batching.ExampleNamesRunTogether`). A round
  asks each action for all its new values exactly when no two actions share the text for one of them
  (`Batching.AllRequestedIff`); without dots in service and action names none do (`Batching.UndottedIsOwn`).
* A stubbed job that continues on errors differs from the whole job exactly when a stubbed action follows one the server
  was interrupted in (`Stub.SplitEqualsWhole`, `Stub.ExampleAfterInterrupt`).
* `dict_to_hashable` documents different results for different dicts; that fails exactly for dicts with a list, tuple,
  dict or dict-like frozen set among their values (`HashKey.CollidesIff`), and holds between dicts without tuples and
  frozen sets (`HashKey.ToHashableFaithful`).

## Model

| member | source | states |
|---|---|---|
| `Utf8.EncodeRoundTrip` | pysoa/common/logging.py:355 | encoded text is well-formed UTF-8 (section 4 of RFC 3629) and a strict decoder returns the text |
| `Utf8.DecodeRoundTrip` | pysoa/common/logging.py:355 | what a strict decoder accepts is just what encoding prints |
| `Utf8.ErrorStartOfPrefix` | pysoa/common/logging.py:458-463 | on any prefix of valid text the decoder stops at a character boundary less than 4 bytes back, with valid text on both sides; it accepts the prefix only if that is its end |
| `Utf8.CleanlySlice` | pysoa/common/logging.py:456-465 | for every limit, positive or negative, the two slices joined are the input |
| `Utf8.CleanlySliceLongest` | pysoa/common/logging.py:439-463 | for a limit that is not negative the slice is the longest run of whole characters within it, and empty exactly when the first character does not fit |
| `Utf8.CleanlySliceNegative` | pysoa/common/logging.py:456-463 | with a negative limit something always remains |
| `Syslog.Emit` | pysoa/common/logging.py:353-417 | the three behaviours, packet by packet; fragments fit the limit and their payloads joined are the message part |
| `Syslog.PacketsCarryMessage` | pysoa/common/logging.py:392-417 | every packet is within the limit, every payload is a non-empty run of whole characters, and the payloads read back by position are the message |
| `Syslog.LoopEndsIffFits` | pysoa/common/logging.py:398-416 | the loop ends if and only if every packet has room for the next character |
| `Syslog.RoomForFourBytesFits` | pysoa/common/logging.py:392-409 | four bytes beside a marker as long as the message length's numeral are always enough |
| `Syslog.LongPreambleNeverEnds` | pysoa/common/logging.py:371-409 | a record to be fragmented whose preamble leaves no byte for the first packet is never finished |
| `Syslog.ExampleNeverEnds` | pysoa/common/logging.py:371-409 | such a record: three letters after 540 bytes, at the packet length for the smallest MTU |
| `Syslog.SinglePacketFitsIff` | pysoa/common/logging.py:369-375 | a record is sent whole exactly when with all around it it is shorter than the limit; a truncated one fits exactly when the parts around it do |
| `Syslog.SplitRecordKeepsText` | pysoa/common/logging.py:382-387 | preamble and chunked part make up the record, apart from one added space when the message is not found |
| `Syslog.Index` | pysoa/common/logging.py:383 | the first occurrence, and none is missed |
| `Reader.SplitMeans` | pysoa/common/logging.py:377-387 | the chunked part begins where the first 40 characters of the message first occur, else after 30 characters |
| `Reader.PacketInFull` | pysoa/common/logging.py:391-415 | every packet letter by letter, with its number in the marker of all but the first and the mark of continuation in all but the last |
| `Reader.LaterPacketTells` | pysoa/common/logging.py:400-412 | a reader of one packet recovers its number |
| `Reader.NumberInIff` | pysoa/common/logging.py:400-412 | a text is taken for a later packet's exactly when it begins with that packet's marker |
| `Reader.FirstPacketTells` | pysoa/common/logging.py:398-415 | the first packet reads as the first, unless the message begins like a marker |
| `Reader.FirstPacketMistold` | pysoa/common/logging.py:398-415 | the first packet of a message that begins like marker n reads as number n |
| `Reader.ContinuedUntilLast` | pysoa/common/logging.py:413-415 | every packet before the last ends in the mark of continuation |
| `Reader.AnyOrderReads` | pysoa/common/logging.py:391-415 | the packets of a record, got in any order and sorted by number, are the train as sent, and their payloads the message |
| `Reader.PacketsAreFull` | pysoa/common/logging.py:404-412 | every packet before the last is within three bytes of the limit |
| `Wire.PrintedHeaderMatches` | pysoa/common/transport/redis_gateway/core.py:106-108 | the header pattern reads back every header the sender prints, and nothing beyond it |
| `Grammar.HeaderIff` | pysoa/common/transport/redis_gateway/core.py:106-108 | the header pattern, both ways: white space, one of three names, a colon and a value of listed character codes, and a semicolon; and no other text |
| `Grammar.VersionIff` | pysoa/common/transport/redis_gateway/constants.py:39 | the version pattern, both ways |
| `Grammar.VersionMeans` | pysoa/common/transport/redis_gateway/constants.py:68-75 | the version a message is taken for: by its marking, else 2 for a content type in front, else 1 |
| `Grammar.IntIff` | pysoa/common/transport/redis_gateway/core.py:463-488 | which header values are numbers, and which number each is |
| `Grammar.PrintedInFull` | pysoa/common/transport/redis_gateway/core.py:246-299 | every text the sender prints letter by letter, for every version, size and threshold, and both refusals |
| `Wire.ExtractSupportedHeaders` | pysoa/common/transport/redis_gateway/core.py:394-408 | the loop strips all headers, later ones overriding; no header is left in front |
| `Wire.PrintedNumberReads` | pysoa/common/transport/redis_gateway/core.py:286-288 | a printed count or ID is a legal header value and reads back as the same number |
| `RoundTrip.PrefixReads` | pysoa/common/transport/redis_gateway/constants.py:52-75 | the version prefix is recognised whatever follows it, and removed exactly |
| `RoundTrip.ChunkParses` | pysoa/common/transport/redis_gateway/core.py:286-292 | a printed chunk parses to its own count, ID, content type and body exactly when the body has no header-like front |
| `RoundTrip.WireRoundTrip` | pysoa/common/transport/redis_gateway/core.py:246-299 | for all versions, sizes and thresholds: the receiver returns version, content type and payload, and leaves the rest of the queue, if and only if no piece starts with header-like text (and an unversioned payload not like a version) |
| `Grammar.ShippedTypesAreValues` | pysoa/common/transport/redis_gateway/core.py:106-108 | `application/msgpack` and `application/json` are header values |
| `Grammar.ShippedRoundTrip` | pysoa/common/transport/redis_gateway/core.py:246-299 | the round trip, with its exact condition, for those two content types |
| `RoundTrip.StreamRoundTrip` | pysoa/common/transport/redis_gateway/core.py:434-511 | messages pushed whole by one sender come back in order, each once |
| `RoundTrip.FirstByteSuffices` | pysoa/common/transport/redis_gateway/core.py:295-299 | an unchunked payload always meets the condition when its first byte is neither white space nor `c` nor `p` |
| `RoundTrip.CutAtHeaderTextCorrupts` | pysoa/common/transport/redis_gateway/core.py:287-293 | a chunk boundary in front of header-like text loses the message |
| `Transfer.ReassembleSound` | pysoa/common/transport/redis_gateway/core.py:470-495 | for any queue: the chunk loop completes exactly when the next pieces carry the one count and consecutive IDs up to it; it takes just those and appends their payloads in order |
| `Transfer.ReceiveSound` | pysoa/common/transport/redis_gateway/core.py:450-495 | for any queue: a completed receive joined a run of messages off the front; if the first is chunk a of n, they are exactly chunks a to n |
| `Grammar.ServerRefusesChunks` | pysoa/common/transport/redis_gateway/core.py:460-462 | a server refuses a chunk |
| `Queue.RedisQueue.Push` | pysoa/common/transport/redis_gateway/backend/base.py:52-57 | refuses exactly at capacity, else appends |
| `Queue.SendMessage` | pysoa/common/transport/redis_gateway/core.py:346-391 | what gets pushed is a prefix of the pieces, once and in order, within capacity; with no consumer it succeeds exactly when all fit |
| `Queue.PushWithRetries` | pysoa/common/transport/redis_gateway/core.py:347-391 | one piece, tried once and then once per retry, is pushed at most once; it is placed exactly when consumers make room by the last try |
| `Queue.ReceiveMessage` | pysoa/common/transport/redis_gateway/core.py:449-495 | the receive loop on the live queue has the result and leaves the queue that the reassembly results describe |
| `Transport.RedisClientTransport.SendRequestMessage` | pysoa/common/transport/redis_gateway/client.py:85-101 | counted only when it succeeds; the count stays sends minus receives since the last reset, never negative |
| `Transport.RedisClientTransport.ReceiveResponseMessage` | pysoa/common/transport/redis_gateway/client.py:103-131 | zeroed only by a timeout that follows a recorded transport problem; idle when nothing is outstanding |
| `Transport.SinceResetIsSuffix` | pysoa/common/transport/redis_gateway/client.py:116-120 | what is counted is the history after the last reset |
| `Transport.ProblemMeans` | pysoa/common/transport/redis_gateway/client.py:94-131 | a problem is on record exactly when a transient error has neither a timeout nor an idle receive after it |
| `Transport.GetAllResponses` | pysoa/client/client.py:173-203 | yields in order exactly what was outstanding and stops, unless a receive fails or a message has no body |
| `Json.FindObjectsExact` | pysoa/client/expander.py:165-190 | the search returns, in traversal order and each once, exactly the matching dicts that lie in no other matching dict |
| `Json.EveryMatchIsCovered` | pysoa/client/expander.py:175-183 | every matching dict is a result or lies inside one |
| `Json.MatchesMeans` | pysoa/client/expander.py:175-183 | a dict matches when its first `_type` key has the type's name, or, for no type, null or nothing |
| `Json.GetIsHeld` | pysoa/client/client.py:1201-1205 | a lookup finds the value at the key's first position |
| `Trees.AddIsUnion` | pysoa/client/expander.py:135-152 | the merge has at every path the existing node's settings, else the added node's: the union of the path sets |
| `Trees.AddCovers` | pysoa/client/expander.py:135-152 | after a merge every node of the merged tree has its counterpart |
| `Trees.AddIdempotent` | pysoa/client/expander.py:135-152 | merging the same node again changes nothing |
| `Trees.AddWellFormed` | pysoa/client/expander.py:145-152 | names stay different among the children of every node |
| `TreeObjects.ExpansionNode.AddExpansion` | pysoa/client/expander.py:135-152 | the merge in place, on objects: the tree afterwards is the merge of the two trees and no object is reached twice; the merged node is the tree it was and has all its counterparts, so that it can be merged again; a node whose nodes all have counterparts changes no object, even if it is in the tree already |
| `TreeObjects.Walk` | pysoa/client/expander.py:396-423 | growing a tree of objects along one path adds just the missing nodes, or fails with the configuration's first error |
| `TreeObjects.DictToTrees` | pysoa/client/expander.py:390-427 | built exactly when the configuration has an entry for every step of every string: then one tree per entry, of the entry's type and of new objects that no two trees share, and each of every node's eight settings is that of the configuration's entry or its route; else the error is what the first missing step misses |
| `Converter.EntryOutcome` | pysoa/client/expander.py:396-421 | the same for one entry of the dict |
| `Converter.ConfiguredAsEntered` | pysoa/client/expander.py:401-421 | a node's settings, field by field, and each error, by the missing or equal entries |
| `Converter.InsertOutcome` | pysoa/client/expander.py:396-423 | a path succeeds exactly when the configuration has all its steps, whatever the tree holds already |
| `Converter.StringsAreLeaves` | pysoa/client/expander.py:259-273 | the printed strings are the dotted paths to the leaves, in order |
| `Converter.SplitOfJoin` | pysoa/client/expander.py:271-398 | splitting a printed path gives back its names |
| `Converter.TreesRoundTrip` | pysoa/client/expander.py:373-444 | trees to dict and back rebuilds the same trees, settings and order included |
| `Converter.KidsRoundTrip` | pysoa/client/expander.py:199-213 | the same for one entry |
| `Maximal.KeepsMaximalStrings` | pysoa/client/expander.py:373-444 | dict to trees to dict keeps, each once, exactly the requested strings that are no proper dotted prefix of another |
| `Maximal.InsertAllPaths` | pysoa/client/expander.py:393-423 | a tree has exactly the non-empty prefixes of the requested paths |
| `Expansion.CollectPending` | pysoa/client/client.py:1118-1145 | one instruction per service and action: its first node's field, all its values, all its objects in order; fails exactly for an unhashable value |
| `Expansion.WantedInQueue` | pysoa/client/client.py:1128-1136 | pending are exactly the queued object-node pairs without the destination and with a truthy source |
| `Expansion.WantedMeans` | pysoa/client/client.py:1130-1134 | never asked for is a null, false, zero or empty source, nor a destination already there |
| `Expansion.LookupIsHeld` | pysoa/client/client.py:1201-1205 | the object found in a reply is the one under the value in the dict under the response field of the first action's body, and none when no key equals the value |
| `Expansion.SendRequests` | pysoa/client/client.py:1147-1170 | requests hold only values not on record, no two share a pair, the record grows by just what is sent, every value waited for ends on record, and an instruction with a key of its own asks for all its new values |
| `Rounds.ExtendObjects` | pysoa/client/client.py:1092-1101 | queues every object found, in order, entering it in the store as it was found unless it is there |
| `Rounds.ApplyTarget` | pysoa/client/client.py:1186-1213 | the object in the reply's dict under the source value becomes the destination, and the waiting object stays as it was when no key equals that value; fails exactly for a reply without an action or without the response field; keeps the errors of a raising node; queues the objects for the node's children |
| `Rounds.ReceiveReplies` | pysoa/client/client.py:1172-1224 | for every order of replies: only waiting nodes' destinations are written, with what their reply holds for the source value, and in a completed round all of those are; new objects are as a reply holds them; the new queue and the exception are exactly what the replies come to in that order |
| `Discovery.QueueIsFound` | pysoa/client/client.py:1092-1101 | queued next are exactly the outermost objects of a waiting node's type, for its children, and of a requested type unless the action failed |
| `Discovery.BrokenMeans` | pysoa/client/client.py:1194-1202 | which replies the client cannot make sense of |
| `Discovery.ExceptionMeans` | pysoa/client/client.py:1186-1224 | failed actions come before job errors, and the exception holds just what came to nodes that raise |
| `Discovery.DoneMeans` | pysoa/client/client.py:1186-1224 | a round ends well exactly when every reply makes sense and no raising node got an error |
| `ExpansionRun.ExpandObjects` | pysoa/client/client.py:1103-1224 | every run ends when identifiers are finitely many, and is a chain of whole rounds until nothing is left to expand or a round raises; its log holds exactly the requests of those rounds, the objects as they were at the start, and every other object as a reply to a request holds it; no field present on arrival is reassigned, every added field holds what the reply to a node that waited for it has under the object's source value, and no pair is requested twice |
| `ExpansionRun.PerformExpansion` | pysoa/client/client.py:1062-1090 | the same from the action bodies on; the run starts with every tree's objects in every body |
| `ExpansionRun.Round` | pysoa/client/client.py:1115-1224 | each round asks for a new pair or leaves nothing to expand; it goes through its three phases, and logs its requests and what arrives |
| `ExpansionRun.SentInUniverse` | pysoa/client/client.py:1150-1161 | what is asked for is always a node's key with a known identifier, and a round that sends asks for something new |
| `Batching.BatchRefinesSingle` | pysoa/client/client.py:1128-1205 | one batched round gives every pending object exactly the field that a lookup of its value alone would give it, or none, if its action is asked for the value, and none otherwise; it is never asked for a value on record, and always for another that no other action shares the key for |
| `Batching.AnswersAsRequested` | pysoa/client/client.py:1147-1205 | with no condition on names: an object gets that field if and only if the round asks its service and action for the value and the lookup finds something |
| `Batching.RequestedIffNew` | pysoa/client/client.py:1147-1161 | unless another action shares the key for the value, a value is asked for exactly when it is not on record |
| `Batching.AllRequestedIff` | pysoa/client/client.py:1147-1161 | a round asks the right action for every new value if and only if no two actions share the key for one of them |
| `Batching.SharedPairAskedOnce` | pysoa/client/client.py:1150-1161 | of two actions that share the key for one value only one gets to ask |
| `Batching.ExampleNamesRunTogether` | pysoa/client/client.py:1150-1161 | actions `c` of `a.b` and `b.c` of `a`: one of two objects stays unexpanded whatever the services answer |
| `Batching.ExampleIsStart` | pysoa/client/client.py:1086-1101 | two bodies and two trees from which a run starts there |
| `Batching.UndottedIsOwn` | pysoa/client/client.py:1150 | no key is shared when service and action names have no dots |
| `Batching.MadeIsAsked` | pysoa/client/client.py:1111-1161 | what is on record in a run is exactly what its earlier rounds asked for |
| `Batching.RunRefinesSingle` | pysoa/client/client.py:1113-1224 | so it is in every completed round of every run, where on record is what an earlier round asked for; and the field stays to the end |
| `Batching.RunExtends` | pysoa/client/client.py:1115-1224 | from any round on, a run takes away and reassigns nothing |
| `Jobs.ExecuteJob` | pysoa/server/server.py:542-637 | the responses of all actions, or of the shortest prefix ending in a harakiri or an error that is not continued on; the first job error before that is raised |
| `Jobs.RespondsMeans` | pysoa/server/server.py:546-637 | the recorded response for each way an action can end, with one error for an unknown action, and when the next action runs |
| `Jobs.FailsWithMeans` | pysoa/server/server.py:608-612 | a job fails exactly at an action that raises a job error after actions that all let the next one run |
| `Jobs.ProcessJob` | pysoa/server/server.py:410-454 | validation errors, and the first job error that is reached, make a response that holds only them; otherwise the response holds no errors and exactly the responses of the actions run |
| `Jobs.OneEnd` | pysoa/server/server.py:546-635 | a job that fails does so at one action with one list of errors, and then has no responses |
| `Stub.SplitRequests` | pysoa/test/stub_service.py:481-497 | forwarded are exactly the other requests, in order |
| `Stub.Merge` | pysoa/test/stub_service.py:601-616 | the insertions and the truncation |
| `Stub.SplitEqualsWhole` | pysoa/test/stub_service.py:481-616 | split, run and merged, a job has exactly the unsplit job's action responses, except when it continues on errors past an interruption with a stubbed action after it |
| `Stub.MergedJobIsWhole` | pysoa/test/stub_service.py:523-616 | the same for what the stub's own loop holds and what the server's own loop responds |
| `Stub.HeldJobIsWhole` | pysoa/test/stub_service.py:552-558 | a job stubbed altogether is answered as a server with the mock's answers would |
| `Stub.MockFromPlaces` | pysoa/test/stub_service.py:526-561 | the mock loop places each response at its request's index and stops at the first error that is not continued on |
| `Mocked.HeldIsHalf` | pysoa/test/stub_service.py:523-566 | from the requests and the mock alone: which mocks are asked, that all action responses are placed in order at their indices, whose job errors are held, and that the last transport error stands for everything |
| `Mocked.JobErrorsDelivered` | pysoa/test/stub_service.py:536-616 | the first answer with job errors is the last one asked for, and the response has the server's errors and then those |
| `Mocked.NoJobErrorsDelivered` | pysoa/test/stub_service.py:536-616 | without such an answer it has the server's errors only |
| `Mocked.ActionErrorIsLast` | pysoa/test/stub_service.py:550-557 | an erroneous response that is not continued on is placed, and is the last one placed |
| `Mocked.TransportErrorRaises` | pysoa/test/stub_service.py:546-568 | a transport error of the mock makes the delivery raise |
| `Mocked.ExampleJobError` | pysoa/test/stub_service.py:544-560 | a stubbed job error is the whole response |
| `Mocked.ForwardedAre` | pysoa/test/stub_service.py:481-497 | forwarded are exactly the requests not for the stubbed action, in order |
| `Mocked.TruncationMeans` | pysoa/test/stub_service.py:605-614 | everything through the first response with errors is kept |
| `Stub.ServiceStub.Send` | pysoa/test/stub_service.py:476-570 | which ID is returned, what is held, and which merge becomes due |
| `Stub.ServiceStub.DeliverAll` | pysoa/test/stub_service.py:580-617 | responses in any order are each merged with their own job's stubbed half, once |
| `Stub.ServiceStub.DeliverHeld` | pysoa/test/stub_service.py:619-629 | the remaining jobs, each once, unless a merge is still due or a held transport error is raised |
| `Stub.ExampleAfterInterrupt` | pysoa/test/stub_service.py:481-616 | an interrupted action and then a stubbed one: one response unsplit, two when split |
| `StubRun.CallJobs` | pysoa/test/stub_service.py:476-629 | any jobs sent through a stub come back once each, under the ID their send returned and for every order of arrival, with the unsplit job's response exactly under the condition above; two IDs coincide only where the two counters give out the same number |
| `StubRun.FlightAnswered` | pysoa/test/stub_service.py:592-616 | each arriving response is delivered under its job's ID, as the unsplit job's response under that condition |
| `Parallel.Handlers.NextId` | pysoa/client/client.py:161-162 | IDs of one handler count up whether or not the send succeeds |
| `Parallel.SendAll` | pysoa/client/client.py:890-914 | one key per job, all different; positive ones are exactly the expected IDs of their service, negative ones carry their send's error |
| `Reassembly.ReceiveService` | pysoa/client/client.py:919-936 | a service's responses by ID and the caught error for every expected ID left; refuses exactly unexpected, repeated and uncaught ends, naming the first |
| `Reassembly.GetResponse` | pysoa/client/client.py:916-981 | results come back exactly when every stream is acceptable, every job has an item and none raises; result k is job k's response or caught error; otherwise the exception is for a stream's first problem, or for the first job in order that raises |
| `Reassembly.ActionErrorsAre` | pysoa/client/client.py:957-960 | the exception holds all failing actions in order |
| `Reassembly.ArrivalOrderIrrelevant` | pysoa/client/client.py:918-968 | the order of arrival changes neither acceptance nor any result |
| `Reassembly.ExceptionOrderIrrelevant` | pysoa/client/client.py:938-965 | it changes neither which job raises nor the exception |
| `Reassembly.AnsweredOrCaught` | pysoa/client/client.py:924-936 | each service's expected IDs split exactly into answered and errored |
| `Respawn.ProcessMonitor.Exited` | pysoa/server/standalone.py:143-170 | the deques stay the last 8 and last 3 respawn times of the whole history, and refusals follow from it |
| `Respawn.ProcessMonitor.Run` | pysoa/server/standalone.py:133-172 | over every run, respawns 8 apart are at least 60 seconds apart and respawns 3 apart at least 15; the loop goes on exactly until a signal, respawning being off, or a refusal |
| `Respawn.ProcessMonitor.DecideMeans` | pysoa/server/standalone.py:145-166 | in figures, when a respawn is refused and why |
| `Respawn.ProcessMonitor.Distances` | pysoa/server/standalone.py:117-118 | in figures, the distances between respawns over every run |
| `Respawn.WindowBound` | pysoa/server/standalone.py:117-118 | with a clock that does not go back, no half-open window of 60 or 15 seconds holds more than 8 or 3 respawns |
| `Censor.CopyAt` | pysoa/common/logging.py:234-256 | exactly the non-empty strings and integers reached from a sensitive key through sequences and sets only are replaced |
| `Censor.LeafShown` | pysoa/common/logging.py:234-256 | what the logs show of every leaf: ten asterisks for a non-empty string or non-zero integer whose last key is sensitive, else the leaf |
| `Censor.CopyPathMeans` | pysoa/common/logging.py:247-256 | the copy keeps every key and position |
| `Censor.CopyIdempotent` | pysoa/common/logging.py:234-256 | a second pass changes nothing |
| `Censor.SameCopyIffSimilar` | pysoa/common/logging.py:234-256 | two bodies censor to the same result if and only if they differ at most in the content of censored leaves |
| `HashKey.ToHashableFaithful` | pysoa/utils.py:27-47 | without tuples and frozen sets, equal forms mean equal dicts, whatever the insertion order |
| `HashKey.CollidesIff` | pysoa/utils.py:28-31 | a dict shares its form with another exactly when a value of it is a list, tuple, dict or dict-like frozen set |
| `HashKey.ConvertHashable` | pysoa/utils.py:44-47 | the result is hashable exactly when every list holds hashable items only |

## Left out

- Emit: requires that the loop ends; `Syslog.LoopEndsIffFits` shows that this excludes only records the code never finishes.
- ExpandObjects: ending is proved for finitely many identifiers; sends and receives that raise a transport error end the run in the code and are not modelled.
- BatchRefinesSingle: needs services that answer each identifier on its own, nodes of one action sharing a request field, and distinct destinations per object.
- AddExpansion: an added tree that shares objects with the receiver and also has nodes without counterparts there.
- ProcessJob: without job middleware, and without an interruption or an exception outside the actions.
- StreamRoundTrip: one sender that pushes its messages whole; partly pushed chunks and several servers on one queue have no recovery in the code, only the soundness results apply to them.
- Expanded objects are entries of a store indexed by object identity, entered when a search first finds them, instead of heap objects; a reply's dicts carry distinct identities because deserialization makes new objects.
- A response field of an expansion reply that is not a dict is an error in the model; the code would also look the value up in a list or a string.
- Equality of `True` with 1 and of 1 with 1.0 among identifiers, dict keys and hashed values.
- A mock that returns a job response without any action response, whose object the stub then files as an action response.
- `math.ceil` of a floating-point quotient in the chunk count is integer division rounded up, which it equals for all sizes below 2 to the 53.
- Lone surrogates in log records, which cannot be encoded.
- The list of sensitive field names is a parameter, and dict keys in logged bodies are text.
- Redis connections, Sentinel failover, socket writes, MTU discovery, MessagePack and JSON encoding, message expiry, metrics, settings schemas, middleware, Django hooks, signals and processes, the reloader, the test-plan parser, the floating-point ring index, and the caching of futures.
