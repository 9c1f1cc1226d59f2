# A verified model of the publish/subscribe broker

The repository is a message broker in C. TCP clients subscribe to topic patterns with the
wildcards `+` and `*`; UDP datagrams are published to every client with a matching pattern.
Subscriptions live in a trie that is changed in place, with parent pointers, pruning and
back-references from clients to nodes. This project models that behaviour in Dafny and proves
that it does what it is for.

## What is proved

**The trie is an exact index.** `TopicTrie` has the nodes, clients and pointers of the C code
as classes, and each C function as a method (a long loop is a method of its own). The methods
are proved against functions on a value, the `Index.Store`: for every path the order of
children and subscribers, for every client the order of its references. About that value it is
proved that, in every reachable state, the nodes are exactly the root and the prefixes of live
patterns, that subscriber lists and reference lists agree with multiplicity, that unsubscribing
straight after subscribing restores everything, list order included, and that cleaning up a
client removes its subscriptions and nothing else, without ever touching a freed node.

**The search is counted exactly.** The list that `collect` builds is specified with its order,
and holds each client once for each way in which one of its patterns is reached (`Patterns.Ways`).
What is reached is then compared with the declarative meaning of patterns. The code and its documentation differ here:
the documentation says that `*` is zero or more segments, but the loop of `collect` never hands
an empty rest to what follows a `*`, so a pattern ending in two or more `*` needs one more
segment. `DocumentedMeaning` proves that the documented meaning holds on all topics if and only
if the pattern does not end in two adjacent `*`; `SearchMeaning` says what the search does for
every pattern; `TwoTrailingStarsMissParent` is a concrete case.

**The decoder does not depend on chunking, exactly when it can.** `client_handle_data` puts a
NUL behind each payload, on top of the first byte of the next frame if that has arrived.
`ChunkInvariance` proves that the dispatched messages are the same for every way of cutting a
byte stream if and only if the stream is `Safe`: every whole frame has a type below 256, except
possibly the first and those behind a frame that fills the buffer by itself. All streams of the
defined types are safe; `WideTypeIsMisread` is a concrete stream that is not. After every call
that keeps the client, the buffer has room again.

**Whole runs.** `Session` is the server as a state machine over connections and client data,
and `Server.Broker` is the same on the heap, each method proved to take one step.
`Server.RunServer` puts them together: from start to exit, with any sequence of poll results, the
server on the heap takes a run of the state machine, sends exactly that run's output, and ends
with a bare root. `Outputs` says event by event and frame by frame what such a run does and
sends. Publishing leaves the state alone. In every reachable state a client's
subscriptions are the fold of the requests of that client's own connections that were served,
whatever the other clients did and however often it disconnected; and, for safe streams, they are
told by the bytes it sent, not by the chunks these came in. Datagrams are sent to exactly
the clients that these requests entitle to them, up to 1024.

**Framing and packets.** Partial writes and reads are scripted, and the bytes that arrive are
still the message that was sent. The header put in front of a datagram always fits, and the
subscriber's parser reads from the packet the sender's address and port, the topic the server
searched for, and the data. Everything the server sends in a run passes the subscriber's length
guard, and its reading loop gets it all, in order.

Files: `bytes.dfy`, `topics.dfy`, `patterns.dfy`, `index.dfy`, `search.dfy` and `trie.dfy` for
`src/topic_trie.c`; `protocol.dfy` for `src/protocol.c` and the subscriber's reader; `subscriber.dfy` for the
subscriber's reading loop;
`decoder.dfy`, `requests.dfy` and `clients.dfy` for `src/client_server.c`; `session.dfy`,
`runs.dfy`, `streams.dfy`, `rounds.dfy`, `outputs.dfy` and `server.dfy` for `src/server.c`; `packet.dfy` for the
packet code on both sides.

Bytes and sizes that the protocol fixes are constants where the code is modelled, and numbers in the
results that say what it does, so that a result does not follow a constant.

Conventions: clients and nodes are never freed in the model; a freed node is one that has left
the map `at` of live nodes. A list is a sequence, newest entry first, as the C lists are. `link`
of a node is the pair of `ptype` and `pname`. The result of a run of `send` calls on a client's
socket is a number, `budget`, of messages it still takes. A `recv` is the chunk it returned, empty
for failure or a closed peer. The read buffer has one cell more than `READ_BUF_SIZE`, because the
NUL behind a payload that fills the buffer lands there.

## Model

| member | source | states |
|---|---|---|
| Topics.TokensAtSlash | src/topic_trie.c:121-130 | segments on the two sides of a slash (byte 47) do not influence each other; with TokensWithoutSlash this fixes `strtok` splitting for every text |
| Topics.TokensWithoutSlash | src/topic_trie.c:121-130 | a slash-free text is one segment, an empty one is none |
| Topics.TokensOfJoin | src/topic_trie.c:125-129 | writing segments with slashes and splitting gives the segments back |
| Topics.TokensAreClean | src/topic_trie.c:125-129 | no segment is empty or contains a slash |
| Topics.StrTok | src/topic_trie.c:125-127 | one `strtok` call takes exactly the next segment off what is left, or finds none left |
| Topics.Split | src/topic_trie.c:121-135 | the token loop yields all segments, or the first 64 and the news that there are more |
| Topics.TokenCount | src/topic_trie.c:339-346 | a text of n bytes has at most (n + 1) / 2 segments |
| Bytes.CStringStops | src/client_server.c:76-80 | a payload read as text stops at the first byte 0, or at its end |
| Patterns.TextPathInjective | src/topic_trie.c:137-178 | different segment lists lead to different positions in the trie |
| Patterns.WaysAreReaches | src/topic_trie.c:294-331 | the number of ways the search reaches a pattern is positive exactly if the boolean matcher accepts |
| Patterns.SearchMeaning | src/topic_trie.c:300-321 | for every pattern and topic, the search reaches the pattern exactly if the topic has the declarative meaning of the pattern whose trailing run of two or more `*` reads as `+/*` |
| Patterns.DocumentedMeaning | src/topic_trie.c:309-310 | the search has the documented meaning on all topics if and only if the pattern does not end in two adjacent `*` |
| Patterns.DoubleStarNeedsMore | src/topic_trie.c:309-310 | a pattern ending in two adjacent `*` only ever matches topics longer than its shortest documented match |
| Patterns.MeansLast | src/topic_trie.c:294-331 | the declarative meaning from the end: a last name stands for itself, a last `+` for any one segment, a last `*` for any number; with the empty pattern this fixes the meaning of every pattern |
| Patterns.TextPattern | src/topic_trie.c:121-178 | the pattern a subscription text stands for is the one spelled by the position its segments lead to |
| Patterns.SegmentText | src/topic_trie.c:142-167 | of a text without slash, byte 43 alone is `+`, byte 42 alone is `*`, and anything else a name |
| Patterns.SlashText | src/topic_trie.c:121-178 | a slash puts two patterns together; with SegmentText this reads every text |
| Patterns.PlusText | src/topic_trie.c:328-330 | a subscription to a text followed by `/+` is reached by exactly the topics one segment longer than what the text means |
| Patterns.NameText | src/topic_trie.c:323-327 | followed by a slash and a name, by exactly those with that name behind |
| Patterns.StarText | src/topic_trie.c:300-311 | followed by a slash and a star, if it does not end in one itself, by exactly the topics that begin with something it means |
| Patterns.TwoTrailingStarsMissParent | src/topic_trie.c:301-310 | the pattern text `a/*/*` misses the topic text `a`, which the documented meaning includes and `a/*` matches |
| Index.LinkKeeps | src/topic_trie.c:66-82 | hanging a new node below an existing one keeps the tree well-formed, leaves at most the new node empty and changes no subscriber list |
| Index.LinkNames | src/topic_trie.c:66-82 | a new named child is the first in its parent's list, and no other child list changes |
| Index.GrowKeeps | src/topic_trie.c:137-178 | so does the whole walk of a subscription |
| Index.GrowKeys | src/topic_trie.c:137-178 | the walk adds exactly the prefixes of the pattern |
| Index.PruneKeeps | src/topic_trie.c:35-63 | if at most one node is empty, the upward prune from it leaves no empty node but the root, removes only nodes and no subscriber |
| Index.DropAndPrune | src/topic_trie.c:193-211 | removing an entry and pruning leaves a canonical trie in which exactly that one subscriber list is one entry shorter |
| Index.SubscribeKeeps | src/topic_trie.c:112-190 | subscribing keeps the trie canonical and both kinds of list in agreement |
| Index.UnsubscribeKeeps | src/topic_trie.c:214-291 | unsubscribing keeps the trie canonical and both kinds of list in agreement |
| Index.ListedBothSides | src/topic_trie.c:85-109 | a node lists a client exactly if the client refers to the node |
| Index.RefsAreLive | src/topic_trie.c:266-283 | every back-reference leads to a live node |
| Index.NodesAreLivePrefixes | src/topic_trie.c:35-63 | the nodes are exactly the root and the prefixes of live patterns |
| Index.SubscribeThenUnsubscribe | src/topic_trie.c:112-291 | unsubscribing straight after subscribing gives back the same trie and the same reference lists, order included, whether or not the path existed |
| Index.CleanupKeeps | src/topic_trie.c:378-388 | cleaning up a client, duplicates included, ends with an empty reference list for it, all other lists as before, and a canonical trie |
| Index.CleanupRemovesOnly | src/topic_trie.c:378-388 | after cleaning up a client no node lists it, and every node lists every other client as often as before |
| Index.NoRefsNoNodes | src/topic_trie.c:35-63 | with no references left, the trie is a bare root |
| Search.OneStep | src/topic_trie.c:294-331 | the ways of reaching one pattern from a node are the sum of what the branches of `collect` contribute at that node |
| Search.TotalStep | src/topic_trie.c:294-331 | the same for all patterns of a client together, with multiplicity |
| Search.TotalFromRoot | src/topic_trie.c:348-350 | from the root the total is the sum of the ways over the client's live patterns |
| Search.TotalIsPositive | src/topic_trie.c:348-350 | from the root the total is positive exactly if some live pattern is reached |
| Search.CollectedCounts | src/topic_trie.c:294-331 | the list that the search builds holds each client once more for each way of reaching each of its live patterns |
| Search.CollectedKnown | src/topic_trie.c:294-331 | and nobody else enters it |
| Search.GatheredAreInterested | src/topic_trie.c:348-350 | a client is on the list for a topic exactly if one of its live patterns is reached |
| Search.AudienceMeans | src/topic_trie.c:353-368 | the receivers of a publication are distinct and are min(1024, d) of the d clients with a matching pattern |
| Search.AudienceIsInterested | src/topic_trie.c:353-368 | every receiver has a matching pattern, and if no more than 1024 clients have one, each of them is a receiver |
| Search.AudienceIsEverybody | src/topic_trie.c:363-367 | nobody with a matching pattern is left out if and only if they are no more than 1024 |
| Search.DistinctPrefix | src/topic_trie.c:356-368 | the receivers come in the order in which the collected list first names them |
| TopicTrie.Trie.constructor | src/topic_trie.c:17-32 | a new trie is a bare root satisfying the heap invariant |
| TopicTrie.Trie.FindChild | src/topic_trie.c:249-256 | the scan finds the live node one name further down, if there is one |
| TopicTrie.Trie.GetOrCreateChild | src/topic_trie.c:66-82 | afterwards the trie is as grown down to the child, whose node is returned, and all old nodes are where they were |
| TopicTrie.Trie.Step | src/topic_trie.c:139-178 | the same for one segment, wildcard or name |
| TopicTrie.Trie.Walk | src/topic_trie.c:137-178 | the walk ends at the live node for the whole pattern, with the trie grown by its prefixes |
| TopicTrie.Trie.AddSubscriber | src/topic_trie.c:85-109 | the client enters the front of the node's list and the node the front of the client's, and nothing else changes |
| TopicTrie.Trie.Subscribe | src/topic_trie.c:112-190 | succeeds exactly up to 64 segments; then the state is that of the specification, otherwise nothing changed; the heap invariant holds either way |
| TopicTrie.Trie.UnlinkFromParent | src/topic_trie.c:35-63 | afterwards the parent's child list and wildcard pointers hold every child but the unlinked one |
| TopicTrie.Trie.NodeRemoveIfEmpty | src/topic_trie.c:35-63 | the recursion with parent pointers is the upward prune of the specification; it reaches only live nodes |
| TopicTrie.Trie.RemoveSubscriberFromNode | src/topic_trie.c:193-211 | succeeds exactly if the client has a reference to the node; then one entry is gone and the trie pruned, otherwise nothing changed |
| TopicTrie.Trie.Lookup | src/topic_trie.c:241-263 | the walk that creates nothing ends at the live node for the segments, or finds that there is none |
| TopicTrie.Trie.DropReference | src/topic_trie.c:272-283 | the first reference to the node, and only that, leaves the client's list |
| TopicTrie.Trie.Unsubscribe | src/topic_trie.c:214-291 | succeeds exactly if there are at most 64 segments and the client holds the pattern; then one pair is gone from both sides, otherwise nothing changed; freed nodes are referred to by nobody |
| TopicTrie.Trie.DropAll | src/topic_trie.c:378-386 | in each round of the cleanup loop the next reference, and all later ones, still lead to live nodes |
| TopicTrie.Trie.CleanupClientSubscriptions | src/topic_trie.c:378-388 | the cleanup of the specification, with the heap invariant kept |
| TopicTrie.Trie.CollectStar | src/topic_trie.c:308-310 | the eating loop makes of the list exactly what the specification makes of it |
| TopicTrie.Trie.CollectExact | src/topic_trie.c:323-327 | the loop over the named children collects what is below the one child with that name, if any, and only once |
| TopicTrie.Trie.Collect | src/topic_trie.c:294-331 | the list is the specified one, order included; Search.CollectedCounts says what is on it |
| TopicTrie.Trie.SendDistinct | src/topic_trie.c:353-368 | one send for each of the first 1024 distinct clients of the list, in the order in which they come up, on the socket each has |
| TopicTrie.Trie.Publish | src/topic_trie.c:334-375 | exactly the audience is sent the packet, once each and in order: min(1024, d) distinct clients among the d with a matching pattern |
| Protocol.Header | src/protocol.c:18-24 | reading the six bytes back in network order gives the type and the payload length |
| Protocol.HeaderByPosition | src/protocol.c:20-22 | the six bytes are the base-256 digits, highest first, of the type and of the length |
| Protocol.FramesAreSelfDelimiting | include/protocol.h:28-34 | a byte stream begins with at most one frame |
| Protocol.SendAll | src/protocol.c:4-16 | everything goes out in order whatever the partial writes, or a proper prefix did when a write failed |
| Protocol.SendMessage | src/protocol.c:18-30 | the frame is appended to the stream, or a proper prefix of it on failure |
| Protocol.RecvAll | src/subscriber.c:10-23 | exactly the next bytes of the stream, whatever the partial reads; 0 when the peer is gone first |
| Protocol.ReceiveMessage | src/subscriber.c:151-189 | a success took exactly one frame off the stream; with working reads every frame of at most 2048 payload bytes is recovered, every longer one is refused, a stream that ends inside a header gives 0 and one that ends inside a payload gives -1 |
| Decoder.LeftoverFits | src/client_server.c:49-74 | what a pass leaves over is an incomplete frame shorter than the buffer, so the next `recv` has room |
| Decoder.FrameByPosition | src/client_server.c:50-76 | type and length are read from the six header bytes, highest first; over 2042 is bogus; the payload is what follows |
| Decoder.WireRoundTrip | src/client_server.c:49-100 | decoding the concatenated frames of messages gives back the messages and nothing else |
| Decoder.WireAppend | src/client_server.c:49-108 | the sender's messages do not depend on where the stream is cut |
| Decoder.BufferAgainstWire | src/client_server.c:76-77 | in a safe buffer the stray NULs change no message and at most the first byte of what is left over |
| Decoder.ChunkInvariance | src/client_server.c:37-108 | the dispatched messages are the sender's, for every admissible way of cutting the stream, if and only if the stream is safe |
| Decoder.UnsafeStreamsDecodeWrong | src/client_server.c:76-77 | every stream that is not safe has a cut for which it is decoded wrongly |
| Decoder.SmallTypesAreSafe | include/protocol.h:19-24 | streams of messages with types below 256, as all defined ones are, are safe |
| Decoder.EncodedStreamIsDecoded | src/client_server.c:37-108 | whichever way the frames of such messages are cut, exactly these messages are dispatched in order |
| Decoder.WideTypeIsMisread | src/client_server.c:76-77 | a type of 0x0101 right behind another frame is taken for a SUBSCRIBE |
| Decoder.NothingLost | src/client_server.c:99-108 | the frames of the messages and the leftover are together the bytes received |
| Decoder.BufferIsAccountedFor | src/client_server.c:99-108 | consumed bytes plus leftover are the bytes in the buffer |
| Requests.ApplyTo | src/client_server.c:78-96 | a served request changes exactly the requesting client's list, and keeps the index canonical |
| Requests.OneMessage | src/client_server.c:78-96 | what one message does, by its numeric type and its text: when a SUBSCRIBE or UNSUBSCRIBE is served, what it changes, what answers it, and that rejected and unknown ones change nothing |
| Requests.HandleAppend | src/client_server.c:49-100 | handling two batches of messages is handling the first and, unless it failed, the second |
| Requests.ChunksAsOneScan | src/client_server.c:37-108 | handling chunk after chunk is handling the messages of all of them in one go |
| Requests.DispatchIsChunkInvariant | src/client_server.c:37-108 | on a safe stream, the final index, the acknowledgements and whether the client is dropped do not depend on the chunks |
| Requests.HandlingIsSolo | src/client_server.c:78-96 | whoever else uses the index, a client's list and fate are as if it were alone |
| Requests.AcksAreEchoes | src/client_server.c:78-96 | the acknowledgements sent are the echoes of the served requests in order; just the last can be missing, and only when sends ran out and the client is dropped |
| Requests.SoloIsReplay | src/client_server.c:78-96 | a client's list is the fold of its served requests |
| Requests.ReplayCounts | src/client_server.c:78-96 | each pattern is held once per served subscription less once per served unsubscription |
| Clients.Terminate | src/client_server.c:76-77 | the NUL changes exactly the first byte behind the payload |
| Clients.Compact | src/client_server.c:102-108 | what was not consumed is at the front of the buffer |
| Clients.TakeFrame | src/client_server.c:50-77 | type and payload are those of the frame at the offset, and the payload read as a C string ends at the payload's end |
| Clients.Dispatch | src/client_server.c:78-96 | trie, acknowledgement and verdict are those of the specification |
| Clients.DecodeLoop | src/client_server.c:47-100 | the loop serves messages in order and stops at an incomplete frame, a bogus length or a failure, with nothing left to do |
| Clients.Decode | src/client_server.c:47-100 | the loop handles exactly the messages of the specified scan and stops where the scan's leftover begins |
| Clients.HandleData | src/client_server.c:32-111 | the whole call: trie, acknowledgements and verdict as specified; if the client stays, the buffer holds exactly the leftover and has room |
| Session.ReviveKeeps | src/server.c:89-100 | reconnecting an inactive client keeps the session invariant |
| Session.AddKeeps | src/server.c:105-114 | adding a client under an unused ID keeps it |
| Session.IdIs | src/server.c:70-71 | a client's name is what it sent up to the first byte 0, 10 or 13 |
| Session.ConnectKeeps | src/server.c:51-120 | every connection keeps it: IDs unique over both lists, count right, inactive clients on -1 |
| Session.DisconnectKeeps | src/server.c:253-274 | moving a client to the inactive list keeps it |
| Session.DataKeeps | src/server.c:250-279 | client data, handled or leading to disconnection, keeps it |
| Runs.ReachableStates | src/server.c:183-281 | the session invariant holds and the nodes are exactly the prefixes of live patterns after any run |
| Runs.LivesFollowRun | src/server.c:82-104 | through any interleaving, the shared state shows each client what its own events alone make of it |
| Runs.History | src/server.c:250-279 | in every reachable state a client's subscriptions are the fold of its own served requests, disconnects and reconnects included |
| Runs.NonInterference | src/server.c:183-281 | two runs with the same events of one client end with the same subscriptions for it |
| Runs.ConnectionKinds | src/server.c:64-87 | of a connection exactly one holds: it is refused, its client returns, or its ID is new |
| Runs.ConnectionOutcome | src/server.c:64-119 | for whatever name came: it changes nothing if and only if it is refused, or new while `client_create` fails; a returning client alone becomes active with the new socket and an empty buffer; a new one is added under that name without subscriptions; nobody else's subscriptions change |
| Runs.DataOutcome | src/server.c:250-274 | what client data changes: a failed read, a bogus length, or a request rejected or unanswered moves that client to the front of the inactive list without socket; otherwise only its pending bytes and the index change |
| Runs.ShutdownDrains | src/server.c:283-293 | destroying all active and then all inactive clients of any reachable state leaves a bare root |
| Runs.InterestFollowsRequests | src/topic_trie.c:334-375 | after any run, the search finds a client exactly if its own served requests leave it with a pattern that means the topic |
| Streams.StreamsDecide | src/client_server.c:32-111 | after any run, a client's subscriptions are those told by the bytes that each of its connections brought, whatever the chunks, interleavings and reconnects, if the streams are safe and sends to it do not run out |
| Streams.RunsAreChunkInvariant | src/client_server.c:37-108 | two runs in which the connections of one ID bring the same safe streams leave it with the same subscriptions |
| Streams.ArrivedSoFar | src/protocol.c:18-30 | of an encoded stream any part from the start, cut even inside a frame, is safe and decodes to the first of the messages that were encoded |
| Streams.EncodedRequestsDecide | src/client_server.c:32-111 | however much of what a client wrote on each connection has arrived, its subscriptions are the fold of the messages that have arrived whole, each connection's up to the first that is rejected; these messages are the first of those it wrote, and all where everything arrived |
| Streams.RejectionEnds | src/client_server.c:78-96 | what a client wrote behind a rejected message on the same connection makes no difference |
| Streams.WrittenRequestsDecide | src/client_server.c:32-111 | where every connection brought all that was written or ended at a rejected message, the subscriptions are the fold of all messages written, each connection's up to the first that is rejected |
| Streams.AcknowledgementsEcho | src/client_server.c:78-96 | over a whole run in which sends to a client do not run out, the acknowledgements it is sent are the echoes of its served requests in order |
| Streams.ObeyAppend | src/client_server.c:78-96 | obeying two batches of messages is obeying the first and, unless one was rejected, the second |
| Rounds.RunAppend | src/server.c:183-281 | a run in two parts ends where the second part ends and sends what both parts send |
| Rounds.RunOne | src/server.c:183-281 | a run of no events changes nothing and one of one event is one step |
| Rounds.ToldIsPossible | src/server.c:183-281 | the events of any number of rounds of the main loop are a run of the state machine |
| Rounds.DgramReaches | src/server.c:217-237 | a datagram goes to min(1024, d) distinct clients among the d with a pattern for the segments of its first 50 bytes, an empty one to nobody; exactly the inactive ones are addressed on socket -1 |
| Rounds.DeliveriesFollowRequests | src/server.c:217-237 | in any round of any run, whoever is sent a datagram is left by its own served requests with a pattern that means the topic, and if no more than 1024 clients match, all of them are sent it |
| Outputs.StartsEmpty | src/server.c:170-181 | a run begins with no clients and a bare root |
| Outputs.ScanReads | src/server.c:249-279 | a scan reads once from each connected client that has something, in the order of the list, as much as the client's buffer takes |
| Outputs.RoundEvents | src/server.c:183-281 | each round of a run consists of the pending connection, if any, and then one read for each connected client that has something, and the next round begins where it ends |
| Outputs.RoundFrames | src/server.c:217-281 | each round sends, in order and nothing else: the datagram with its header, once to each of its min(1024, d) receivers on the socket it has, and then the acknowledgements of each event on the client's own socket; without a datagram nothing is published |
| Outputs.OutputIsAll | src/server.c:183-281 | the frames of the rounds are the whole output of a run |
| Outputs.OutputEchoes | src/client_server.c:78-96 | the frames of a run can be marked with names so that the unmarked ones are publications, and those with a client's name are the echoes of its served requests in order, if sends to it do not run out |
| Server.Broker.constructor | src/server.c:170-181 | the server starts in the specified start state |
| Server.Broker.FindClient | src/server.c:73-87 | the scan stops at the first client with that ID |
| Server.Broker.Disconnect | src/server.c:257-270 | the heap after moving a failed client is the specified state, every other client untouched |
| Server.Broker.DataReady | src/server.c:250-279 | client data takes exactly the specified step on the heap and sends the specified acknowledgements; new nodes are fresh |
| Server.Broker.NewConnection | src/server.c:51-120 | a connection takes exactly the specified step on the heap; a client is created only for an ID nobody has, and it and its buffer are fresh |
| Server.Broker.Datagram | src/server.c:217-237 | a datagram is sent to exactly its audience, in order, with the header in front, and changes no state; Rounds.DgramReaches says who that is |
| Server.Broker.Scan | src/server.c:249-279 | the scan takes the specified steps, a failing client leaving its place to the next, and sends the specified acknowledgements |
| Server.Broker.Round | src/server.c:183-281 | datagram, connection and scan in this order take the specified events and send the specified frames |
| Server.Broker.MainLoop | src/server.c:183-281 | any number of rounds takes a run of the state machine and sends its output |
| Server.Broker.Shutdown | src/server.c:283-293 | after the final cleanup the root has no subscribers and no children and is the only live node |
| Server.RunServer | src/server.c:122-296 | from start to exit, the server on the heap takes a run of the state machine from its start state, sends exactly the output of that run, and ends with a bare root |
| Subscriber.EmittedFramesPass | src/subscriber.c:161-171 | every acknowledgement and every publication passes the subscriber's length guard with a cell to spare |
| Subscriber.OutputPasses | src/subscriber.c:161-171 | so does everything the server sends in any run of its main loop |
| Subscriber.AllRead | src/subscriber.c:151-189 | a reader that took whole messages off a stream of such messages until it could take no more took all of them |
| Subscriber.ReadMessages | src/subscriber.c:239-289 | the subscriber's reading loop takes whole messages only; with working reads it reads exactly the messages that were sent, in order, and then finds the server gone |
| Packet.DecValue | src/server.c:15-19 | a printed number is its decimal digits, without leading zeros |
| Packet.DottedInjective | src/server.c:15-19 | different addresses print differently |
| Packet.DottedReads | src/server.c:15-19 | the address text is its four numbers in decimal, the first one first, with points between them |
| Packet.HeaderReads | src/server.c:15-19 | the header is the address, a space, the port in decimal, and a space |
| Packet.HeaderFits | src/server.c:14-22 | the header has between 10 and 22 bytes, so the fallback is never taken |
| Packet.ExtractTopic | src/server.c:28-45 | the topic is the text of the first 50 bytes up to a NUL |
| Packet.BuildPacket | src/server.c:10-26 | the header, then the payload unchanged, although it was moved within its own buffer |
| Packet.TopicsAreShort | src/server.c:226-230 | a topic has at most 25 segments, so the 64-segment cut in publish never fires |
| Packet.ParsePacket | src/subscriber.c:97-141 | the result is the reading of the packet: its parts if it has the layout, nothing otherwise |
| Packet.LayoutIsUnique | src/subscriber.c:97-141 | a buffer can be divided into address, port, topic field and data in one way only |
| Packet.PacketRoundTrip | src/subscriber.c:97-147 | the packet built from a datagram of at least 51 bytes is read as the sender's address and port, the topic the server searched with, and the rest as data |

## Left out

- Sockets, `poll`, `setsockopt`, standard input and printing: a `recv` is a chunk or a failure, a message to a client is an entry in the list of sends.
- Sends to clients: how a partial write on a client's socket continues is proved in Protocol, but the broker model only knows how many more messages a socket takes; a failed send's partial bytes are not recorded there.
- Allocation failure and manual freeing: allocation succeeds, except that `client_create` may fail; a freed node is one outside the map of live nodes.
- `client_create` leaves `subscriptions` uninitialised (src/client_server.c:7-15); the model starts it as the empty list that the code relies on.
- The client ID and the first frames arriving in one `recv` (src/server.c:65): the first chunk is the ID and nothing else.
- The pairing of clients with poll entries (src/server.c:241-279): any active client may have data next.
- Server.Broker.Datagram: requires (as do all members about datagrams, by `Rounds.DgramOk`) header and payload to fit the 1500-byte buffer together; the C code does not check this for datagrams close to 1500 bytes: by Packet.HeaderFits, up to 1478 bytes always fit and more than 1490 never do. The topic of a datagram shorter than 50 bytes is read from the buffer as it stands.
- Packet.ParsePacket: does not model the fixed sizes of the local arrays for address and port, which the C code does not check.
- Protocol.ReceiveMessage: does not model the NUL written behind a payload of exactly 2048 bytes in the subscriber's buffer; EmittedFramesPass shows that the server never sends one.
- Failure of `poll` or of allocating its table, which ends the main loop early (src/server.c:186-206).
- Runs.History: counts what the decoder read as served requests; that these are the messages the client encoded is Streams.EncodedRequestsDecide, for clients whose socket takes all acknowledgements.
- SIGPIPE: the source neither ignores it nor passes MSG_NOSIGNAL (src/protocol.c:9), so a send to a reset connection ends the process; in the model it fails, and the client is dropped or the failure ignored as the code after it says.
- The cells of the linked lists: a list is a sequence held in a field, so pointers between cells are not modelled; nodes, clients and buffers are objects with identity.
- Value printing in `process_payload`, the commands a subscriber's user types, `test.py`, the UDP client and the Makefile.
