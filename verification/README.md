# Verified core of a VLESS client for Apple platforms

A Dafny model of the parts of this repository that carry state, and proofs of what they promise: the XTLS Vision
framing of xray-core, the netstack and packet bridge of the Apple wrapper, the UDP name server and client ordering of
the DNS app, feature registration, the TLS sniffer, the router, and share-link stream settings.

`dafny verify dfyconfig.toml` checks everything; the files need Dafny 4.11 and nothing else.

## How it is organised

| module | what it is about |
|---|---|
| `Bytes`, `Options` | bytes, pooled buffers of 8192 bytes, multi-buffers, optional values |
| `VisionFrames` | the frame format and the byte-by-byte parser that strips it |
| `VisionUnpadding` | unpadding a stream that arrives in arbitrary buffers |
| `VisionFilter`, `VisionHello` | the TLS filter and its verdict; what it learns from an encoded ServerHello |
| `VisionWriting` | reshaping, padding, and the grammar of what a writer sends |
| `VisionClosing` | when padding ends, and what every piece of a write is |
| `VisionRun` | all runs of an endpoint; round trip through the unpadder |
| `VisionReading` | the reader that decides per call whether to unpad; the end-to-end theorem |
| `VisionWitnesses` | runs that show where Vision loses or adds bytes |
| `Vision` | `TrafficState`, `VisionWriter` and `VisionReader` as classes, proved against those specifications |
| `NetstackTokens`, `NetstackEgress` | connection tokens and closing; packets on their way out |
| `EngineCoupling`, `PacketBridge` | engine and netstack locks; bridge sessions with generations |
| `DnsServer`, `DnsClients` | answer cache and request ids; rule tables and client order |
| `Features` | callbacks that wait for features |
| `Sniffer` | the server name in a ClientHello |
| `Routing`, `DomainMatching`, `Router` | range search, suffix rules, and the routing decision |
| `ShareQuery`, `ShareLink`, `ShareFields` | escaped queries; stream settings printed and parsed again; every field by its key |

Code that updates an object is a class whose methods are proved against functions on values; the theorems about whole
runs are lemmas about those functions. The concurrent protocols (tokens, egress, engine locks, bridge) are state
machines whose steps are the sections that the source runs under one lock or in one channel operation, in any
interleaving. A run is a sequence of events; a step that cannot happen in a state leaves it unchanged.

Every function that a method is proved against is in turn described without it: over the bytes of the input, the fields
of a configuration, the keys of a query or the events of a run.

Time, randomness, the bytes of a recycled buffer, the outcome of dialling or parsing addresses, and what the network
delivers are parameters, so every theorem holds for all of them.

## Where the code does not keep a promise

- The Vision reader leaves the unpadder when it sees a terminating command, even if the lengths behind that command
  have not arrived yet. `SplitHeaderFails` is a sender's run and a receiver's run in which header bytes are delivered
  as payload. `EndToEnd` says that the bytes delivered are those written if and only if every read is safe,
  `UnsafeExactly` which reads are not, and `WholeHeadersAreSafe` that reads which keep headers whole, and meet no buffer
  beginning with the user id behind the framed part, are safe.
- The unpadder takes any buffer of 21 bytes or more that begins with the user id for a new stream when it is in its
  initial state. `ReentryFails` and `ReaderReentryFails` are runs in which payload is lost that way;
  `FragmentationExact` and `RoundTrip` give the exact condition under which no byte is lost.
- A first non-empty buffer of fewer than 21 bytes is not recognised: if no later buffer begins with the user id, the
  wire bytes are handed on as they are, which is never what was written (`ShortFirstBuffer`). If a later one does, the
  result can by coincidence be what was written (`ShortFirstMayCoincide`). Empty buffers never matter.
- The filter looks for the TLS 1.3 marker in one buffer at a time. `HelloInParts` says exactly when a ServerHello that
  arrives in several buffers enables raw copy: one of the parts must hold the whole marker.
- A lookup with no address family enabled tells a cleaned domain from an expired one
  (`CleanupVisibleWithoutFamily`); `LookupRefinesHistory` shows that this is the only case in which cleaning shows.
- A callback that returns an error makes AddFeature leave the pending list as it was, so that others run again
  (`FailingCallbackRepeatsOthers`). `EveryCallbackAccounted` shows that over whole runs this is the only cause: every
  callback has run once or is pending if and only if no AddFeature met such a callback.
- Stopping the engine while a NetstackStop is still closing its runtime leaves that runtime with an instance that has
  been removed (`OvertakenStopLeavesUse`). `RemovedInUseExactly` shows that this is the only way a removed instance is
  still in use.
- Printing a share link forgets the settings of a network given by an alias (`AliasFails`), and prints a network and a
  security for a link without a query (`EmptyQueryFails`); `ShareLinkStable` shows that these are the only two causes.

## Model

| member | source | states |
|---|---|---|
| `VisionReading.EndToEnd` | upstream/xray-core/proxy/proxy.go:151-387 | for every run of a sender and every run of a receiver that gets all of its wire bytes, the first buffer of at least 21: the receiver delivers exactly what was written if and only if all its reads are safe, and then ReaderSwitchToDirectCopy equals the sender's WriterSwitchToDirectCopy |
| `VisionReading.DeliveredIsPrefix` | upstream/xray-core/proxy/proxy.go:151-387 | at every moment before all bytes have arrived, a receiver with safe reads has delivered a prefix of what was written |
| `VisionReading.ReaderExact` | upstream/xray-core/proxy/proxy.go:151-179 | over any interleaving of reads and writes the reader delivers what the framing of the received bytes says, if and only if all its reads are safe |
| `VisionReading.RunKinds` | upstream/xray-core/proxy/proxy.go:151-179 | every run is on track as long as its reads are safe, and after the first unsafe read it has delivered too much or too little for good |
| `VisionReading.UnsafeExactly` | upstream/xray-core/proxy/proxy.go:154-170 | after safe reads the next one is unsafe if and only if it runs the unpadder and a buffer behind the framed part begins with the user id, or it does not run it although an earlier call ended inside the header of the terminating frame |
| `VisionReading.WholeHeadersAreSafe` | upstream/xray-core/proxy/proxy.go:154-170 | a run in which no call ends inside a frame header and nothing is taken for a new stream has only safe reads |
| `VisionWitnesses.SplitHeaderFails` | upstream/xray-core/proxy/proxy.go:163-169 | a sender writes one byte; a receiver of all its wire bytes, whose read ends behind the command byte of the terminating frame, delivers the rest of that header as well |
| `VisionWitnesses.ReentryFails` | upstream/xray-core/proxy/proxy.go:322-329 | a sender's run and a cutting of its wire bytes with a buffer behind the terminating frame that begins with the user id: unpadding gives one byte of the 22 written |
| `VisionWitnesses.ReaderReentryFails` | upstream/xray-core/proxy/proxy.go:151-179 | the reader, with its packet window open, loses the same bytes |
| `VisionWitnesses.ShortFirstMayCoincide` | upstream/xray-core/proxy/proxy.go:322-329 | a run and a cutting with a first buffer of 20 bytes and a later one that begins with the user id, where unpadding gives exactly what was written |
| `VisionReading.UncutExactly` | upstream/xray-core/proxy/proxy.go:321-387 | unpadding buffer by buffer equals unpadding the uncut stream when nothing is taken for a new stream, and loses bytes otherwise |
| `VisionRun.RoundTrip` | upstream/xray-core/proxy/proxy.go:201-387 | for every run of the writer, every padding draw, every filter verdict and every cutting of the wire bytes whose first non-empty buffer has 21 bytes, unpadding gives back exactly the bytes written, the raw tail included, if and only if no non-empty buffer behind the terminating frame begins with the user id |
| `VisionRun.RunSafe` | upstream/xray-core/proxy/proxy.go:115-133 | in every state reachable from NewTrafficState the filter invariant holds, what was sent obeys the command grammar and carries exactly the bytes written, and the writer's flags say whether it is closed and by which command |
| `VisionRun.RunFrozen` | upstream/xray-core/proxy/proxy.go:151-244 | a closed packet window and its verdict never change again, IsPadding never becomes true again, and the reader's direct switch is never taken back |
| `VisionRun.WireParses` | upstream/xray-core/proxy/proxy.go:201-244 | the wire bytes of any run are the user id, legal frames and raw bytes; parsed as one stream they give the bytes written and stop being framed exactly where the terminating frame ends |
| `VisionRun.ShortFirstBuffer` | upstream/xray-core/proxy/proxy.go:322-329 | with a first non-empty buffer below 21 bytes and no later buffer that begins with the user id, the unpadder hands on the wire bytes as they are, which is never what was written |
| `VisionUnpadding.FragmentationExact` | upstream/xray-core/proxy/proxy.go:321-387 | however a framed stream is cut, unpadding the buffers gives the same bytes and the same final state as unpadding it uncut, if and only if no buffer that starts behind the terminating frame begins with the user id; otherwise bytes are lost |
| `VisionUnpadding.TransparentExactly` | upstream/xray-core/proxy/proxy.go:322-329 | in its initial state the unpadder is transparent exactly for buffers that do not begin with the user id |
| `VisionUnpadding.NeverLengthens` | upstream/xray-core/proxy/proxy.go:330-386 | unpadding never produces more bytes than it was given |
| `VisionUnpadding.HeaderIsDropped` | upstream/xray-core/proxy/proxy.go:332-350 | header bytes are never handed on |
| `VisionUnpadding.TerminatedLength` | upstream/xray-core/proxy/proxy.go:370-382 | a terminated sequence of frames ends where its encoding ends, and the bytes behind it are handed on unchanged |
| `VisionFrames.FeedSplit` | upstream/xray-core/proxy/proxy.go:331-383 | stripping a stream in two parts is stripping it in one, at any byte boundary |
| `VisionFrames.FeedFrame` | upstream/xray-core/proxy/proxy.go:282-387 | stripping one encoded frame gives its content; both 16-bit lengths decode exactly |
| `VisionFrames.FeedFrames` | upstream/xray-core/proxy/proxy.go:321-387 | stripping a sequence of encoded frames gives the concatenation of their contents |
| `VisionFilter.AllKeepsInv` | upstream/xray-core/proxy/proxy.go:390-441 | EnableXtls implies IsTLS, IsTLS12orAbove, a cipher suite in 0x1301..0x1304 and a closed window; a server hello under way implies TLS |
| `VisionFilter.AllCounts` | upstream/xray-core/proxy/proxy.go:390-441 | each buffer that is looked at takes one packet from the window unless the verdict closes it |
| `VisionFilter.EnabledExactly` | upstream/xray-core/proxy/proxy.go:390-441 | a call enables raw copy if and only if one of the buffers it gets to completes the picture, said over its bytes: a server hello begins in it or is under way, the six marker bytes lie in its part of the hello, and the suite, read behind the session id if the hello begins here, is in 0x1301..0x1304 |
| `VisionFilter.RecognisedExactly` | upstream/xray-core/proxy/proxy.go:396-414 | what a buffer does to every field of the filter, said over its bytes: record type, version and message type, record length, and the suite at the offset that the 44th byte gives |
| `VisionHello.HelloRecognised` | upstream/xray-core/proxy/proxy.go:390-441 | for every ServerHello (section 4.1.3 of RFC 8446) of at least 79 bytes, of which 79 or more arrive in one buffer with anything behind it: the filter stores its cipher suite, knows TLS 1.2 or later, counts what is left of it, and enables raw copy if and only if the suite is in 0x1301..0x1304 and the marker lies in the bytes of the hello that have arrived |
| `VisionHello.HelloInParts` | upstream/xray-core/proxy/proxy.go:390-441 | for a hello that arrives in any number of buffers, at least 79 bytes in the first: raw copy is enabled if and only if the suite is allowed and one buffer holds all of the marker, provided that no later part looks like the start of another hello |
| `VisionHello.Tls13Enables` | upstream/xray-core/proxy/proxy.go:415-435 | a whole hello with a supported_versions extension that selects TLS 1.3 enables raw copy if and only if its suite is in 0x1301..0x1304 |
| `VisionHello.JudgedExactly` | upstream/xray-core/proxy/proxy.go:415-435 | the verdict on one buffer while a hello is under way: when it enables, when it stops, and what is left |
| `VisionRun.RunEnabledExactly` | upstream/xray-core/proxy/proxy.go:151-244 | in every run raw copy is enabled if and only if some read or write found the packet window open and showed the filter such a buffer |
| `VisionWriting.ReshapeCorrect` | upstream/xray-core/proxy/proxy.go:247-279 | reshaping keeps the byte stream, leaves every buffer at most Size-21, and changes nothing if no buffer is too long |
| `VisionWriting.PaddingLength` | upstream/xray-core/proxy/proxy.go:282-302 | the padding never exceeds what the buffer has left and is never negative for a buffer that leaves room |
| `VisionWriting.Pad` | upstream/xray-core/proxy/proxy.go:282-318 | a frame with its user id never exceeds a pooled buffer, and both lengths fit 16 bits |
| `VisionWriting.PadFromCorrect` | upstream/xray-core/proxy/proxy.go:212-241 | the padding loop sends user id once, Continue frames, at most one End or Direct frame, then raw buffers; carries exactly its input; closes exactly when IsPadding is cleared, with Direct exactly when WriterSwitchToDirectCopy is set |
| `VisionWriting.WriteKeepsInv` | upstream/xray-core/proxy/proxy.go:201-244 | one write extends what was sent within the grammar and carries exactly the bytes it was given |
| `VisionWriting.GrammarWire` | upstream/xray-core/proxy/proxy.go:201-244 | everything within the grammar is, on the wire, the user id, the encoding of legal frames and the raw tail |
| `VisionClosing.WriteExactly` | upstream/xray-core/proxy/proxy.go:201-244 | a write while padding lasts, said over the bytes written and the filter: padding ends if and only if a buffer is TLS application data, or there is a buffer at all and the filter has given up; the direct switch is set if and only if raw copy is enabled and application data comes before that; and every piece is a frame with the content of its buffer, its command and its padding, or the buffer itself behind where the writer gives up |
| `VisionClosing.TerminatorExactly` | upstream/xray-core/proxy/proxy.go:213-239 | where the terminating frame of a write is: an End frame where the writer first gives up, with the rest raw behind it; or else, once there was application data, the last piece, Direct if and only if raw copy is enabled; all frames before it say Continue |
| `VisionClosing.OtherWrites` | upstream/xray-core/proxy/proxy.go:201-211 | a write that is not padded passes its buffers on; a write of one nil buffer gives one empty Continue frame with long padding |
| `VisionClosing.FramePadded` | upstream/xray-core/proxy/proxy.go:282-302 | the length of the padding in numbers: 900 to 1399 bytes together with a short content if it is long, otherwise up to 255, at most what 8171 bytes leave |
| `VisionClosing.FramedOnWire` | upstream/xray-core/proxy/proxy.go:303-318 | where each field of a frame lies in its buffer, byte by byte |
| `VisionClosing.CutExactly` | upstream/xray-core/proxy/proxy.go:259-278 | an oversized buffer is cut before its last application data record if that leaves 21 bytes on both sides, otherwise at 4096 |
| `Vision.TrafficState.constructor` | upstream/xray-core/proxy/proxy.go:115-133 | a new state is the start of every run |
| `Vision.TrafficState.Recognise` | upstream/xray-core/proxy/proxy.go:396-414 | hello recognition of one buffer updates the state as the filter specification says |
| `Vision.TrafficState.Judge` | upstream/xray-core/proxy/proxy.go:415-435 | the TLS 1.3 verdict on one buffer updates the state as the filter specification says |
| `Vision.TrafficState.FilterTls` | upstream/xray-core/proxy/proxy.go:390-441 | the loop over a multi-buffer refines the filter specification and touches no reader or writer state |
| `Vision.TrafficState.Consume` | upstream/xray-core/proxy/proxy.go:332-369 | one loop iteration consumes at least one byte and advances the parser as if byte by byte |
| `Vision.TrafficState.Strip` | upstream/xray-core/proxy/proxy.go:330-386 | the stripping loop refines the byte-by-byte parser |
| `Vision.TrafficState.Unpadding` | upstream/xray-core/proxy/proxy.go:321-387 | XtlsUnpadding refines the unpadding specification; its output is no longer than its input |
| `Vision.SplitOversized` | upstream/xray-core/proxy/proxy.go:259-278 | the second loop of ReshapeMultiBuffer refines the reshaping specification |
| `Vision.ReshapeMultiBuffer` | upstream/xray-core/proxy/proxy.go:247-279 | the two loops together refine the reshaping specification, also when nothing is split |
| `Vision.VisionWriter.Padding` | upstream/xray-core/proxy/proxy.go:282-318 | XtlsPadding writes user id, header, content and padding in this order and forgets the user id |
| `Vision.VisionWriter.ChooseCommand` | upstream/xray-core/proxy/proxy.go:213-239 | command, padding kind and flags per buffer are those of the specification, which WriteExactly and TerminatorExactly describe |
| `Vision.VisionWriter.PadBuffers` | upstream/xray-core/proxy/proxy.go:212-241 | the padding loop refines the specification of what a write sends |
| `Vision.VisionWriter.WriteMultiBuffer` | upstream/xray-core/proxy/proxy.go:201-244 | a write refines one step of a run: filter first, then padding or raw; the reader's state is untouched |
| `Vision.RenderedStream` | upstream/xray-core/proxy/proxy.go:201-244 | the buffers handed to the underlying writer carry exactly the wire bytes of the run |
| `Vision.VisionReader.UpdateFlags` | upstream/xray-core/proxy/proxy.go:163-172 | the reader's flags after a pass of the unpadder |
| `Vision.VisionReader.UnpadBuffers` | upstream/xray-core/proxy/proxy.go:155-162 | the loop over the received buffers hands on the non-empty results in order |
| `Vision.VisionReader.ReadMultiBuffer` | upstream/xray-core/proxy/proxy.go:151-179 | a read refines one step of a run; a read of nothing changes nothing |
| `NetstackTokens.TokensConserved` | apple-wrapper/netstack.go:260-309 | in every interleaving the tokens out are exactly the handlers and workers that hold one, at most 48 per protocol, and every handler that took one holds it or has returned it once |
| `NetstackTokens.ArriveExactly` | apple-wrapper/netstack.go:260-266 | in every run a request takes a token exactly if fewer than 48 handlers and workers of its protocol hold one, and otherwise changes nothing |
| `NetstackTokens.NoAdmissionAfterClose` | apple-wrapper/netstack.go:294-309 | once closed is set no worker is admitted: whoever works later was already a worker then |
| `NetstackTokens.NoneLiveAfterClose` | apple-wrapper/netstack.go:518-538 | when close has returned no worker is live, then or ever after |
| `NetstackTokens.ReleaseNeverBlocks` | apple-wrapper/netstack.go:389-453 | whoever holds a token can return it at once, whoever holds the read lock can release it, whoever is in the work group can leave it |
| `NetstackTokens.StepKeepsInv` | apple-wrapper/netstack.go:260-309 | every step of handlers, workers and close keeps the counters equal to the groups of threads they stand for |
| `NetstackEgress.ExactlyOnceInOrder` | apple-wrapper/netstack.go:213-251 | in every run of enqueues, reads with any buffer sizes and close, delivered, pending and queued packets are the accepted ones, each once and in order |
| `NetstackEgress.ReadExactly` | apple-wrapper/netstack.go:213-251 | in every run a read gets the first accepted packet that has not been delivered, all of it, if there is one, the runtime is open and the buffer large enough; otherwise it reports why not |
| `NetstackEgress.EnqueueExactly` | apple-wrapper/netstack.go:133-133 | in every run the link accepts a packet exactly if it is open and fewer than 64 are queued |
| `NetstackEgress.OversizeIsKept` | apple-wrapper/netstack.go:229-242 | a packet that did not fit is kept and reported; whatever is enqueued and however often it is tried too small, the first large enough read delivers exactly it |
| `NetstackEgress.UntouchedAfterClose` | apple-wrapper/netstack.go:518-532 | once close has cleared the slot nothing is delivered, released or kept again |
| `NetstackEgress.Runtime.ReadPacket` | apple-wrapper/netstack.go:213-251 | readPacket refines the egress step; on success the payload is at the start of the caller's buffer and the rest of the buffer is unchanged, otherwise all of it is |
| `NetstackEgress.TotalLength` | apple-wrapper/netstack.go:234-238 | the first loop adds up the packet's length |
| `NetstackEgress.CopySlices` | apple-wrapper/netstack.go:244-247 | the second loop copies the slices one behind the other and nothing else |
| `EngineCoupling.Coupled` | apple-wrapper/folo_apple.go:270-291 | in every interleaving, whenever the engine lock is free: running if and only if an instance exists; and a registered netstack always uses the current instance |
| `EngineCoupling.RemovedInUseExactly` | apple-wrapper/folo_apple.go:285-291 | in every interleaving a removed instance is in use by a netstack if and only if a NetstackStop has unregistered a runtime of it and not closed that runtime yet |
| `EngineCoupling.RemovedStaysRemoved` | apple-wrapper/folo_apple.go:372-400 | a removed instance stays removed and gets no further runtimes: once the ones being closed are closed it is never used again |
| `EngineCoupling.OvertakenStopLeavesUse` | apple-wrapper/netstack.go:559-567 | an interleaving in which Stop overtakes NetstackStop between its unlock and its close, and a removed instance is in use while the engine is idle |
| `EngineCoupling.RunInv` | apple-wrapper/netstack.go:545-567 | the invariant behind both, at every step between the locks |
| `PacketBridge.SessionInvariant` | apple-wrapper/folo_apple.go:140-233 | in every run: running if and only if a socket is installed, the socket belongs to the current generation, framesOut <= framesIn <= framesOut+1 and bytesOut <= bytesIn |
| `PacketBridge.OldPumpIsHarmless` | apple-wrapper/folo_apple.go:168-202 | a pump of an old generation never changes a field of the bridge |
| `PacketBridge.QuietUntilStart` | apple-wrapper/folo_apple.go:205-233 | once the bridge is idle nothing runs and no counter changes until the next Start |
| `PacketBridge.EndIsReported` | apple-wrapper/folo_apple.go:185-200 | when the pump of the current session ends, an error is reported as such and otherwise the code stays; the bridge is idle then, and until the next call of the host no pump changes that |
| `PacketBridge.StepKeepsInv` | apple-wrapper/folo_apple.go:140-233 | every step of the host and of any pump keeps the session invariant |
| `DnsServer.LookupRefinesHistory` | upstream/xray-core/app/dns/nameserver_udp.go:203-239 | for every run, between any two lock sections, a lookup at a time not before that of a cleanup answers as if computed from the full history, per family the first record of maximal expiry if unexpired, if and only if a family is enabled or the domain is cached; the answer is described over the fields of those records |
| `DnsServer.AnswerExactly` | upstream/xray-core/app/dns/nameserver_udp.go:210-239 | the answer from a record per family: the addresses of those enabled, unexpired and successful, IPv4 first; without any, why the IPv4 record does not answer, then why the IPv6 one does not, then an empty response |
| `DnsServer.CacheFaithful` | upstream/xray-core/app/dns/nameserver_udp.go:68-108 | after any stores and cleanups, in whatever order their times are, a cache entry and the best record of the history agree on what is unexpired |
| `DnsServer.BestIsFirst` | upstream/xray-core/app/dns/dnscommon.go:50-58 | the record that "newer wins" keeps has maximal expiry and is the first that has |
| `DnsServer.CacheProvenance` | upstream/xray-core/app/dns/nameserver_udp.go:110-144 | every cached record was stored by a response whose id was, when consumed, registered to a request for exactly that domain and family |
| `DnsServer.ConsumedOnce` | upstream/xray-core/app/dns/nameserver_udp.go:118-125 | every registered request is consumed by at most one response |
| `DnsServer.PendingCorrect` | upstream/xray-core/app/dns/nameserver_udp.go:182-189 | the pending map is exactly what the history of registrations, responses and cleanups says |
| `DnsServer.TakenCorrect` | upstream/xray-core/app/dns/nameserver_udp.go:118-143 | the responses between their two lock sections are exactly those the history says, with the domain and family of the request each consumed |
| `DnsServer.ConsecutiveIdsDistinct` | upstream/xray-core/app/dns/nameserver_udp.go:178-180 | any 65536 consecutive ids are distinct, also across the 32-bit wrap-around, and the next one repeats |
| `DnsServer.ReplacesOnlyAfterWrap` | upstream/xray-core/app/dns/nameserver_udp.go:182-201 | over every run, with ids drawn from the counter and registered in any order, a registration replaces a request that is still pending only if the two draws are at least 65536 apart |
| `DnsServer.CleanupVisibleWithoutFamily` | upstream/xray-core/app/dns/nameserver_udp.go:203-210 | with no family enabled a cleaned domain is told from an expired one |
| `DnsServer.LifetimeIsShortest` | upstream/xray-core/app/dns/dnscommon.go:197-204 | a record lives as long as the shortest TTL among its answers, ten minutes at most |
| `DnsServer.LifetimeExactly` | upstream/xray-core/app/dns/dnscommon.go:197-204 | the lifetime is at most 600 seconds and at most every TTL that is not zero, and is one of them |
| `DnsServer.ResponseExactly` | upstream/xray-core/app/dns/dnscommon.go:180-230 | the record made from the answers: how many are looked at, its expiry, and where the address of each lies in it |
| `DnsServer.ParseResponse` | upstream/xray-core/app/dns/dnscommon.go:180-230 | the record has the id and the code of the header, the addresses of all answers up to the first unreadable one in order, and the shortest lifetime, both functionally and by position |
| `DnsServer.CollectAnswers` | upstream/xray-core/app/dns/dnscommon.go:187-230 | the answer loop, with its early exit at an unreadable answer, collects the specified addresses and lifetime |
| `DnsServer.ClassicNameServer.CleanupAt` | upstream/xray-core/app/dns/nameserver_udp.go:68-108 | Cleanup refines the cleanup step; it reports whether there was anything to look at |
| `DnsServer.ClassicNameServer.CleanCache` | upstream/xray-core/app/dns/nameserver_udp.go:77-91 | the loop that deletes while it ranges drops exactly the expired records, in any order of iteration |
| `DnsServer.ClassicNameServer.CleanPending` | upstream/xray-core/app/dns/nameserver_udp.go:97-101 | the second loop drops exactly the expired requests |
| `DnsServer.ClassicNameServer.TakeRequest` | upstream/xray-core/app/dns/nameserver_udp.go:118-130 | the first lock section of HandleResponse refines the taking step |
| `DnsServer.ClassicNameServer.StoreRecord` | upstream/xray-core/app/dns/nameserver_udp.go:131-144 | the second one refines the storing step |
| `DnsServer.ClassicNameServer.HandleResponse` | upstream/xray-core/app/dns/nameserver_udp.go:111-144 | undisturbed, a response is one taking and one storing |
| `DnsServer.ClassicNameServer.UpdateIP` | upstream/xray-core/app/dns/nameserver_udp.go:146-167 | per family the newer record wins, and nothing is stored if neither is newer |
| `DnsServer.ClassicNameServer.AddPendingRequest` | upstream/xray-core/app/dns/nameserver_udp.go:182-189 | a registration refines the register step |
| `DnsServer.ClassicNameServer.NewReqID` | upstream/xray-core/app/dns/nameserver_udp.go:178-180 | ids are the low 16 bits of a wrapping 32-bit counter |
| `DnsServer.ClassicNameServer.FindIPsForDomain` | upstream/xray-core/app/dns/nameserver_udp.go:203-239 | the look-up with its error precedence equals the specified answer, which is also said over the fields of the cached records |
| `DnsClients.New` | upstream/xray-core/app/dns/dns.go:87-147 | construction succeeds exactly for valid rules, of any number; then simple clients come first and every other client has the fall-back flag and the rule texts of its name server, and every index the matcher can return names the client that owns the domain and the rule that covers it, as far as 16 bits can, the rule always in range |
| `DnsClients.NewClient` | upstream/xray-core/app/dns/nameserver.go:88-135 | one name server extends the table by its rules and leaves the other entries alone |
| `DnsClients.EstablishRules` | upstream/xray-core/app/dns/nameserver.go:107-135 | the rule loop assigns every domain the rule that covers it, and each rule its text |
| `DnsClients.PositionStep` | upstream/xray-core/app/dns/nameserver.go:116-130 | the two loop counters are the rule and the place within it that the rule sizes determine |
| `DnsClients.PositionExactly` | upstream/xray-core/app/dns/nameserver.go:107-135 | a domain belongs to the rule whose share of the domains, by the sizes of the rules before it, it lies in; behind all of them every domain has a rule to itself |
| `DnsClients.SortClients` | upstream/xray-core/app/dns/dns.go:257-305 | with up to 65536 clients, for every list of matches no table access is out of range and the result is the specified order |
| `DnsClients.AppendUnused` | upstream/xray-core/app/dns/dns.go:279-289 | the fall-back loop appends exactly the unused clients that allow it |
| `DnsClients.OrderIsSound` | upstream/xray-core/app/dns/dns.go:257-305 | the order is nonempty, free of duplicates and in range |
| `DnsClients.OrderIsExact` | upstream/xray-core/app/dns/dns.go:263-302 | exactly these clients are asked: the matched ones; those that allow fall-back, unless it is disabled, or disabled on a match and there is one; and the first one if that leaves none |
| `DnsClients.OrderIsRanked` | upstream/xray-core/app/dns/dns.go:263-289 | matched clients come first, in the order of their first match; the others follow in configuration order |
| `Features.EveryCallbackAccounted` | upstream/xray-core/core/xray.go:278-332 | for any order of registrations: the pending list is exactly the callbacks with a missing dependency, in order, nil if and only if there are none, and every callback has run once or is pending, if and only if no AddFeature met a runnable callback that returned an error |
| `Features.ErrorFreeIsEnough` | upstream/xray-core/core/xray.go:278-332 | that is so whenever no callback returns an error to an AddFeature |
| `Features.RunsExactlyOnce` | upstream/xray-core/core/xray.go:278-332 | then a callback required once has run once if some AddFeature of the run added everything it depends on, and not at all otherwise |
| `Features.RunsWhenLastDependencyArrives` | upstream/xray-core/core/xray.go:293-324 | then a callback runs at once when it is required, or with the feature that was still missing |
| `Features.AddExactly` | upstream/xray-core/core/xray.go:315-329 | one AddFeature keeps the pending list exact if and only if no callback that it makes runnable returns an error |
| `Features.FailingCallbackRepeatsOthers` | upstream/xray-core/core/xray.go:316-320 | a callback that ran before a failing one runs again with the next feature, even if nothing fails then |
| `Features.Instance.Resolve` | upstream/xray-core/core/xray.go:47-88 | a callback runs exactly when everything it depends on is registered |
| `Features.Instance.RequireFeatures` | upstream/xray-core/core/xray.go:278-298 | the call refines the require step and reports the callback's error |
| `Features.Instance.ResolvePending` | upstream/xray-core/core/xray.go:315-324 | the loop runs the runnable callbacks up to the first error and collects the others |
| `Features.Instance.AddFeature` | upstream/xray-core/core/xray.go:301-332 | the call refines the add step, the error path included; a running instance only records the feature |
| `Sniffer.SniffTLS` | apple-wrapper/sniffer.go:30-106 | sniffTLS terminates, never reads out of bounds, and finds what the staged scan finds |
| `Sniffer.SniffExtensions` | apple-wrapper/sniffer.go:76-103 | the outer loop refines the extension scan |
| `Sniffer.SniffNames` | apple-wrapper/sniffer.go:90-98 | the inner loop refines the name-list scan |
| `Sniffer.HelloRecovered` | apple-wrapper/sniffer.go:30-106 | for every well-formed ClientHello (section 4.1.2 of RFC 8446, section 3 of RFC 6066), whatever follows it: the first host_name of its first server_name extension in lower case, nothing if there is none |
| `Sniffer.FoundOnlyWhereItLies` | apple-wrapper/sniffer.go:30-106 | whatever the bytes: a name is reported only for a handshake record of a ClientHello, and only one that lies in the bytes as a complete host_name entry behind the header of a server_name extension, in lower case |
| `Sniffer.PrefixStable` | apple-wrapper/sniffer.go:30-106 | a name found in a truncated capture is not changed by any further bytes |
| `Routing.Search` | apple-wrapper/router/china_ip.go:29-31 | the search finds the least index at which a monotone predicate holds |
| `Routing.SearchV4` | apple-wrapper/router/china_ip.go:27-36 | on any sorted, disjoint table the IPv4 search equals linear membership |
| `Routing.SearchV6` | apple-wrapper/router/china_ip.go:39-67 | on any sorted, disjoint table the two-word IPv6 search equals linear membership of the 128-bit value |
| `Routing.SplitValue` | apple-wrapper/router/china_ip.go:43-44 | the two words of an address stand for its 128-bit value |
| `Routing.PrivateIsListed` | apple-wrapper/router/compact_cidr.go:62-80 | the byte tests for IPv4 describe exactly the listed blocks |
| `Routing.PrivateExactly` | apple-wrapper/router/compact_cidr.go:62-80 | IsPrivateIP holds exactly for the listed addresses: IPv4 by number, also in IPv6 form, and the IPv6 ones by their first two bytes or as the two lowest |
| `Routing.MappedExactly` | apple-wrapper/router/compact_cidr.go:66-66 | which sixteen bytes are an IPv4 address, and which one |
| `Routing.MappedBlock` | apple-wrapper/router/compact_cidr.go:53-57 | an IPv4 block written in IPv6 form holds the same addresses |
| `Routing.WideMappedBlock` | apple-wrapper/router/compact_cidr.go:53-57 | with fewer than 96 bits an IPv4 number in IPv6 form holds every IPv4 address and no other |
| `Routing.BlockIsRange` | apple-wrapper/router/compact_cidr.go:53-57 | a block is an aligned range: from the network number with its free bits cleared on, as many addresses as the free bits can tell apart |
| `DomainMatching.DomainMatcher.AddSuffix` | apple-wrapper/router/compact_trie.go:37-45 | a rule is stored under its cleaned key without one leading dot; an empty key is not stored |
| `DomainMatching.DomainMatcher.MatchSuffix` | apple-wrapper/router/compact_trie.go:70-82 | the suffix loop finds the rule of the longest dot-aligned suffix, and nothing only if there is none |
| `DomainMatching.DomainMatcher.MatchKeyword` | apple-wrapper/router/compact_trie.go:84-89 | the keyword loop finds the first keyword that occurs |
| `DomainMatching.DomainMatcher.Match` | apple-wrapper/router/compact_trie.go:56-92 | exact rule, else longest suffix, else first keyword |
| `DomainMatching.CleanTrim` | apple-wrapper/router/router.go:119-125 | trimming before matching changes nothing, and a domain is blank before cleaning exactly when it is after |
| `DomainMatching.CleanExactly` | apple-wrapper/router/compact_trie.go:37-45 | a cleaned name is the name in lower case without the white space around it: what is cut off is blank, and what is left neither begins nor ends with a blank |
| `DomainMatching.KeyExactly` | apple-wrapper/router/compact_trie.go:37-45 | the key of a suffix rule is its cleaned text without one leading dot |
| `Router.WinnerIsLongest` | apple-wrapper/router/router.go:63-92 | the map that loading builds gives, for the longest suffix, the rule that wins in the list of loaded rules |
| `Router.WinnerWins` | apple-wrapper/router/compact_trie.go:70-82 | the winner has the longest key of all rules that apply, and among equal keys was loaded last |
| `Router.WinnerIsBest` | apple-wrapper/router/router.go:63-99 | over the lists of the configuration: the winner is in the latest of block, direct, proxy, built-in block and built-in direct among the rules with the longest key that is the domain or follows one of its dots, and there is one exactly if some rule hits |
| `Router.FirstBlockIsFirst` | apple-wrapper/router/router.go:73-83 | the first block that holds the address is in the first of the lists block, direct and proxy that holds it |
| `Router.DecisionDecided` | apple-wrapper/router/router.go:102-140 | the decision is the one that the lists of the configuration determine, without reference to loading |
| `Router.DecidedOnce` | apple-wrapper/router/router.go:102-140 | the lists determine one action |
| `Router.FirstBlockParsed` | apple-wrapper/router/compact_cidr.go:25-43 | rules that could not be parsed do not matter for which block is first |
| `Router.IPMatcher.Match` | apple-wrapper/router/compact_cidr.go:45-59 | the first block that holds the address decides |
| `Router.IsChinaIP` | apple-wrapper/router/china_ip.go:11-23 | IPv4, IPv4 in IPv6 and IPv6 addresses are looked up in the table of their kind |
| `Router.Router.constructor` | apple-wrapper/router/router.go:54-99 | NewRouter loads custom rules, then built-in ones in rule mode, so that later lists win for equal keys |
| `Router.Router.Route` | apple-wrapper/router/router.go:102-140 | private is direct in every mode, then the modes global and direct decide, then the longest dot-aligned suffix with later lists winning equal keys, then the first of the lists block, direct and proxy that holds the address, then China direct in rule mode, then proxy; said over the lists of the configuration |
| `ShareQuery.EscapeRoundTrip` | upstream/libXray/nodep/generate_share.go:357-364 | unescaping inverts escaping on every byte string |
| `ShareQuery.EscapedByte` | upstream/libXray/nodep/generate_share.go:357-358 | how each byte is escaped: itself if it is unreserved, a plus for a space, otherwise a percent sign and two upper-case hexadecimal digits |
| `ShareQuery.ParseParts` | upstream/libXray/nodep/parse_share.go:365-371 | a query is parsed part by part between its ampersands |
| `ShareQuery.PartParsed` | upstream/libXray/nodep/parse_share.go:365-371 | a part is a pair of the unescaped texts before and behind its first equals sign, and nothing if it has a semicolon or one of them is badly escaped |
| `ShareQuery.PrintedParses` | upstream/libXray/nodep/generate_share.go:357-364 | pairs printed one after the other are parsed back one by one, in order |
| `ShareLink.ShareLinkStable` | upstream/libXray/nodep/generate_share.go:179-364 | for every raw query and scheme: parsing, printing behind the link's own pairs as an escaped query and parsing again gives the identical settings, fix-ups included, if and only if the query had a pair and did not give the network by an alias with settings of its own; ShareFields says what every field is |
| `ShareLink.LinkStable` | upstream/libXray/nodep/generate_share.go:179-364 | the same for the query that streamSettingsQuery leaves in a link that already has its own pairs |
| `ShareLink.AliasFails` | upstream/libXray/nodep/generate_share.go:196-301 | the link with type=mkcp and seed=a loses its seed |
| `ShareLink.EmptyQueryFails` | upstream/libXray/nodep/generate_share.go:186-194 | a link without a query is parsed differently once printed |
| `ShareLink.SettingsStable` | upstream/libXray/nodep/parse_share.go:365-511 | the same for parsed queries: stable if and only if the network is no alias or its settings are the defaults |
| `ShareFields.SecurityParsed` | upstream/libXray/nodep/parse_share.go:371-510 | network and security of a parsed link by their keys, with the defaults and the fix-up for trojan, and which security settings there are |
| `ShareFields.TlsParsed` | upstream/libXray/nodep/parse_share.go:457-507 | every TLS field by its key, with the fix-up of the server name for ws and the two texts that allow an insecure connection |
| `ShareFields.RealityParsed` | upstream/libXray/nodep/parse_share.go:457-510 | every REALITY field by its key |
| `ShareFields.TcpParsed` | upstream/libXray/nodep/parse_share.go:378-401 | the settings of tcp by their keys: only the http header counts |
| `ShareFields.TransportParsed` | upstream/libXray/nodep/parse_share.go:402-446 | the settings of every other network, aliases included, by their keys |
| `ShareFields.HeadPrinted` | upstream/libXray/nodep/generate_share.go:184-194 | which pairs network and security print |
| `ShareFields.TlsPrinted` | upstream/libXray/nodep/generate_share.go:304-327 | under which key each TLS field is printed |
| `ShareFields.RealityPrinted` | upstream/libXray/nodep/generate_share.go:328-352 | under which key each REALITY field is printed |
| `ShareFields.TcpPrinted` | upstream/libXray/nodep/generate_share.go:197-219 | under which key each field of tcp is printed |
| `ShareFields.KcpPrinted` | upstream/libXray/nodep/generate_share.go:220-234 | under which key each field of kcp is printed |
| `ShareFields.GrpcPrinted` | upstream/libXray/nodep/generate_share.go:247-264 | under which key each field of grpc is printed |
| `ShareFields.HostPathPrinted` | upstream/libXray/nodep/generate_share.go:235-300 | under which keys ws, http, httpupgrade and splithttp print host and path |
| `ShareLink.JoinSplit` | upstream/libXray/nodep/parse_share.go:385-390 | joining what was split at commas gives the text back |
| `ShareLink.Link.Add` | upstream/libXray/nodep/generate_share.go:357-364 | addQuery extends the query by one escaped pair, or by nothing for an empty optional value |
| `ShareLink.Link.AddTransport` | upstream/libXray/nodep/generate_share.go:196-301 | the switch on the network prints the specified fields in order |
| `ShareLink.Link.AddSecurity` | upstream/libXray/nodep/generate_share.go:303-352 | the switch on the security prints the specified fields in order |
| `ShareLink.Link.StreamSettingsQuery` | upstream/libXray/nodep/generate_share.go:179-355 | the link's query is extended by exactly the specified fields, the settings get the defaults filled in, and nothing happens for nil settings |

## Left out

- Concurrent calls on one TrafficState: a read and a write are atomic steps of a run; the source has no lock around its
  flags.
- The cipher suite read beyond the content of a buffer, for session ids longer than 32 bytes: an arbitrary value.
- Buffers larger than a pooled buffer, failures of the random source, and overflow of 32-bit counters in the filter.
- CopyRawConnIfExist, UnwrapRawConn and splicing: operating-system calls.
- gVisor, sockets, dialers, deadlines and context cancellation: outcomes of steps only.
- Liveness and deadlock freedom of the netstack, the bridge and the engine; concurrent calls of the bridge's Start and
  Stop; overflow of the generation and byte counters.
- NetstackTokens, EngineCoupling and PacketBridge are state machines, not classes: their subject is the interleaving of
  lock sections, which sequential methods do not have.
- The packet framing of folotun and the mapping of statuses to C codes.
- DnsServer.ClassicNameServer.HandleResponse: does not model the publish and subscribe service; nor is the waiting in
  QueryIP modelled.
- DnsServer.ClassicNameServer.FindIPsForDomain: reads both records at one time, although the source reads the clock once
  per family and looks at the records behind its read lock.
- DoH, QUIC and fake name servers, static hosts, expected-IP filters, and the parsing of DNS messages: ParseResponse
  starts from parsed answers.
- DnsClients.New: clients are built at once, as they are when the dispatcher is already registered.
- DnsClients.SortClients: does not say what happens with more than 65536 clients, where the table names wrong ones.
- Features.Instance.Resolve: dependencies are matched by type name, not by reflection; callbacks do not call back into
  the instance.
- sniffHTTP, and case folding and white space beyond ASCII.
- The contents of the China ranges and the built-in suffix lists: any sorted, disjoint ranges and any lists.
- Router.IPMatcher.AddCIDR: the text of a block or an address is parsed already; a block is its network number and
  prefix length.
- Router.Router.Route: the port, which the source does not look at.
- User information, fragments, vmess and Clash forms of share links, and JSON.
