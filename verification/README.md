# Verified model of the proxy core

This project models the parts of the desktop proxy that carry real algorithms and proves what they are for. All
statements range over every input, every run or every reachable state. Code that updates things in place is a class or
a method over an array, tied by its `ensures` to a specification function; the lemmas are about those functions.
`dafny verify dfyconfig.toml` checks everything.

- **TLS ClientHello and record fragmentation.** `ClientHello` holds the wire format (section 4.1.2 of RFC 8446,
  section 3 of RFC 6066) and the byte parser. The parser inverts the serializer; on arbitrary bytes, what it reports is
  characterised by the extension headers reachable by hopping over the block. `Fragmentation` cuts one record into
  several, `TlsRf` puts a record reader (section 5.1 of RFC 8446) on the other end and shows that the peer sees the
  same handshake, that no record carries the whole name when the cut is inside it, and exactly which well-formed
  ClientHello makes `findLastDot` read one byte past the record: one whose server name is its very last byte.
- **Batching** (`Batching`). Critical sections, timer events and sends are steps that interleave freely; a timer can
  fire before it is stopped and run late, and a delivery loop that runs out of results ends the program. Every submitted
  item is in exactly one place, pending items always have a timer that will run, and for every run it is known exactly
  which items can still be answered. Left alone, the protocol stops within a bounded number of steps with all those
  answered, whatever their order. The full restart is the only step that loses items.
- **Coalescing** (`Coalescing`, and `Relaying` for its leaders in the batch queue). One leader for each key of the map,
  no waiter lost, every response its own leader's, and no send to a waiter ever blocks, not even after the waiter has
  timed out. A leader waits for its batch item without a timeout, so a waiter can be served exactly when that item has
  not been lost or starved.
- **End to end** (`Alignment`). The script's filter, fetch and re-interleave equals serving each request alone;
  submitters get their own results exactly when every reply to a good url is an object or not JSON at all and the
  encoded batch is not taken for an error page.
- **Response cache** (`ResponseCache`). Store, order list and byte count agree after every history, eviction is
  minimal, and a get answers nothing or what an unbounded TTL map would. README.en.md:155 and README.en.md:195 of the
  repository call the cache LRU; the code evicts in the order of the last put, and `EvictsRecentlyUsed` shows a case.
  A put that is refused for its size leaves the older response in place (`NeverStaleIff`, `RefusedPutIsStale`).
  Neither get nor put has a caller in the repository yet.
- **Routing and block list** (`Routing`, `BlockList`, `Strings`). Label walks are the declarative matches on dotted
  names, and the scores give the promised precedence. The comment at proxy/proxy.go:767 puts exact above regular
  expressions; that holds exactly for expressions shorter than the host and a hundred characters (`ExactBeatsRegexIff`).
  `hostMatchesDomain` has no caller in the repository; rules are matched by score.
- **Rule import** (`MergeKeys`, `ImportMerge`). The key is canonical for comma-free domains, it is known exactly which
  lists and groups no other shares its key with, and the indexed merge is the naive one: positions keep key and ID, the last imported rule of a key wins, a second import changes nothing.
- **Smaller protocols.** Chunk ranges and their assembly (`Chunks`), access-control headers (`Cors`), the upstream
  retry with its fallback (`Upstream`), the SOCKS5 request (`Socks`) and moving a DNS node (`DnsOrder`).

Properties that are false of the code are stated with the exact condition under which they hold, and each has an input
on which it fails:

| property | holds exactly when | fails on |
|---|---|---|
| the dot search stays inside the record | `TlsRf.HelloDecision` | `TlsRf.PanickingHello` |
| every submitted item can be answered | `Batching.AnswerableIff` | `Batching.ShortReplyStarves`, `Batching.RestartLoses` |
| every waiter can be served | `Relaying.WaiterServedIff` | `Relaying.RestartStrandsWaiter` |
| every submitter gets its own result | `Alignment.EndToEndAlignmentIff` | `Alignment.PageFailsBatch`, `Alignment.SkippedEntryMisaligns` |
| a put is never followed by an older response | `ResponseCache.NeverStaleIff` | `ResponseCache.RefusedPutIsStale` |
| an exact rule outscores an expression | `Routing.ExactBeatsRegexIff` | `Routing.LongRegexTies` |
| the two matchers agree | `Routing.MatchersAgreeIff` | `Routing.WildcardSeparatesMatchers` |
| no list of other domains has the key of a list | `MergeKeys.KeyIdentifiesIff` | `MergeKeys.CommaCollision` |
| no group of another mode or other domains has the key of a group | `ImportMerge.MergeKeyIdentifiesIff` | `ImportMerge.Collision` |
| no record carries the whole server name | `TlsRf.NameHeldIff` | `TlsRf.NameInOneRecord` |

Two more conditions concern inputs that the program does not receive today: an origin with an empty line in it
(`Cors.BodySurvivesIff`, `Cors.EmptyLineSpoilsBody`; the header parser cuts its lines at line ends) and a length close to
2^63 (`Chunks.PlanChunks`; lengths are those of decoded bodies under a cap).

## Model

| member | source | states |
|---|---|---|
| `ClientHello.SkipFixedFields` | proxy/tls_fragment.go:195-261 | the cursor over the mandatory fields ends at the extension block, or at the error, given by `ReadPrelude`; no index is out of range on any bytes |
| `ClientHello.ParseName` | proxy/tls_fragment.go:281-302 | the cursor inside a server_name extension computes `ReadName`, each malformed form with its own error |
| `ClientHello.ParseClientHello` | proxy/tls_fragment.go:183-310 | the loop with its early exits computes `Parse`, terminates on any bytes and never leaves the array |
| `ClientHello.ParserInvertsSerializer` | proxy/tls_fragment.go:183-310 | for every well-formed single-record ClientHello the parser succeeds, points at exactly the bytes of the first server_name entry (or -1), and reports a key_share exactly when there is one |
| `ClientHello.WalkFinds` | proxy/tls_fragment.go:263-309 | walking any laid out block from the start finds its first name and its key_share, wherever they stand |
| `ClientHello.WalkSound` | proxy/tls_fragment.go:263-309 | on arbitrary bytes a walk that succeeds keeps a known name, reports the first name it visits, and the flag is the presence of a visited key_share |
| `ClientHello.ParseSound` | proxy/tls_fragment.go:183-310 | on arbitrary bytes: a reported name is the first entry of the first reachable server_name, -1 means there is none, the flag is exact |
| `ClientHello.PreludeRefusedIff` | proxy/tls_fragment.go:195-261 | on arbitrary bytes, what comes before the extensions is refused exactly when the record is not all there, is no ClientHello of the mandatory length, or one of the lengths in it does not fit |
| `ClientHello.NameReadIff` | proxy/tls_fragment.go:281-302 | on arbitrary bytes, the data of a server_name extension is read exactly when it encodes a host name, with further entries behind it or not |
| `ClientHello.TypesOnTheWire` | proxy/tls_fragment.go:187-188 | server_name is extension 0 and key_share extension 51 on the wire |
| `Fragmentation.FindLastDot` | proxy/tls_fragment.go:174-181 | the backward scan returns the last dot of the scanned range, the byte behind the name included, or the middle of the name |
| `Fragmentation.Cut` | proxy/tls_fragment.go:174-181 | the cut lies in the name or just behind it, is the last dot when there is one and the middle otherwise |
| `Fragmentation.CutInsideIff` | proxy/tls_fragment.go:174-181 | the cut is strictly inside the name exactly when no dot follows the name and it has an inner dot, or none at all and two bytes |
| `Fragmentation.SplitAndAppend` | proxy/tls_fragment.go:447-474 | appends the parts of the data, each wrapped in a record, behind what was there |
| `Fragmentation.CutAtMultiples` | proxy/tls_fragment.go:460-473 | slicing at multiples of the base gives the recursive cutting `CutEvery` |
| `Fragmentation.CutEveryWhole` | proxy/tls_fragment.go:460-473 | n pieces that concatenate to the data, none of them empty when the base is positive |
| `Fragmentation.PartsWhole` | proxy/tls_fragment.go:447-474 | for any n the parts concatenate to the data, there are 1 to n of them, and none is empty unless the data is |
| `Fragmentation.Merge` | proxy/tls_fragment.go:412-415 | the merged buffer is all records back to back |
| `Fragmentation.WriteSegments` | proxy/tls_fragment.go:430-444 | the packets written are the segments of the merged buffer, the last one taking what is left |
| `Fragmentation.SendRecords` | proxy/tls_fragment.go:312-444 | overwrites only the minor version in place, and writes the packets of the stamped record, for any records >= 2 and segments -1 or positive |
| `TlsRf.ReaderRecovers` | proxy/tls_fragment.go:476-482 | a record reader gets back every payload that was wrapped, as long as each fits 16 bits |
| `TlsRf.SegmentsWhole` | proxy/tls_fragment.go:430-444 | segments concatenate to the merged buffer |
| `TlsRf.FragmentationPreservesHandshake` | proxy/tls_fragment.go:312-444 | reading everything written gives back the bytes behind the original header, in 2 to `records` fragments, none empty or too long for its length field |
| `TlsRf.PayloadPosition` | proxy/tls_fragment.go:362-368 | each record carries a stretch of the original bytes, at a known place |
| `TlsRf.SniStraddlesRecords` | proxy/tls_fragment.go:362-368 | when the cut is strictly inside the name no single record contains the name |
| `TlsRf.NameHeldIff` | proxy/tls_fragment.go:362-368 | some record carries the whole name exactly when none of the offsets at which records end lies strictly inside it: the cut and the multiples of the bases on its two sides |
| `TlsRf.NameInOneRecord` | proxy/tls_fragment.go:174-181 | a concrete ClientHello, whose name begins with its only dot, that is fragmented although one record carries the whole name |
| `TlsRf.ParseIgnoresKind` | proxy/tls_fragment.go:183-310 | the parser's result does not depend on content type and record version, so stamping cannot change it |
| `TlsRf.ReassemblyReparses` | proxy/tls_fragment.go:312-316 | reassembling the fragments gives the stamped record, in which the parser finds what it found before |
| `TlsRf.HandleTLSFragment` | proxy/tls_fragment.go:28-114 | over the result of the parser, the fallback flag and the two outcomes of the network, exactly when it closes, drops, forwards, fails, fragments or falls back; what the fallback gets is the record as it was received, although the record has been stamped in place |
| `TlsRf.SendFragments` | proxy/tls_fragment.go:60-103 | the copy for the fallback is made before the record is stamped |
| `TlsRf.ReadInitial` | proxy/tls_fragment.go:155-172 | what is read is a prefix of the stream exactly as long as its length field says, and nothing is read only when no prefix is such a record |
| `TlsRf.FragmentedIsTransparent` | proxy/tls_fragment.go:28-114 | for any client bytes that get fragmented, one write goes out from which the peer reads 3 or 4 non-empty records of the stamped version that reassemble to the bytes sent and parse alike |
| `TlsRf.NameEndsBlockIff` | proxy/tls_fragment.go:295-302 | the first name ends the block exactly when its extension is the last one and holds nothing behind it |
| `TlsRf.HelloDecision` | proxy/tls_fragment.go:45-59 | every well-formed ClientHello is forwarded without a name or with an empty one, makes the dot search run off the end exactly when the name is its last byte, and is fragmented otherwise |
| `TlsRf.PanickingHello` | proxy/tls_fragment.go:174-176 | one concrete ClientHello on which the dot search runs off the end |
| `Batching.BatchQueue.BatchSubmit` | proxy/gas_relay.go:837-868 | one submission is the `Submit` step: it joins the queue, dispatches a full batch and stops the timer, or arms one if none is set |
| `Batching.BatchQueue.RunTimer` | proxy/gas_relay.go:856-865 | a timer callback takes all pending items, clears the timer field and dispatches them if there are any |
| `Batching.BatchQueue.FlushOne` | proxy/gas_relay.go:886-888 | one round of the delivery loop hands the next item of a batch the result at its own position, or crashes behind the last result |
| `Batching.BatchQueue.StopTimer` | proxy/gas_relay.go:845-848 | stopping prevents the callback only of a timer that is still armed |
| `Batching.BatchQueue.RestartBatching` | proxy/gas_relay.go:1488-1494 | a restart empties the queue and stops the timer |
| `Batching.StepConserves` | proxy/gas_relay.go:837-889 | a submission adds its item, a restart drops the pending ones, and no other step changes the multiset of items held anywhere |
| `Batching.StepKeepsTimer` | proxy/gas_relay.go:841-866 | every step, late callbacks of stopped timers and restarts included, keeps the timer field and the queue consistent |
| `Batching.StepKeepsInv` | proxy/gas_relay.go:837-889 | the invariant of the protocol is inductive |
| `Batching.RunKeepsInv` | proxy/gas_relay.go:837-889 | the invariant holds after every run, and without a restart no submitted item is missing |
| `Batching.ExactlyOnce` | proxy/gas_relay.go:837-889 | in every interleaving without a restart each submitted item is in exactly one of queue, flight and answers, once, and every batch has 1 to 50 items |
| `Batching.NeverStranded` | proxy/gas_relay.go:841-866 | in every reachable state pending items have the timer field set to a timer that is armed or has fired |
| `Batching.AnswersAreOwn` | proxy/gas_relay.go:886-888 | every answer is the result at the submitter's own position in its own batch |
| `Batching.AnswersWereReturned` | proxy/gas_relay.go:870-889 | in every run a submitter gets the result at its own position among those the relay returned for its batch, or the one error it returned |
| `Batching.BatchLeavesWhen` | proxy/gas_relay.go:842-865 | in every run a batch leaves exactly when a submission is the fiftieth or a timer runs with items pending, holds all that was pending, and leaves the queue empty and the timer field unset |
| `Batching.FullBatchStopsTimer` | proxy/gas_relay.go:842-848 | in every run the submission that fills a batch stops the timer that is set unless it has fired, and no other |
| `Batching.RunKeepsOrder` | proxy/gas_relay.go:842-843 | in every run the items of a batch are consecutive submissions in their order |
| `Batching.PendingCanFly` | proxy/gas_relay.go:854-866 | from any reachable state the timer alone dispatches all pending items, in order |
| `Batching.AnswerableIff` | proxy/gas_relay.go:837-889 | after every run, restarts included, some continuation answers an item exactly when it has its answer, or the program runs, the item is held somewhere, and it is not in a batch whose results end before its position |
| `Batching.EveryItemIsAnswered` | proxy/gas_relay.go:837-889 | after every run, with no further submit, restart or crash the steps left are bounded, and when none is left every held item has its answer or came back without a result, in whatever order they were taken; without an earlier restart all submitted items are held |
| `Batching.QuietStepWorks` | proxy/gas_relay.go:837-889 | each timer event, reply and send leaves less work than before |
| `Batching.ShortReplyStarves` | proxy/gas_relay.go:1273-1276 | a concrete run in which a reply with one result too few leaves an item without any hope of an answer |
| `Batching.RestartLoses` | proxy/gas_relay.go:1488-1494 | a concrete run in which a restart leaves an item without any hope of an answer |
| `Coalescing.Coalescer.EnterKey` | proxy/gas_relay.go:1068-1083 | the first critical section makes the caller a waiter of the key's leader, or its leader |
| `Coalescing.Coalescer.CloseKey` | proxy/gas_relay.go:1090-1093 | the second critical section takes the key with all its waiters out of the map |
| `Coalescing.Coalescer.SendOne` | proxy/gas_relay.go:1094-1096 | one send fills the buffer of the next waiter of the list |
| `Coalescing.StepKeepsInv` | proxy/gas_relay.go:1068-1097 | the invariant over map, lists and channels is inductive |
| `Coalescing.OneLeaderPerKey` | proxy/gas_relay.go:1070-1083 | a key is in the map exactly when it has a leader, and then only one |
| `Coalescing.NoWaiterLost` | proxy/gas_relay.go:1070-1096 | who waits with an empty buffer is in its key's list in the map, or on the part of its leader's list still to be served |
| `Coalescing.OwnResponse` | proxy/gas_relay.go:1075-1076 | a response that is received is the one of the leader that was joined |
| `Coalescing.ResponseWasClosedWith` | proxy/gas_relay.go:1090-1096 | in every run, a response that is received is the very one with which the leader that was joined left the map |
| `Coalescing.WaiterSteps` | proxy/gas_relay.go:1074-1079 | receiving empties the buffer into the waiter, giving up leaves the buffer alone, and no other channel changes |
| `Coalescing.GivenUpForGood` | proxy/gas_relay.go:1077-1078 | a waiter that has given up never gets a response |
| `Coalescing.SendNeverBlocks` | proxy/gas_relay.go:1094-1096 | whenever a leader has a send to do the channel has room, whether or not the waiter has timed out |
| `Coalescing.SendingLeaderServes` | proxy/gas_relay.go:1090-1096 | from every reachable state a waiter that has not given up can receive the response its leader has |
| `Relaying.StepKeepsInv` | proxy/gas_relay.go:1068-1097 | the invariants of both protocols hold together when leaders submit to the batch queue and return with its answers |
| `Relaying.ResponseIsLeadersAnswer` | proxy/gas_relay.go:1084-1096 | in every run, a waiter that gets a response gets the answer to the batch item of the leader it joined |
| `Relaying.WaiterServedIff` | proxy/gas_relay.go:1068-1097 | after every run, restarts included, a waiter that has not given up can be served exactly when the program runs and its leader is not stuck with an item that is lost or has no result |
| `Relaying.EveryWaiterIsServed` | proxy/gas_relay.go:1068-1097 | after every run, with no further request, restart, crash or timeout the steps of both protocols left are bounded, and when none is left only waiters of stuck leaders still wait |
| `Relaying.WaiterCanBeServed` | proxy/gas_relay.go:1068-1097 | when its leader is not stuck, a continuation without any restart serves the waiter, whatever stage the leader is at |
| `Relaying.RestartStrandsWaiter` | proxy/gas_relay.go:1488-1494 | a concrete run in which a restart leaves the waiters of a leader only the timeout |
| `Alignment.GoodUrlIff` | server/Code.gs:53 | exactly the text fields that begin with http:// or https://, in small or capital letters, are fetched |
| `Alignment.HttpIsFetched` | server/Code.gs:53 | every url of the two schemes in either spelling is fetched whatever comes behind, a missing field, another type or another scheme is not |
| `Alignment.Filter` | server/Code.gs:47-71 | the error map holds exactly the requests without such a url, the rest are fetched in order |
| `Alignment.Reinterleave` | server/Code.gs:78-92 | putting replies back between the errors gives every request its own result |
| `Alignment.DoBatch` | server/Code.gs:46-95 | for any mix of requests, one with an http or https url gets what its own reply decodes to, or the raw text when that is no JSON, and every other one gets the error |
| `Alignment.PageTestIff` | proxy/gas_relay.go:1151-1161 | a body is taken for an error page exactly when it has fifty characters and holds "<html" and one of four words, in small or capital letters |
| `Alignment.ParseBatchBody` | proxy/gas_relay.go:1256-1279 | there are results exactly when the body is no such page and decodes to a list of the expected size without an error; they are the objects rendered, other entries skipped |
| `Alignment.RelayBatch` | proxy/gas_relay.go:891-933 | which of the up to three attempts decides: a good first body, else the second, else the one over HTTP/1.1 |
| `Alignment.RetriesDoNotHelp` | proxy/gas_relay.go:909-932 | when the attempts bring the same body or nothing, the outcome is that of the body |
| `Alignment.AlignmentOverAttempts` | proxy/gas_relay.go:891-933 | over up to three attempts with replies of their own, there are results exactly when the attempt that counts brings something that is no page, and everybody gets its own exactly when the replies of that attempt are objects or not JSON |
| `Alignment.DeliverBatch` | proxy/gas_relay.go:886-888 | submitters get the results in order, and the loop fails exactly when there are fewer results than submitters |
| `Alignment.FlushBatch` | proxy/gas_relay.go:879-888 | an error goes to every submitter of the batch, results go to as many as there are |
| `Alignment.EndToEndAlignmentIff` | proxy/gas_relay.go:1256-1279 | submitter k gets the result of request k for all k exactly when the encoded batch is not taken for an error page and every reply to a good url is an object or not JSON; if it is taken for one the whole batch fails, otherwise results run out |
| `Alignment.PageIsFound` | proxy/gas_relay.go:1151-1161 | a body with a certain error page anywhere in it is taken for an error page |
| `Alignment.PageFailsBatch` | server/Code.gs:89 | one such page among the replies fails the whole batch, although no reply is JSON of the wrong kind |
| `Alignment.SkippedEntryMisaligns` | proxy/gas_relay.go:1273-1276 | a concrete reply that is not an object sends the next result to the wrong submitter |
| `Alignment.SubmitterGetsOwnResult` | proxy/gas_relay.go:870-889 | composed with every run of the batching protocol: an answer handed out for an item is what the script makes of the reply at the item's own position in its batch, whatever happens to other batches |
| `ResponseCache.GasResponseCache.GetRaw` | proxy/gas_relay.go:1511-1530 | returns the stored bytes until they expire and changes nothing; an expired entry leaves store, order and count, and nothing else does |
| `ResponseCache.GasResponseCache.PutRaw` | proxy/gas_relay.go:1532-1560 | an empty response or one above a quarter of the bound changes nothing; any other is stored, last in the order, with eviction and replacement as in `Put`, keeping the bound |
| `ResponseCache.GasResponseCache.EvictFor` | proxy/gas_relay.go:1542-1547 | the eviction loop drops heads of the order until the new bytes fit or nothing is left; it never indexes an empty order |
| `ResponseCache.GasResponseCache.RemoveFromOrder` | proxy/gas_relay.go:1521-1526 | the scan closes the gap of the first occurrence |
| `ResponseCache.EvictKeepsSuffix` | proxy/gas_relay.go:1542-1547 | eviction keeps a suffix of the order with its entries, and stops when the bytes fit or the order is empty |
| `ResponseCache.EvictionIsMinimal` | proxy/gas_relay.go:1542-1547 | with any shorter prefix removed the new bytes would not fit |
| `ResponseCache.PutKeepsValid` | proxy/gas_relay.go:1532-1560 | after a put the order is duplicate-free, lists the keys, the count is the sum of the lengths and within the bound |
| `ResponseCache.OrderIsLastPutOrder` | proxy/gas_relay.go:1511-1560 | after any history the order lists exactly the stored urls, once each, in the order of their last accepted put; the count is exact and bounded |
| `ResponseCache.GetRefinesTtlMap` | proxy/gas_relay.go:1511-1530 | after any history a get answers nothing or what an unbounded TTL map of the accepted puts answers |
| `ResponseCache.ExactWhenRoomy` | proxy/gas_relay.go:1511-1560 | with room for every put and a clock that does not go back the answers are those of the map |
| `ResponseCache.NeverStaleIff` | proxy/gas_relay.go:1511-1560 | after any history and a put at time t, no later get returns anything older, until the next accepted put of the url, exactly when the put is accepted, or its url is not stored, or what is stored has expired by t |
| `ResponseCache.RefusedPutIsStale` | proxy/gas_relay.go:1537-1539 | in a cache of any number of megabytes, a concrete response that is too large leaves an older one to be served |
| `ResponseCache.EvictsRecentlyUsed` | proxy/gas_relay.go:1542-1547 | in a full cache of any number of megabytes, a response that has just been served is evicted before one that has not |
| `BlockList.GFWList.LoadFromReader` | proxy/gfwlist.go:34-59 | loads exactly the domains of the lines that are neither blank nor comments, and leaves the list alone on a read error |
| `BlockList.DomainLine` | proxy/gfwlist.go:39-45 | a line with a domain is taken, in small letters and without the white space around it |
| `BlockList.CommentLines` | proxy/gfwlist.go:39-43 | blank lines and the four kinds of comment are not taken, whatever follows |
| `BlockList.PlainLinesLoad` | proxy/gfwlist.go:34-59 | lines that hold nothing but domains are all loaded and counted |
| `BlockList.OtherLinesDoNotCount` | proxy/gfwlist.go:40-43 | lines that are not taken load nothing and count for nothing |
| `BlockList.GFWList.IsBlocked` | proxy/gfwlist.go:104-131 | true exactly when some listed domain is the host or a dotted suffix of it |
| `Strings.SuffixIsParent` | proxy/gfwlist.go:124-129 | a domain that ends the host behind a dot is one of the parents the walk visits |
| `Strings.ParentIsSuffix` | proxy/gfwlist.go:124-129 | every parent the walk visits ends the host behind a dot |
| `Routing.WalkLabels` | proxy/proxy.go:725-744 | the two nested loops find the labels of the base with a label behind them exactly when "." + base + "." occurs in "." + host |
| `Routing.WalkIsContainment` | proxy/proxy.go:725-744 | a window of labels is an occurrence of the dotted base, in both directions |
| `Routing.DomainMatchScore` | proxy/proxy.go:750-813 | the score is that of the declarative kind of match: none, exact, suffix, base.*, wildcard or expression |
| `Routing.HostMatchesDomain` | proxy/proxy.go:708-748 | true exactly for the host itself, a name below it, or a base.* containment |
| `Routing.DecorationsDoNotMatter` | proxy/proxy.go:714-773 | for every plain pattern, a leading "*." and a trailing "$" change neither the score on any host nor the answer of the other matcher |
| `Routing.SubdomainScores` | proxy/proxy.go:772-812 | a name below s scores the length of s on "*." + s, and matches |
| `Routing.MatchersAgreeIff` | proxy/proxy.go:708-813 | for a pattern that is not an expression the two matchers agree, but for a pattern that strips to "*" |
| `Routing.MatchLengths` | proxy/proxy.go:778-812 | an exact pattern is as long as the host, suffix and base.* patterns are shorter |
| `Routing.ExactBeatsPlain` | proxy/proxy.go:778-812 | an exact match outscores every suffix, base.* and wildcard match |
| `Routing.ExactBeatsRegexIff` | proxy/proxy.go:758-773 | an exact match outscores an expression exactly when that is shorter than the host and a hundred characters |
| `Routing.RegexBeatsInexactIff` | proxy/proxy.go:758-812 | an expression outscores a match that is not exact exactly when that pattern is shorter than the expression and 900 characters, so always for hosts up to that length |
| `Routing.LongRegexTies` | proxy/proxy.go:767 | an expression of a hundred and one characters that matches the host "a", the letter as fifty-one alternatives, scores as much as the exact pattern |
| `Routing.WildcardSeparatesMatchers` | proxy/proxy.go:801-804 | on the pattern "*" and the host "a" the two matchers disagree |
| `Routing.RuleManager.MatchRule` | proxy/proxy.go:2969-3051 | global and auto modes override; otherwise the first enabled rule of maximal score is picked (downgraded in transparent mode), and the auto router or direct when none matches |
| `Routing.RuleManager.BestRule` | proxy/proxy.go:3006-3020 | the loop finds the first rule of maximal score, or none when none matches |
| `Routing.BestMatches` | proxy/proxy.go:3008-3020 | the rule picked is enabled and matches the host |
| `Routing.DowngradeIff` | proxy/proxy.go:3023-3027 | only an interception rule in transparent mode is changed, to a direct connection |
| `Routing.BestIsUnique` | proxy/proxy.go:3008-3020 | the rule picked is unique |
| `Routing.ExactRuleWins` | proxy/proxy.go:3008-3020 | with an enabled exact rule, and no overlong expression, an exact rule is picked, not later than that one |
| `Routing.LongestSuffixWins` | proxy/proxy.go:3008-3020 | when a suffix rule is picked no enabled suffix rule of the host is longer and none is exact |
| `MergeKeys.NormalizeDomainsForKey` | proxy/config.go:106-125 | the loop with the seen-map, the sort and the join compute the key of the list |
| `MergeKeys.SortedUnique` | proxy/config.go:123-124 | a set of domains has only one strictly sorted listing |
| `MergeKeys.KeyIsCanonical` | proxy/config.go:106-130 | comma-free lists have the same key exactly when their trimmed, lower-cased, non-empty domains are the same set |
| `MergeKeys.KeyIdentifiesIff` | proxy/config.go:106-125 | no list of other domains has the key of a list exactly when it names at most one domain and no comma parts that into two domains in their order |
| `MergeKeys.CommaCollision` | proxy/config.go:124 | with a comma in a domain two different lists share a key |
| `ImportMerge.MergeKeyIsCanonical` | proxy/config.go:127-130 | with modes without a bar and comma-free domains, two groups have the same key exactly when mode and set of domains are the same |
| `ImportMerge.MergeKeyIdentifiesIff` | proxy/config.go:127-130 | no group of another mode or other domains has the key of a group exactly when no other bar of the key has a possible mode before it and possible domains behind it, and the domains can be told from theirs |
| `ImportMerge.Collision` | proxy/config.go:127-130 | for every other group, a group of another mode or other domains with the same key |
| `ImportMerge.KnownModeHasNoBar` | proxy/config.go:168 | every known mode meets that condition |
| `ImportMerge.EightModes` | proxy/config.go:168 | exactly the eight modes are known |
| `ImportMerge.NoKeyIff` | proxy/config.go:262-264 | only a group without a mode and without any domain has no key |
| `ImportMerge.ParseRules` | proxy/config.go:157-199 | the groups belong, in order, to exactly the rules with domains and a known mode, with the domains of the rule, and its own mode or that of the part when it has none; the others are counted as skipped, and no group is without a key |
| `ImportMerge.ParsePayload` | proxy/config.go:143-200 | a part is an error exactly when its own type, or that of its place when it has none, is not one of two; otherwise its groups belong to its rules as in `ParseRules` |
| `ImportMerge.MergeImported` | proxy/config.go:247-281 | the merge with an index equals the naive merge that searches the last group of each key, and the counters count what happened |
| `ImportMerge.MergeKeepsPositions` | proxy/config.go:259-281 | existing positions keep their key and ID, appended groups have keys of their own |
| `ImportMerge.MergeLeavesOthers` | proxy/config.go:259-281 | a group is replaced only at the last position of its key, and only when that key is imported |
| `ImportMerge.LastImportedWins` | proxy/config.go:259-281 | the last group of an imported key ends up being the last imported one, under the old ID |
| `ImportMerge.ImportIsIdempotent` | proxy/config.go:259-281 | importing the same groups again, with new IDs, changes nothing |
| `ImportMerge.RuleManager.ImportConfigWithSummary` | proxy/config.go:202-299 | the groups become the merge of the interception part and then the transparent one, or of the single configuration when both hold none; Total counts all rules that were read and is Added + Overwritten + Skipped, and the error is returned exactly when no group was read |
| `Chunks.PlanChunks` | proxy/gas_relay.go:575-602 | for every 64-bit length: no ranges up to the minimum, a negative count only where the rounding up overflows, else three ranges that partition the file; the second cap is never reached |
| `Chunks.EveryByteOnce` | proxy/gas_relay.go:597-602 | each byte of the file is in exactly one range |
| `Chunks.Assemble` | proxy/gas_relay.go:633-646 | for every order of arrival the parts are joined by index, and one failure fails the whole |
| `Chunks.SlicesAreTheFile` | proxy/gas_relay.go:643-646 | the bytes of the ranges, joined in order, are the file |
| `Chunks.Download` | proxy/gas_relay.go:575-646 | planned, served range by range and assembled in any order, the result is the file |
| `Cors.GasInjectCORS` | proxy/gas_relay.go:1799-1830 | the line loop computes `Inject` |
| `Cors.HeadEndOfMessage` | proxy/gas_relay.go:670-676 | in a message of lines and a body the separator is found before the first empty line behind the first |
| `Cors.HeadOfResponse` | proxy/gas_relay.go:1805-1807 | every response with a separator is its header lines and its body, and none of those lines behind the first is empty |
| `Cors.BodySurvivesIff` | proxy/gas_relay.go:1799-1830 | the body extracted after the injection is the one before exactly when the origin holds no empty line |
| `Cors.EmptyLineSpoilsBody` | proxy/gas_relay.go:1816-1829 | a concrete origin with an empty line that cuts the header short |
| `Cors.HeaderLinesAfter` | proxy/gas_relay.go:1799-1830 | with an origin of one line the header is the other lines in their order and then the six new ones, and the body stays |
| `Cors.IsCorsIff` | proxy/gas_relay.go:1810-1813 | exactly the lines that begin with access-control-, in small or capital letters, are taken out |
| `Cors.KeptIsTheRest` | proxy/gas_relay.go:1808-1815 | every such line is gone and every other line is kept as often as it was there |
| `Upstream.Connector.TryCandidate` | proxy/proxy.go:4654-4748 | a candidate is dialled again only after a rejected ECH that could be refreshed, and contributes one error when it fails |
| `Upstream.Connector.EstablishUpstreamConn` | proxy/proxy.go:4638-4777 | result and dials are those of `Outcome`, the recursion goes at most one level deep, the branch without errors is never taken |
| `Upstream.LevelTells` | proxy/proxy.go:4651-4756 | a pass connects with its last dial, the only one that succeeded, or has exactly one error of each candidate, in their order |
| `Upstream.LevelPerCandidate` | proxy/proxy.go:4651-4756 | the address connected is the first candidate whose last dial succeeded, and each error is what its own candidate met at its last dial |
| `Upstream.FallsBackIff` | proxy/proxy.go:4767-4768 | a rule falls back exactly when its fallback mode, however it is written, is tls-rf or quic and not its own mode |
| `Upstream.AtMostThreeEach` | proxy/proxy.go:4638-4777 | for any outcomes at most three dials a candidate; a failure holds one error each and has used the fallback when there is one |
| `Upstream.ThreeEachIsReached` | proxy/proxy.go:4651-4771 | when ECH is rejected throughout the first pass and the dials of the fallback fail in any way, the bound is met exactly |
| `Socks.Reader.ReadRequest` | proxy/proxy.go:2412-2464 | reading step by step computes `Decode` and consumes exactly the request |
| `Socks.RefusedIff` | proxy/proxy.go:2412-2464 | exactly when a request is refused for its version or command, for its address type, or because the stream ends |
| `Socks.NameOnTheWire` | proxy/proxy.go:1904-1913 | the octets of a request for a name of one letter |
| `Socks.DecodeInvertsEncode` | proxy/proxy.go:1888-1913 | reading what was written gives the address, the port modulo 65536 and the rest of the stream |
| `Socks.EncodeInvertsDecode` | proxy/proxy.go:2412-2464 | every request that is understood is one that the writer produces, but for the reserved octet |
| `DnsOrder.SetDNSNodePriority` | proxy/proxy.go:3983-4013 | the in-place shift gives `Moved`, and an unknown ID changes nothing |
| `DnsOrder.CloseGap` | proxy/proxy.go:4008 | closing the gap shifts the nodes behind it and keeps the others |
| `DnsOrder.OpenGap` | proxy/proxy.go:4009-4011 | with the tail copied first the node is put in between without losing any |
| `DnsOrder.MoveKeepsOthersInOrder` | proxy/proxy.go:3983-4013 | the move is a permutation, the node ends up at the target, or at the front or the end when that lies outside, and the others keep their order |

## Left out

- `Fragmentation.SendRecords`: does not model a single record or out-of-band sends, which are tied to each other by a fixed offset and to system calls, nor how far a failing write gets, nor send intervals. A segment count of 0 or below -1 is not covered either; no caller passes one.
- `TlsRf.HandleTLSFragment`: stops where the tunnel or the fallback connection starts.
- `Batching.ExactlyOnce`: excludes the full restart, because the code drops pending items there; `StepConserves` shows it is the only such step, and `AnswerableIff` covers every run.
- `Alignment.EndToEndAlignmentIff`: supposes that the relay decodes the batch the script encoded, because both are JSON libraries; they are parameters.
- `Alignment.SubmitterGetsOwnResult`: supposes that the replies to the batches of the item are objects or not JSON and their bodies not taken for error pages once there are results, because otherwise results go to the wrong submitters; `EndToEndAlignmentIff` gives the exact condition.
- `Cors.HeaderLinesAfter`: supposes an origin of one line, because a line end in the origin adds header lines; `BodySurvivesIff` covers every origin.
- `MergeKeys.KeyIsCanonical`: supposes comma-free domains, because the separator of the key is a comma; `KeyIdentifiesIff` covers every list.
- `ImportMerge.MergeKeyIsCanonical`: supposes comma-free domains and modes without a bar; `MergeKeyIdentifiesIff` covers every group.
- `ImportMerge.RuleManager.ImportConfigWithSummary`: takes the decoded parts of the file, because decoding is that of a JSON library; saving the configuration and rebuilding the rules are left out.
- `Chunks.Download`: takes it that a chunk that does not fail holds the bytes of its range; the relay does not check this.
- `Routing.RuleManager.MatchRule`: takes a host that `normalizeHost` has already seen, and emits no route events; the regular expression engine and the auto router are parameters.
- Real time: cache operations carry the time they happen at, timers and the thirty seconds of a waiter are steps without duration. `parseTTL` is not modelled.
- `Coalescing`: the map `lead`, which names the leader of a key, is not in the code; it only records which caller put the key in.
- A batch of a single item goes through another request path in the code; here it is a batch of one that always gets a result.
- Case folding and white space are those of ASCII, and string lengths count characters where the code counts bytes.
- `sort.Strings` is represented by an insertion sort with the same sorted result.
- JSON, base64, the rendering of a relay reply, `fetchAll` and IP address parsing are parameters.
- Rule fields that the merge only copies are one field `rest`.
- Candidate reports to the Cloudflare pool and the details of ECH configurations in the upstream loop are left out.
- The HTTP/1.1 connection pool, `CloudflarePool`, `V2RayManager`, the link parsers, certificates, settings, user interface and operating system calls are not modelled.
