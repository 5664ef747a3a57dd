# CCN-lite relay, codecs and timers: a verified model

This project models the core of CCN-lite and proves what it is relied on for: a relay never delivers what was
not asked for, a network of relays comes to rest as long as they can remember the nonces about, fragments never
make up a packet that was not sent as long as their numbers tell them apart, every packet format is read back
as it was written, timers fire exactly when they should and the packet rate is kept.

| file | what it holds |
|---|---|
| `Base`, `LinkedList` | list vocabulary; the doubly linked list macros on the heap |
| `Names` | names, comparison, which Data answers which Interest |
| `RelayState`, `Relay` | the relay as a function on its state, and as a class whose loops are proved to compute it |
| `Outcomes` | what every operation of a relay comes to, case by case |
| `Structure`, `FlowBalance`, `Tables`, `ContentStore`, `Waiting` | what holds over every run of a relay |
| `Scenarios` | short runs that end where one would not expect |
| `Network`, `Travel`, `NonceBound` | relays joined by wires that deliver, lose and delay: what travels, that every run ends, and when not |
| `Fragment`, `FragSeries`, `FragChannel`, `FragFace`, `FragBound` | Begin-End fragmentation: frames, one series, hostile channels, the code, the bound on a stream |
| `Tlv`, `Rdr`, `RdrDecode` | variable-size numbers; the tree of local RPC |
| `Ndn`, `NdnRead`, `NdnRoundTrip`, `NdnFields` | the NDN packet format, written backwards and read forwards |
| `Ccnb`, `CcnbRead`, `CcnbFields` | the ccnb format with its mutually recursive reader |
| `Timers`, `TimerLoop`, `RateLimit` | the event queue and its loop; the packet-rate scheduler |
| `Uri`, `UriRoundTrip` | names as text |

Code that updates state in place is a class or a method over an array with the loops of the source; its
`ensures` ties it to a specification function, and the results are lemmas about that function. Build choices:
for the relay the NDN suite with the duplicate check, no scheduler, no RONR; for fragments the CCNx TLV suite;
no HMAC; Unix timers; 64-bit little-endian hosts with signed characters. Sending is appending to a log of
actions. Clock readings, packets and digests come in as parameters.

What the proofs brought to light, where code and expectation part:

- A stored copy of a name makes the relay drop arriving Data even when the copy is stale and a MustBeFresh
  Interest waits (`StaleCopyBlocks`; exactly when: `ArrivalAnswersIff`).
- The eviction scan takes a `last_used` of 0 for "nothing found yet" and can then pass over the oldest entry
  (`EvictionCanMiss`; exactly when: `EvictsOldestIff`); with a clock that does not run backwards this has no
  effect (`RunEvictsOldest`).
- The store may hold one content more than its limit (`StoreOverfills`; exactly when: `OverLimitIff`).
- Suffix windows are compared in 64 bits, so that extreme values turn a window round (`WindowOverflows`; exactly
  when: `MatchesIff`).
- Looking a peer up without an interface never finds its face and makes one more each time (`LookupBlind`); with
  the interface it is found (`LookupAgain`).
- A network runs for ever with one nonce more than a relay remembers (`NonceBound.NeverEnds`; exactly when:
  `NonceBound.EndsIff`).
- The receiver of fragments does not reduce its counter to 14 bits, so a packet inside which the numbers wrap
  is always lost (`SeriesDeliveredIff`). Of 2^14 + 2 fragments and more, two packets can be mixed into one
  (`MixedPacket`; exactly when: `SafeIff`).
- With an MTU of 13 the push loop never ends (`NoRoomAtThirteen`; exactly when: `PushEndsIff`).
- Trailing bytes of a datagram become part of the fragment (`TrailingBytes`), and of all hop limits only 1 runs
  out (`ParseIff`).
- Non-negative integers of 5 or 6 bytes are padded to 7, not to the 8 that the NDN Packet Format
  Specification, section "Type-Length-Value (TLV) Encoding", asks for (`PaddedWellIff`); they are read back all
  the same (`NonNegBack`).
- A ccnb Interest with a nonce lacks the end of the nonce field and so is not closed (`NonceTakesZero`; exactly
  when that matters: `NonceEndsIff`).
- An NDN packet followed by a stray type is accepted (`InterestStray`, `DataStray`; exactly when:
  `StrayEnd`), even with a length behind it if that is large enough (`StrayHeader`).
- The time to the next timer is returned in 32 bits (`ToInt32Is`).
- Printing leaves percent signs alone and widens bytes from 0x80 on, so names that contain either may not come
  back (`PercentLost`, `HighLost`; exactly when: `UriRoundTripIff`).

## Model

| member | source | states |
|---|---|---|
| Network.Quiesces | src/ccnl-core/src/ccnl-relay.c:604-809 | no network of relays, on any topology and with cycles, runs for ever: with every Interest tagged by one of at most 256 nonces, every sequence of deliveries, losses and ageing ticks (of relays with pending Interests) ends |
| Travel.DataTravels | src/ccnl-core/src/ccnl-relay.c:690-703 | Data that arrives at a relay where a neighbour waits for it, and where it is not stored, is in flight to that neighbour afterwards |
| Travel.InterestTravels | src/ccnl-core/src/ccnl-relay.c:405-435 | an Interest that arrives at a relay where its request is new is in flight afterwards to each neighbour a fitting route leads to, unless it came from there |
| Network.StepProgress | src/ccnl-fwd/src/ccnl-fwd.c:182-298 | each step makes (unseen relay/nonce pairs, retries left over all pending entries, packets in flight) smaller in lexicographic order and keeps the network sound |
| Network.ComesToRest | src/ccnl-core/src/ccnl-relay.c:604-809 | a run that takes a step whenever one is possible reaches a network with nothing in flight and nothing pending anywhere, and stays there |
| NonceBound.EndsIff | src/ccnl-core/src/ccnl-relay.c:784-838 | runs on all topologies end exactly when at most 256 nonces are about: with 257 a relay whose face leads back to itself forgets each nonce just before it comes round again |
| Network.StopsOnlyAtRest | src/ccnl-core/src/ccnl-relay.c:722-782 | no step is possible exactly when nothing is in flight and nothing is pending anywhere |
| Network.InterestStep | src/ccnl-fwd/src/ccnl-fwd.c:213-297 | an Interest is either a duplicate, which changes nothing but the history, or uses up one unseen nonce |
| Network.DataStep | src/ccnl-fwd/src/ccnl-fwd.c:94-118 | Data that is forwarded takes retries out of the pending table; Data that takes nothing out sends nothing |
| Network.AgeStep | src/ccnl-core/src/ccnl-relay.c:722-782 | a tick on a relay with pending Interests brings each closer to its last retry or removes it, and accepts no nonce |
| Structure.RunKeeps | src/ccnl-core/src/ccnl-relay.c:48-782 | in every reachable state: no table names a face the relay lacks, no pending list repeats a face, no two entries stand for the same request, route and content names are distinct, the counters equal the list lengths, the pending limit holds and the store exceeds its limit by at most one, and only with that many static entries |
| Structure.DeliverySource | src/ccnl-core/src/ccnl-relay.c:604-714 | every delivery goes to a face that waits in a matching entry, which is its cause |
| FlowBalance.RunBalanced | src/ccnl-core/src/ccnl-relay.c:604-714 | at every point of every history, Data delivered to a face for a key plus entries in which it waits never exceeds the Interests accepted from it for that key |
| FlowBalance.NoFaceIsOverserved | src/ccnl-fwd/src/ccnl-fwd.c:252-297 | from an empty relay: deliveries to a face plus its pending entries are at most the Interests accepted from it |
| FlowBalance.NothingUnsolicited | src/ccnl-core/src/ccnl-relay.c:604-714 | each Data sent on a face answers an earlier accepted Interest from that same face which the Data matches |
| Tables.ServesEachOnce | src/ccnl-core/src/ccnl-relay.c:604-714 | each face that waits in a matching entry is served, no other is, and none twice even when several entries list it |
| Relay.ServedIffWanted | src/ccnl-core/src/ccnl-relay.c:604-714 | serving reports a positive count exactly when some pending entry matches |
| Waiting.NewInterestGoesOut | src/ccnl-core/src/ccnl-relay.c:384-463 | over any run: a new Interest from face f goes out on a face exactly if some route to it has a prefix that begins the name, and the face is not f, or f reflects |
| Tables.RouteAdds | src/ccnl-core/src/ccnl-relay.c:405-435 | a route adds one send exactly if its components begin those of the name and it does not lead back to the arrival face unless that face reflects |
| Tables.ForwardsExactly | src/ccnl-core/src/ccnl-relay.c:384-463 | the sends are, in table order, one along each route that fits |
| Tables.GoesOutIff | src/ccnl-core/src/ccnl-relay.c:384-463 | the same face by face: which faces a pending Interest is sent on |
| Waiting.BothAreAnswered | src/ccnl-fwd/src/ccnl-fwd.c:252-297 | over any run: two faces ask for the same, one after the other; matching Data that is not stored goes to both, once each |
| Waiting.AskedIsAnswered | src/ccnl-fwd/src/ccnl-fwd.c:252-297 | over any run: a face that asks gets the matching Data, whatever else happens in between, unless Data for its request came before, the face was removed or time ran out |
| Waiting.WaitsOn | src/ccnl-core/src/ccnl-interest.c:130-171 | a face that waits goes on waiting through every event that does not end its wait, and ticks count the retries of its entry |
| Waiting.AskingWaits | src/ccnl-fwd/src/ccnl-fwd.c:273-297 | a face whose Interest is heeded, not answered from the store and not confined comes to wait if its request is known or there is room |
| Waiting.WaitingIsServed | src/ccnl-core/src/ccnl-relay.c:604-714 | Data that arrives and is not stored goes once to a face that waits for it, and nothing but that Data is sent |
| Waiting.RepeatedUntilGone | src/ccnl-core/src/ccnl-relay.c:755-772 | over any run: an unanswered Interest is repeated on every fitting face at each tick of its life, seven times at most; at the first tick after that, or after its life, no entry for its request is left |
| Waiting.RepeatedAtTick | src/ccnl-core/src/ccnl-relay.c:755-772 | at a tick within its life an entry with fewer than seven retries is sent on every route that fits |
| Waiting.GoneAtTick | src/ccnl-core/src/ccnl-relay.c:755-772 | at any other tick it goes |
| Waiting.UpcallIffNoPeer | src/ccnl-core/src/ccnl-relay.c:680-708 | over any run from an empty relay: Data is handed to the client exactly on faces without a peer |
| Outcomes.AskedAgain | src/ccnl-fwd/src/ccnl-fwd.c:213-222 | a nonce that is remembered: nothing but the history changes |
| Outcomes.AskedOfStore | src/ccnl-fwd/src/ccnl-fwd.c:252-271 | the first content that matches, and is fresh if that is asked for, goes to the face that asks; the pending table is left alone |
| Outcomes.AskedToJoin | src/ccnl-fwd/src/ccnl-fwd.c:273-297 | a known request gains the face that asks if it was absent; its waiters and all other entries stay as they are |
| Outcomes.AskedToOpen | src/ccnl-fwd/src/ccnl-fwd.c:273-297 | a new request gets one entry with this packet, its arrival face and only that face waiting, and goes out on every route that fits |
| Outcomes.AskedInVain | src/ccnl-fwd/src/ccnl-fwd.c:273-297 | confined to this host, or new while the table is full: nothing comes to wait |
| Outcomes.AskedForManagement | src/ccnl-fwd/src/ccnl-fwd.c:237-247 | four components of which the first begins with ccnx: not forwarded |
| Outcomes.RemovalOutcome | src/ccnl-core/src/ccnl-relay.c:131-195 | faces, routes and waiters outside the set stay in their order and those in it go; an entry stays exactly if some waiter is outside; `from` is kept unless it is in the set; nothing else changes |
| Outcomes.RemovalMembers | src/ccnl-core/src/ccnl-relay.c:131-195 | the same for a single face, route and entry |
| Outcomes.StruckWaits | src/ccnl-core/src/ccnl-relay.c:146-160 | a waiter stays exactly if it is outside the set |
| Outcomes.RemovalLeaves | src/ccnl-core/src/ccnl-relay.c:131-195 | tables in which every entry has a waiter and nothing names a removed face are left as they were |
| Outcomes.PendingAged | src/ccnl-core/src/ccnl-relay.c:755-772 | an entry lives on exactly if the tick is before `last_used` plus `lifetime` in 32 bits and it was repeated fewer than seven times; it then has one retry more and has been sent once per fitting route |
| Outcomes.StoreAged | src/ccnl-core/src/ccnl-relay.c:736-754 | a content goes exactly if it is not static and 300 seconds have passed, and is marked stale exactly if its freshness is over |
| Outcomes.FacesAged | src/ccnl-core/src/ccnl-relay.c:773-781 | a face goes exactly if it is not static and 30 seconds have passed |
| Outcomes.AgeOutcome | src/ccnl-core/src/ccnl-relay.c:722-782 | a whole tick: contents, pending Interests, then those faces with everything that names them |
| Outcomes.ServeOutcome | src/ccnl-core/src/ccnl-relay.c:604-714 | the data goes once to each face that waits in a matching entry and to no other, in answer to an Interest it matches; matching entries go, the others stay in their order |
| Outcomes.ServedInOrder | src/ccnl-core/src/ccnl-relay.c:672-709 | faces are served entry by entry and in the order of asking, each where it occurs first |
| Outcomes.DataOutcome | src/ccnl-fwd/src/ccnl-fwd.c:57-136 | stored names are ignored; other data is served, and cached exactly if a request for it was pending, pinned exactly if nobody waited in one |
| Outcomes.HandedInOutcome | src/ccnl-core/src/ccnl-relay.c:1010-1022 | data of the application is cached and served; it is pinned if a request in which nobody waited was pending |
| Outcomes.CacheOutcome | src/ccnl-core/src/ccnl-relay.c:553-602 | below the limit a new content goes in front; at it, it takes the place of one that is not static, or comes on top if all are; beyond it, it is refused |
| Outcomes.CachedAlready | src/ccnl-core/src/ccnl-relay.c:564-569 | a stored name is refused |
| Outcomes.LookupFinds | src/ccnl-core/src/ccnl-relay.c:62-76 | the first face that fits is used again and its time renewed |
| Outcomes.LookupMakes | src/ccnl-core/src/ccnl-relay.c:78-129 | else a face with a new id, the peer, the interface asked for or the first of the family, and the flags of that interface; none if no interface fits |
| Outcomes.LookupAgain | src/ccnl-core/src/ccnl-relay.c:48-129 | looked up again through its interface, the same face is found |
| Outcomes.LookupBlind | src/ccnl-core/src/ccnl-relay.c:70-76 | without an interface each lookup of a peer makes one more face |
| Outcomes.RouteAddOutcome | src/ccnl-core/src/ccnl-relay.c:843-879 | the route of a name is pointed elsewhere where it stands, a new one comes last |
| Outcomes.RouteDropOutcome | src/ccnl-core/src/ccnl-relay.c:882-922 | the first route that fits the criteria goes, the others keep their order |
| Tables.FibAddIsUpdate | src/ccnl-core/src/ccnl-relay.c:843-879 | adding a route is a map update: it binds the name, and only that |
| Tables.FibRemIsRemoval | src/ccnl-core/src/ccnl-relay.c:882-922 | removing a route unbinds the name of the first entry that fits the criteria, and only that |
| Tables.NonceTableIsRecent | src/ccnl-core/src/ccnl-relay.c:784-838 | in every reachable state the table is the 256 most recently accepted nonces, newest first and distinct |
| Tables.RefusedIffRecent | src/ccnl-fwd/src/ccnl-fwd.c:213-222 | an Interest is refused as duplicate exactly when its nonce is one of those |
| ContentStore.StoreWasWanted | src/ccnl-fwd/src/ccnl-fwd.c:57-122 | over any run from an empty relay, through eviction, ageing and pinning: each stored content entered at an earlier event, when no content had its name, and was either handed in by the application or matched a pending entry while caching was on |
| ContentStore.ApplyContents | src/ccnl-core/src/ccnl-relay.c:553-602 | no event changes data or time of what is stored; what is new came with the event |
| ContentStore.OverLimitIff | src/ccnl-core/src/ccnl-relay.c:553-602 | adding leaves the store over its limit exactly if it was over it, or was full of static contents and the name is new |
| Scenarios.StoreOverfills | src/ccnl-core/src/ccnl-relay.c:553-602 | a run from an empty relay with room for one content that ends with two: both were asked for by the application, so they are pinned |
| ContentStore.ArrivalAnswersIff | src/ccnl-fwd/src/ccnl-fwd.c:57-122 | arriving Data leaves no matching entry behind exactly when there was none or no content of its name is stored; a stored copy makes the arrival a no-op |
| Scenarios.StaleCopyBlocks | src/ccnl-fwd/src/ccnl-fwd.c:94-100 | a run from an empty relay: a face is answered, the copy goes stale, the face asks for fresh data, and the fresh data is dropped for the sake of the copy while the Interest still waits |
| ContentStore.EvictsOldestIff | src/ccnl-core/src/ccnl-relay.c:553-602 | the eviction scan picks an entry of smallest `last_used` exactly when clock reading 0 occurs among the evictable entries nowhere or only last |
| ContentStore.EvictsFirstOldest | src/ccnl-core/src/ccnl-relay.c:571-588 | which entry the scan picks: of the evictable ones behind the last reading of 0, the first of the oldest; or that one, if none is behind it |
| Scenarios.EvictionCanMiss | src/ccnl-core/src/ccnl-relay.c:571-588 | a run from an empty relay whose clock goes back, after which the content of age 5 is evicted and that of age 0 stays |
| ContentStore.NewestFirstEvictsOldest | src/ccnl-core/src/ccnl-relay.c:571-588 | in a store listed newest first the scan always picks an oldest evictable entry |
| ContentStore.RunEvictsOldest | src/ccnl-core/src/ccnl-relay.c:553-602 | with a clock that does not run backwards every reachable store is newest first, so every eviction takes an oldest evictable entry |
| Names.SharedIsGreatest | src/ccnl-core/src/ccnl-prefix.c:385-436 | the number of shared components is the length of the longest common prefix |
| Names.PrefixCmp | src/ccnl-core/src/ccnl-prefix.c:385-436 | EXACT compares whole names, chunk number and digest included; MATCH and LONGEST return the longest common prefix |
| Names.IPrefixOfC | src/ccnl-core/src/ccnl-prefix.c:438-478 | accepts exactly equal names and name plus digest within the suffix window |
| Names.MatchesIff | src/ccnl-core/src/ccnl-prefix.c:438-478 | exactly which Data answers an Interest: equal names and a window that covers one component more, or the digest named and a window that covers none, with sums in 64 bits |
| Names.WindowOverflows | src/ccnl-core/src/ccnl-prefix.c:438-478 | the greatest maximum shuts out the very data that is named, and the greatest minimum lets it pass |
| Names.SameRequestIff | src/ccnl-core/src/ccnl-interest.c:93-129 | requests are the same exactly if name, suffix window and publisher agree |
| Names.SameKeySameMatches | src/ccnl-core/src/ccnl-interest.c:93-129 | Interests that are the same to the pending table answer to the same Data |
| LinkedList.DList.Add | src/ccnl-core/include/ccnl-relay.h:234-238 | the element is put in front, both directions stay linked |
| LinkedList.DList.Remove | src/ccnl-core/include/ccnl-relay.h:240-244 | one element is unlinked wherever it stands, both directions stay linked, the others keep their order |
| LinkedList.DList.RemoveAll | src/ccnl-core/src/ccnl-relay.c:722-782 | a walk that unlinks while it goes on leaves exactly the elements to keep, in their order |
| Relay.Relay.GetFaceOrCreate | src/ccnl-core/src/ccnl-relay.c:48-129 | finds the first face for interface and peer or makes one on a fitting interface; none if there is none |
| Relay.Relay.RemovePending | src/ccnl-core/src/ccnl-interest.c:173-221 | the face is struck from the list wherever it stands; returns how often |
| Relay.Relay.InterestRemove | src/ccnl-core/src/ccnl-relay.c:349-382 | one entry is taken out and counted |
| Relay.Relay.StripEntry | src/ccnl-core/src/ccnl-relay.c:146-167 | an entry loses the face, and is removed if nobody waits then |
| Relay.Relay.PurgeRoutes | src/ccnl-core/src/ccnl-relay.c:169-178 | all routes to the face go, the others keep their order |
| Relay.Relay.FaceRemove | src/ccnl-core/src/ccnl-relay.c:131-195 | routes, pending lists, `from` fields and the face itself go together |
| Relay.Relay.InterestPropagate | src/ccnl-core/src/ccnl-relay.c:384-463 | sends and retry state as specified |
| Relay.Relay.FibAddEntry | src/ccnl-core/src/ccnl-relay.c:843-879 | replaces the face of an equal name or puts a new route at the end |
| Relay.Relay.FibRemEntry | src/ccnl-core/src/ccnl-relay.c:882-922 | removes the first route that fits; 0 exactly when there is one |
| Relay.Relay.NonceFindOrAppend | src/ccnl-core/src/ccnl-relay.c:784-809 | -1 exactly for a nonce in the table, else put in front and cut to size |
| Relay.Relay.ContentRemove | src/ccnl-core/src/ccnl-relay.c:527-551 | one content is taken out and counted |
| Relay.Relay.ContentAdd2Cache | src/ccnl-core/src/ccnl-relay.c:553-602 | refuses a name that is stored, makes room by eviction, admits while count <= limit |
| Relay.Relay.ServeEntry | src/ccnl-core/src/ccnl-relay.c:672-709 | each waiting face not served yet gets the Data |
| Relay.Relay.ContentServePending | src/ccnl-core/src/ccnl-relay.c:604-714 | leaves exactly the non-matching entries in their order, returns served plus cleared, pins the content if nobody waited |
| Relay.Relay.FwdHandleContent | src/ccnl-fwd/src/ccnl-fwd.c:57-136 | drop of stored names, serving, then caching |
| Relay.Relay.CsAdd | src/ccnl-core/src/ccnl-relay.c:1010-1022 | stores first, then serves; 0 exactly when the name was not stored |
| Relay.Relay.EnterPending | src/ccnl-fwd/src/ccnl-fwd.c:273-297 | joins or opens an entry, refuses a full table, sends on |
| Relay.Relay.FwdHandleInterest | src/ccnl-fwd/src/ccnl-fwd.c:182-298 | duplicate check, store hit (fresh if asked), pending table |
| Relay.Relay.AgeInterest | src/ccnl-core/src/ccnl-relay.c:755-772 | drops after the lifetime or 8 retries, else repeats |
| Relay.Relay.AgeContentTable | src/ccnl-core/src/ccnl-relay.c:736-754 | drops what timed out, marks what is stale |
| Relay.Relay.AgeFaceTable | src/ccnl-core/src/ccnl-relay.c:773-781 | drops every timed-out face while the list is walked, each drop purging the other tables |
| Relay.Relay.DoAgeing | src/ccnl-core/src/ccnl-relay.c:722-782 | contents, then pending Interests, then faces |
| Relay.RemoveOneMore | src/ccnl-core/src/ccnl-relay.c:131-195 | removing faces one after the other amounts to removing them together |
| FragChannel.OnlySentPackets | src/ccnl-core/src/ccnl-frag.c:756-864 | of at most 2^14 + 1 fragments of any packets, under any loss, duplication and reordering, every packet put together was sent |
| FragChannel.OnlySentPacketsEver | src/ccnl-core/src/ccnl-frag.c:756-864 | the same for streams of any length when consecutive arrivals are less than a turn of the counter apart |
| FragBound.SafeIff | src/ccnl-core/src/ccnl-frag.c:756-864 | for every MTU with room for data: all streams a face can send as n fragments are put together into sent packets only, whatever is lost, repeated or reordered, exactly when n <= 2^14 + 1 |
| FragBound.MixedPacket | src/ccnl-core/src/ccnl-frag.c:783-863 | the streams that fail, of every length from 2^14 + 2 on: a sendable packet, others of two fragments each, and the last piece of one of them with the number of its own |
| FragBound.Sendable | src/ccnl-core/src/ccnl-frag.c:374-419 | no packet of those streams is refused by the sender |
| FragChannel.OnlySentForwarded | src/ccnl-fwd/src/ccnl-fwd.c:405-490 | the same for all that the forwarder is given, fragments within fragments taken apart, when no packet sent is itself a fragment |
| Fragment.DeepIsFeed | src/ccnl-fwd/src/ccnl-fwd.c:405-490 | feeding what is handed up to the forwarder again changes nothing as long as none of it is a fragment |
| Fragment.NestedHandedUp | src/ccnl-fwd/src/ccnl-fwd.c:405-490 | a fragment within a fragment is taken apart in turn |
| FragSeries.SeriesDeliveredIff | src/ccnl-core/src/ccnl-frag.c:783-863 | an unbroken series is delivered once and intact from any receiver state exactly when its numbers do not wrap inside the packet; else nothing is delivered |
| FragSeries.AllDeliveredIff | src/ccnl-core/src/ccnl-frag.c:374-419 | of any stream without loss, exactly the packets without a wrap inside arrive, once each and in order |
| Fragment.ParseIff | src/ccnl-fwd/src/ccnl-fwd.c:405-490 | for any bytes: a fragment is recognised exactly if version, type, hop limit, both lengths and the one field are right, and flags, number and data are those |
| Fragment.FrameRoundTrip | src/ccnl-fwd/src/ccnl-fwd.c:405-490 | the forwarder reads back every fragment that can be written |
| Fragment.TrailingBytes | src/ccnl-fwd/src/ccnl-fwd.c:450-478 | bytes behind a written fragment are taken for more of its data |
| Fragment.CutIsExact | src/ccnl-pkt/src/ccnl-pkt-ccntlv.c:589-623 | ceil(len / (mtu - 13)) pieces, which join up to the packet |
| Fragment.CutAt | src/ccnl-pkt/src/ccnl-pkt-ccntlv.c:589-623 | where each piece is cut and which number it bears, over 32-bit wrap-around |
| Fragment.CutFits | src/ccnl-pkt/src/ccnl-pkt-ccntlv.c:589-606 | no piece is empty, each fits the MTU and can be encoded |
| FragFace.SuiteIff | src/ccnl-core/src/ccnl-pkt-util.c:128-194 | a packet is of the CCNx suite exactly if its last leading switch says so, or what follows begins with version 1 and a type up to 3 |
| FragFace.BlockedIff | src/ccnl-pkt/src/ccnl-pkt-ccntlv.c:589-606 | no fragment is made exactly for another suite, or if room and rest both pass 16 bits |
| FragFace.FramesFillMtu | src/ccnl-pkt/src/ccnl-pkt-ccntlv.c:589-606 | every frame fits the MTU, and every frame but the last of a packet fills it |
| FragFace.PushSendsInOrder | src/ccnl-core/src/ccnl-relay.c:264-296 | the push sends, whole and in order, the fragments of exactly the packets ahead of the first that cannot be fragmented, and stops there |
| FragFace.PushPiece | src/ccnl-core/src/ccnl-frag.c:374-419 | pushing goes on where one fragment leaves off |
| FragFace.PushEndsIff | src/ccnl-core/src/ccnl-relay.c:264-296 | the push ends exactly if fragments have room for data or there is nothing to push to begin with |
| FragFace.PushIsRounds | src/ccnl-core/src/ccnl-relay.c:264-296 | the push makes one fragment a round until it is stuck, and leaves the state of that round |
| FragFace.NoRoomNoProgress | src/ccnl-pkt/src/ccnl-pkt-ccntlv.c:579-629 | without room for data a round changes the sequence number and nothing else |
| FragFace.NoRoomAtThirteen | src/ccnl-pkt/src/ccnl-pkt-ccntlv.c:579-629 | at an MTU of 13 no number of rounds ends the push of a CCNx packet |
| FragFace.Face.MkFrag | src/ccnl-pkt/src/ccnl-pkt-ccntlv.c:579-629 | the buffer holds the frame of the next piece; no buffer for data of more than 65535 bytes |
| FragFace.Face.GetNext | src/ccnl-core/src/ccnl-frag.c:374-446 | a fragment and the state after it, or neither |
| FragFace.Face.Reset | src/ccnl-core/src/ccnl-frag.c:96-111 | the packet is loaded from its start |
| FragFace.Face.Dequeue | src/ccnl-core/src/ccnl-relay.c:234-251 | the head of the queue, if any |
| FragFace.Face.Cts | src/ccnl-core/src/ccnl-relay.c:264-296 | the recursion sends what the specification of the push says, in every case in which it ends |
| FragFace.Face.Enqueue | src/ccnl-core/src/ccnl-relay.c:305-346 | refused exactly if an equal packet waits; else queued and pushed |
| FragFace.Face.RxBeginEnd | src/ccnl-core/src/ccnl-frag.c:756-864 | state as specified, counter left unmasked; what is handed up goes to the forwarder again |
| FragFace.Face.Receive | src/ccnl-fwd/src/ccnl-fwd.c:405-490 | frames are parsed, other packets leave the receiver alone; fragments within fragments are taken apart to any depth |
| RdrDecode.RoundTripIff | src/ccnl-pkt/src/ccnl-pkt-localrpc.c:161-293 | a tree comes back from its bytes, all of them used, exactly when its value is below 2^32 bytes; else the reader fails with -3 |
| RdrDecode.DecodesIffWellFormed | src/ccnl-pkt/src/ccnl-pkt-localrpc.c:161-293 | for arbitrary bytes: decoding yields a node exactly when the bytes are well formed, where each node is header plus announced length, lies inside its parent and the children tile the value with nothing left over |
| RdrDecode.ErrorCodes | src/ccnl-pkt/src/ccnl-pkt-localrpc.c:161-293 | what each error code says of the bytes |
| RdrDecode.TreeBack | src/ccnl-pkt/src/ccnl-pkt-localrpc.c:161-293 | the same for a tree in the middle of a buffer |
| RdrDecode.Decode | src/ccnl-pkt/src/ccnl-pkt-localrpc.c:161-293 | the recursive reader and its loop compute the specified result, error codes included |
| Rdr.FlatLenExact | src/ccnl-pkt/src/ccnl-pkt-localrpc.c:484-550 | the length computed is the number of bytes written, and exists exactly for trees that can be written |
| Tlv.FieldLen | src/ccnl-pkt/src/ccnl-pkt-localrpc.c:64-77 | the length of a type or length field is that of what is written for it |
| Rdr.GetFlatLen | src/ccnl-pkt/src/ccnl-pkt-localrpc.c:484-550 | the walk adds exactly the bytes written |
| Rdr.FillTorL | src/ccnl-pkt/src/ccnl-pkt-localrpc.c:553-576 | type or length, filled from its end |
| Rdr.FillTandL | src/ccnl-pkt/src/ccnl-pkt-localrpc.c:578-596 | type, then length |
| Rdr.SerializeFill | src/ccnl-pkt/src/ccnl-pkt-localrpc.c:598-687 | exactly the bytes of the tree, nothing else touched |
| Rdr.Serialize | src/ccnl-pkt/src/ccnl-pkt-localrpc.c:689-708 | length and bytes if the tree can be written and there is room, else an untouched buffer |
| Tlv.ReadVarInt | src/ccnl-pkt/src/ccnl-pkt-ndntlv.c:48-71 | numbers below 2^32 are read back; the 9-byte form is not understood |
| Tlv.ReadNonNeg | src/ccnl-pkt/src/ccnl-pkt-ndntlv.c:73-83 | the big-endian value in 64 bits |
| Tlv.ReadBigEndian | src/ccnl-pkt/src/ccnl-pkt-ndntlv.c:73-83 | reading undoes writing for all 64-bit numbers |
| NdnRoundTrip.InterestRoundTrip | src/ccnl-pkt/src/ccnl-pkt-ndntlv.c:108-338 | `bytes2pkt` of a written Interest yields nonce, lifetime, scope, MustBeFresh and defaults exactly, and the name as far as names survive; for 2^32 bytes and more it fails |
| NdnRoundTrip.DataRoundTrip | src/ccnl-pkt/src/ccnl-pkt-ndntlv.c:108-338 | the same for Data: payload, freshness, final block id |
| NdnRoundTrip.InterestThen | src/ccnl-pkt/src/ccnl-pkt-ndntlv.c:108-338 | an Interest at the start of any bytes is read with all its fields, and what follows as more fields of it |
| NdnRoundTrip.DataThen | src/ccnl-pkt/src/ccnl-pkt-ndntlv.c:108-338 | the same for Data |
| NdnRoundTrip.StrayEnd | src/ccnl-pkt/src/ccnl-pkt-ndntlv.c:157-315 | where no header can be read the packet is accepted exactly if looking for one used up the bytes |
| NdnRoundTrip.StrayHeader | src/ccnl-pkt/src/ccnl-pkt-ndntlv.c:85-105 | a header at the end without its value goes unnoticed exactly if it announces more bytes than it has itself |
| NdnRoundTrip.InterestStray | src/ccnl-pkt/src/ccnl-pkt-ndntlv.c:108-338 | any written Interest followed by any byte below 253 is read as if the byte were not there |
| NdnRoundTrip.DataStray | src/ccnl-pkt/src/ccnl-pkt-ndntlv.c:108-338 | the same for Data |
| NdnRead.PaddedWellIff | src/ccnl-pkt/src/ccnl-pkt-ndntlv.c:416-441 | how many bytes each number takes: 1, 2, 4 or 8 as few as will do, except that numbers from 2^32 to below 2^48 take 7 |
| NdnFields.SuffixesBack | src/ccnl-pkt/src/ccnl-pkt-ndntlv.c:203-228 | minimal and maximal suffix are read, each to its own field |
| NdnFields.FragmentRoundTrip | src/ccnl-pkt/src/ccnl-pkt-ndntlv.c:235-283 | number, flags and piece of a fragment are read back |
| NdnFields.FragFieldsBack | src/ccnl-pkt/src/ccnl-pkt-ndntlv.c:272-283 | a flag once raised stays up |
| NdnFields.NumberBack | src/ccnl-pkt/src/ccnl-pkt-ndntlv.c:232-271 | scope and lifetime are read in 64 bits |
| NdnFields.BlobsBack | src/ccnl-pkt/src/ccnl-pkt-ndntlv.c:229-239 | nonce and payload are read, the last one counts |
| NdnFields.FinalBlockBack | src/ccnl-pkt/src/ccnl-pkt-ndntlv.c:254-264 | a final block below 2^63 is read, a larger one refused |
| NdnFields.FinalBlockSkipped | src/ccnl-pkt/src/ccnl-pkt-ndntlv.c:254-264 | anything but a name component in a final block is passed over |
| NdnFields.FreshnessBack | src/ccnl-pkt/src/ccnl-pkt-ndntlv.c:251-253 | the freshness is read in 64 bits |
| NdnFields.MustBeFreshBack | src/ccnl-pkt/src/ccnl-pkt-ndntlv.c:217-219 | MustBeFresh counts whatever it holds |
| NdnFields.OtherFieldSkipped | src/ccnl-pkt/src/ccnl-pkt-ndntlv.c:305-307 | fields of other types are passed over |
| NdnFields.OthersSkipped | src/ccnl-pkt/src/ccnl-pkt-ndntlv.c:162-268 | so are selectors, parts of a name and metadata of other types |
| NdnFields.SecondNameRefused | src/ccnl-pkt/src/ccnl-pkt-ndntlv.c:162-166 | a second name is refused |
| NdnFields.OtherPacketRefused | src/ccnl-pkt/src/ccnl-pkt-ndntlv.c:132-147 | only Interests, Data and fragments are packets |
| NdnRead.NameSurvivesIff | src/ccnl-pkt/src/ccnl-pkt-ndntlv.c:162-202 | a name comes back with its chunk number exactly when it has at most 64 components as sent and none of its own passes for a chunk number (or a real one overrides it and all are 32-bit) |
| NdnRead.NameBack | src/ccnl-pkt/src/ccnl-pkt-ndntlv.c:162-202 | what is read of any components, empty ones included |
| NdnRead.ReadName | src/ccnl-pkt/src/ccnl-pkt-ndntlv.c:162-202 | the component loop as specified |
| NdnRead.ReadSelectors | src/ccnl-pkt/src/ccnl-pkt-ndntlv.c:203-228 | the selector loop as specified |
| NdnRead.ReadMetaInfo | src/ccnl-pkt/src/ccnl-pkt-ndntlv.c:240-268 | the nested loop as specified, final block inside |
| NdnRead.ReadField | src/ccnl-pkt/src/ccnl-pkt-ndntlv.c:161-307 | the switch as specified |
| NdnRead.Bytes2Pkt | src/ccnl-pkt/src/ccnl-pkt-ndntlv.c:108-338 | the field loop as specified: accepted exactly if nothing is left when no header can be read |
| Ndn.PrependTLval | src/ccnl-pkt/src/ccnl-pkt-ndntlv.c:374-399 | type or length written backwards; fails exactly for lack of room |
| Ndn.PrependTL | src/ccnl-pkt/src/ccnl-pkt-ndntlv.c:401-414 | length, then type in front |
| Ndn.PrependNonNegIntVal | src/ccnl-pkt/src/ccnl-pkt-ndntlv.c:416-441 | digits and padding by the table, which is looked up anew after each padding byte |
| Ndn.PrependNonNegInt | src/ccnl-pkt/src/ccnl-pkt-ndntlv.c:443-457 | number under a head |
| Ndn.PrependIncludedNonNegInt | src/ccnl-pkt/src/ccnl-pkt-ndntlv.c:460-480 | marker and number under a head |
| Ndn.PrependBlob | src/ccnl-pkt/src/ccnl-pkt-ndntlv.c:483-497 | bytes under a head |
| Ndn.PrependName | src/ccnl-pkt/src/ccnl-pkt-ndntlv.c:499-527 | components from the last to the first, chunk number behind them |
| Ndn.PrependInterest | src/ccnl-pkt/src/ccnl-pkt-ndntlv.c:531-581 | exactly the Interest right before the offset; fails exactly for lack of room or scope above 2 |
| Ndn.PrependMetaInfo | src/ccnl-pkt/src/ccnl-pkt-ndntlv.c:630-660 | freshness and final block under one head |
| Ndn.PrependSignature | src/ccnl-pkt/src/ccnl-pkt-ndntlv.c:590-622 | signature fields; a result of 1, not -1, when room runs out at the type |
| Ndn.PrependContent | src/ccnl-pkt/src/ccnl-pkt-ndntlv.c:583-679 | exactly the Data right before the offset; which result for which lack of room |
| CcnbRead.HeaderBack | src/ccnl-pkt/src/ccnl-pkt-ccnb.c:51-75 | `dehead` undoes `mkHeader` for every tag type exactly for numbers below 2^53 |
| CcnbRead.ContentRoundTrip | src/ccnl-pkt/src/ccnl-pkt-ccnb.c:137-309 | a content object comes back and the mutually recursive reader stops exactly at its end, whatever follows |
| CcnbRead.InterestRoundTrip | src/ccnl-pkt/src/ccnl-pkt-ccnb.c:137-309 | an Interest without nonce likewise; with a nonce it is not closed and what follows is read as part of it |
| CcnbRead.NonceEndsIff | src/ccnl-pkt/src/ccnl-pkt-ccnb.c:547-582 | with a nonce it is read to its end and no further exactly when what follows cannot be read as a header: nothing, or no zero first and no byte from 128 on among the first eight |
| CcnbRead.NonceTakesZero | src/ccnl-pkt/src/ccnl-pkt-ccnb.c:547-582 | a zero byte behind it is taken for its end |
| CcnbRead.InterestAlone | src/ccnl-pkt/src/ccnl-pkt-ccnb.c:547-582 | an Interest with a nonce comes back when nothing follows |
| CcnbFields.HuntBack | src/ccnl-pkt/src/ccnl-pkt-ccnb.c:77-118 | whatever a field holds, nested to any depth, the mutually recursive reader stops right behind its closing zero, with the last blob or text on the way as the value |
| CcnbFields.NumbersBack | src/ccnl-pkt/src/ccnl-pkt-ccnb.c:222-254 | AnswerOriginKind and both suffix fields are read from decimal text, each to its own field, and refused beyond 16 and 32 bits |
| CcnbFields.DecimalIff | src/ccnl-pkt/src/ccnl-pkt-ccnb.c:120-135 | text is a number exactly if it has nothing but digits |
| CcnbFields.ScopeBack | src/ccnl-pkt/src/ccnl-pkt-ccnb.c:216-221 | a scope is a digit below 3, any other byte is -1 |
| CcnbFields.LongScopeSkipped | src/ccnl-pkt/src/ccnl-pkt-ccnb.c:216-221 | a scope of more or less than one byte is passed over |
| CcnbFields.NonceBack | src/ccnl-pkt/src/ccnl-pkt-ccnb.c:255-262 | the first nonce counts |
| CcnbFields.PublisherBack | src/ccnl-pkt/src/ccnl-pkt-ccnb.c:263-270 | the first publisher counts |
| CcnbFields.ContentBack | src/ccnl-pkt/src/ccnl-pkt-ccnb.c:198-205 | content is the last blob of its field, and the last such field counts |
| CcnbRead.NameBack | src/ccnl-pkt/src/ccnl-pkt-ccnb.c:174-197 | the components of several names are read one behind the other, 64 at most |
| CcnbFields.UnreadableRefused | src/ccnl-pkt/src/ccnl-pkt-ccnb.c:95-118 | a header of another type, and a blob longer than what is left, are refused |
| CcnbFields.OtherFieldSkipped | src/ccnl-pkt/src/ccnl-pkt-ccnb.c:279-283 | fields with other tags are passed over, whatever they hold |
| CcnbFields.OthersSkipped | src/ccnl-pkt/src/ccnl-pkt-ccnb.c:172-197 | so is what is no tag between the fields, and no component in a name |
| CcnbFields.PacketTag | src/ccnl-pkt/src/ccnl-pkt-ccnb.c:137-171 | what does not begin with a tag is no packet |
| CcnbFields.HeaderLimit | src/ccnl-pkt/src/ccnl-pkt-ccnb.c:51-75 | a header of more than eight bytes is not read |
| CcnbRead.ComponentsBack | src/ccnl-pkt/src/ccnl-pkt-ccnb.c:521-543 | the first 64 components are kept, the rest skipped |
| CcnbRead.ReadHead | src/ccnl-pkt/src/ccnl-pkt-ccnb.c:51-75 | header loop of at most 8 bytes as specified |
| CcnbRead.HuntForEnd | src/ccnl-pkt/src/ccnl-pkt-ccnb.c:77-93 | skips nested fields to the closing zero, last blob kept as specified |
| CcnbRead.ConsumeField | src/ccnl-pkt/src/ccnl-pkt-ccnb.c:95-118 | skips what a header announces as specified |
| CcnbRead.Data2Uint | src/ccnl-pkt/src/ccnl-pkt-ccnb.c:120-135 | decimal number in 64 bits as specified |
| CcnbRead.ReadName | src/ccnl-pkt/src/ccnl-pkt-ccnb.c:174-197 | the component loop as specified |
| CcnbRead.ReadField | src/ccnl-pkt/src/ccnl-pkt-ccnb.c:172-283 | the switch over tags as specified |
| CcnbRead.Bytes2Pkt | src/ccnl-pkt/src/ccnl-pkt-ccnb.c:137-309 | the field loop as specified |
| Ccnb.MkHeader | src/ccnl-pkt/src/ccnl-pkt-ccnb.c:379-401 | built from its end, copied in order; fails exactly if no byte would be left behind it |
| Ccnb.MkComponent | src/ccnl-pkt/src/ccnl-pkt-ccnb.c:497-519 | tag, blob and end |
| Ccnb.MkName | src/ccnl-pkt/src/ccnl-pkt-ccnb.c:521-543 | all components in order |
| Ccnb.FillInterest | src/ccnl-pkt/src/ccnl-pkt-ccnb.c:547-582 | exactly the Interest, or failure for lack of room |
| Ccnb.FillContent | src/ccnl-pkt/src/ccnl-pkt-ccnb.c:584-619 | exactly the object and the position of its data; room is checked without the data |
| TimerLoop.FiresIff | src/ccnl-core/src/ccnl-os-time.c:272-295 | a due timer fires exactly when no timer that fires before it removes it |
| TimerLoop.FiresInOrder | src/ccnl-core/src/ccnl-os-time.c:272-295 | by timeout, ties in the order of setting, each once |
| TimerLoop.AllFire | src/ccnl-core/src/ccnl-os-time.c:272-295 | without removals everything due fires |
| TimerLoop.LeftIsNotDue | src/ccnl-core/src/ccnl-os-time.c:272-295 | nothing left is due; what is left was not due before or was set meanwhile |
| TimerLoop.ToInt32Is | src/ccnl-core/src/ccnl-os-time.c:272-295 | the time to the next timer comes back right exactly if it fits 32 bits with a sign |
| TimerLoop.PerformApart | src/ccnl-core/src/ccnl-os-time.c:135-179 | what callbacks set goes behind everything due |
| Timers.PerformKeeps | src/ccnl-core/src/ccnl-os-time.c:135-179 | whatever callbacks do, the queue stays sorted with ties in the order of setting |
| Timers.AfterIsLater | src/ccnl-core/src/ccnl-os-time.c:153-162 | comparing seconds, then microseconds, is comparing instants |
| TimerLoop.EventQueue.SetTimer | src/ccnl-core/src/ccnl-os-time.c:135-164 | inserted before the first later timer |
| TimerLoop.EventQueue.RemTimer | src/ccnl-core/src/ccnl-os-time.c:166-179 | the timer with the handle is taken out, if pending |
| TimerLoop.EventQueue.RunEvents | src/ccnl-core/src/ccnl-os-time.c:272-295 | terminates although callbacks set and remove timers; who fires, what is left and the (truncated) time to the next |
| RateLimit.RunSpaced | src/ccnl-core/src/ccnl-sched.c:151-258 | over any run of calls each instant is the later of the call and one interval after the one before, although microseconds are never carried |
| RateLimit.GrantsAreEarned | src/ccnl-core/src/ccnl-sched.c:151-258 | over any run there is one grant for each request, and for each report of packets sent after which more is asked for, each with the clock reading of its call, and no other |
| RateLimit.GrantedAtOnceIff | src/ccnl-core/src/ccnl-sched.c:173-202 | such a call is granted at once exactly if it comes no earlier than one interval after the last grant, else by a timer set for that instant |
| RateLimit.QuotIs | src/ccnl-core/src/ccnl-sched.c:180-202 | seconds and microseconds of the interval are split towards zero |
| RateLimit.WindowHolds | src/ccnl-core/src/ccnl-sched.c:151-258 | any window W holds at most W / ipi + 1 of the instants |
| RateLimit.Scheduler.RequestToSend | src/ccnl-core/src/ccnl-sched.c:151-203 | counted and granted at once or by a timer |
| RateLimit.Scheduler.Done | src/ccnl-core/src/ccnl-sched.c:205-258 | granted only while packets remain |
| UriRoundTrip.UriRoundTripIff | src/ccnl-core/src/ccnl-prefix.c:275-305 | any name printed with escaped slashes and read back is the same exactly when it has at most 63 components, the last not empty, no byte is 0x80 or more, and no percent sign has two printed bytes behind it in its component |
| UriRoundTrip.ComponentBackIff | src/ccnl-core/src/ccnl-prefix.c:258-273 | the same for one component |
| UriRoundTrip.PlainSurvives | src/ccnl-core/src/ccnl-prefix.c:258-273 | a component without percent sign comes back exactly if all its bytes are below 0x80 |
| UriRoundTrip.PrefixToStr | src/ccnl-core/src/ccnl-prefix.c:522-589 | the text closed by a zero byte, or failure exactly if it does not fit; a text past 2048 bytes breaks off inside its components, any other is the whole name |
| Uri.UnescapeComponent | src/ccnl-core/src/ccnl-prefix.c:258-273 | two pointers in one buffer compute the unescaped bytes and touch nothing else |
| Uri.UriToComponents | src/ccnl-core/src/ccnl-prefix.c:275-305 | cutting in place yields the components, each where its pointer says and closed by a zero byte |
| Relay.Relay.OfferTo | src/ccnl-core/src/ccnl-relay.c:612-710 | one entry: served and removed if it matches, removed and the content pinned if nobody waits, else kept |
| Relay.Relay.StripTable | src/ccnl-core/src/ccnl-relay.c:146-167 | every entry loses the face, those left without waiting faces go and are counted |
| Relay.Relay.IsStored | src/ccnl-core/src/ccnl-relay.c:564-569 | true exactly if a stored content has the name |
| Relay.Relay.AgeFace | src/ccnl-core/src/ccnl-relay.c:773-781 | a timed-out face goes with everything that names it |
| Relay.Relay.AgeContent | src/ccnl-core/src/ccnl-relay.c:736-754 | dropped, marked stale or kept |
| Relay.Relay.AgePendingTable | src/ccnl-core/src/ccnl-relay.c:755-772 | what is left, and every repeat, in order |
| Names.Shared | src/ccnl-core/src/ccnl-prefix.c:385-436 | a common prefix that cannot be longer |
| RelayState.FaceAt | src/ccnl-core/src/ccnl-relay.c:62-76 | the first face that fits |
| RelayState.PickIface | src/ccnl-core/src/ccnl-relay.c:78-89 | the interface given, or the first of the family of the peer |
| RelayState.RouteAt | src/ccnl-core/src/ccnl-relay.c:854-860 | the first route of that name |
| RelayState.SelectedAt | src/ccnl-core/src/ccnl-relay.c:898-913 | the first route that fits both criteria |
| RelayState.SameAt | src/ccnl-fwd/src/ccnl-fwd.c:273-276 | the first entry for the same request |
| RelayState.HitAt | src/ccnl-fwd/src/ccnl-fwd.c:252-271 | the first content that answers |
| RelayState.EvictScan | src/ccnl-core/src/ccnl-relay.c:574-583 | what is picked is evictable; nothing is picked exactly if nothing is |
| Timers.LaterBy | src/ccnl-core/src/ccnl-os-time.c:146-149 | normalised, and later by exactly that much |
| FragFace.Face.PutHeader | src/ccnl-pkt/src/ccnl-pkt-ccntlv.c:606-626 | every field of the header in its place and byte order |
| FragFace.Face.Advance | src/ccnl-core/src/ccnl-relay.c:276-286 | the next fragment, of the current packet or of the next in the queue |
| FragSeries.TakeStep | src/ccnl-core/src/ccnl-frag.c:783-850 | one fragment more extends what is held, hands it up or, after a wrap, loses it |
| FragSeries.AfterPieces | src/ccnl-core/src/ccnl-frag.c:783-850 | state and hand-over after every prefix of a series |
| FragChannel.SentOrigins | src/ccnl-pkt/src/ccnl-pkt-ccntlv.c:589-623 | where every fragment of a stream comes from |
| FragChannel.Arrived | src/ccnl-core/src/ccnl-frag.c:756-864 | what the receiver holds after any arrivals is the beginning of one packet that was sent |
| Rdr.GetFlatLens | src/ccnl-pkt/src/ccnl-pkt-localrpc.c:538-544 | the loop over the children adds exactly their bytes |
| Rdr.FillNode | src/ccnl-pkt/src/ccnl-pkt-localrpc.c:645-686 | header, operand, children |
| Rdr.FillAll | src/ccnl-pkt/src/ccnl-pkt-localrpc.c:680-685 | the children one behind the other |
| RdrDecode.Sound | src/ccnl-pkt/src/ccnl-pkt-localrpc.c:161-293 | what is decoded is well formed |
| RdrDecode.Complete | src/ccnl-pkt/src/ccnl-pkt-localrpc.c:161-293 | what is well formed is decoded, and as nothing else |
| RdrDecode.HeaderBack | src/ccnl-pkt/src/ccnl-pkt-localrpc.c:103-135 | a written header is understood exactly below 2^32 bytes |
| Ndn.PrependGuiders | src/ccnl-pkt/src/ccnl-pkt-ndntlv.c:537-552 | scope and lifetime where present |
| Ndn.PrependSelectors | src/ccnl-pkt/src/ccnl-pkt-ndntlv.c:558-568 | MustBeFresh under its head where asked for |
| NdnRead.NonNegBack | src/ccnl-pkt/src/ccnl-pkt-ndntlv.c:73-83 | every padded number is read back, all 64-bit values included |
| CcnbRead.BlobBack | src/ccnl-pkt/src/ccnl-pkt-ccnb.c:77-118 | a blob is found at its place and the reader stops behind the end of its field |
| TimerLoop.FireStep | src/ccnl-core/src/ccnl-os-time.c:283-291 | while a callback runs its timer stays at the head of the queue |
| RateLimit.Scheduler.Proceed | src/ccnl-core/src/ccnl-sched.c:180-202 | grant and next instant as specified |
| UriRoundTrip.PercentLost | src/ccnl-core/src/ccnl-prefix.c:258-273 | a percent sign with two printed bytes behind it never comes back |
| UriRoundTrip.PrintableOnly | src/ccnl-core/src/ccnl-prefix.c:545-560 | only printable characters are ever printed |
| UriRoundTrip.PrintableStays | src/ccnl-core/src/ccnl-prefix.c:545-560 | and those are printed as they are |
| UriRoundTrip.EscapeRead | src/ccnl-core/src/ccnl-prefix.c:240-273 | two hexadecimal digits of either case behind a percent sign are read as the byte they write |
| UriRoundTrip.HighLost | src/ccnl-core/src/ccnl-prefix.c:522-589 | a component that starts with a byte from 0x80 on never comes back |
| UriRoundTrip.ShownFits | src/ccnl-core/src/ccnl-prefix.c:522-589 | names of at most 2048 bytes of text are printed whole, of others more than that is printed |
| Uri.CutString | src/ccnl-core/src/ccnl-prefix.c:284-293 | a zero byte at the first slash makes two strings |

## Left out

- Sockets, the select loop, management, cryptography, dump, HTTP status, RIOT, Android and the Linux kernel: I/O, platform and message building.
- Taps, echo, RONR, user cache strategies, application callbacks and local producers: compiled out or supplied by the application.
- The relay's use of the ccnb and CCNx TLV suites: the relay model has one suite, so routes are keyed by name alone; the ccnb codec and the CCNx fragment format have modules of their own.
- Management's direct insertions into pending and forwarding tables, which bypass the checks for uniqueness.
- Allocation failure, wrap-around of face ids and of size computations: memory is taken to suffice.
- `served_cnt`, the per-face `last_used` of pending faces and the send queue of faces that do not fragment: written or emptied at once and never read by what is modelled.
- The SERVED flag of faces is a set of face ids; lists of the relay are sequences, their splicing on the heap is proved once in `LinkedList`.
- Fragment.Parse: the hop limit is not written back into the datagram.
- FragFace.Face.Cts: required to end, which `PushEndsIff` says exactly when; interface queues, destinations and the offset's 32-bit wrap are not modelled.
- FragFace.Face.Enqueue: required to end in the same way, unless an equal packet waits already.
- The NDN fragment writer, sequenced and 2012/2013 fragmentation and the CCNx content and Interest writers: their length handling is out of order or they are obsolete.
- NdnRead.Bytes2Pkt: a field longer than what is left is rejected; the source wraps its count of bytes left around and reads on behind the buffer.
- CcnbRead.ReadName: a component without a blob is rejected; the source leaves place and length of such a component uninitialised.
- Reads past the end of a buffer, which some readers make when a length exceeds what is left or a value is missing, are modelled as rejection.
- RdrDecode.GetType: a second call on a node that failed to decode, which returns its type, is not modelled; nor are trees that mix decoded and built nodes.
- Rdr.FlatLen: the length accumulators, which the source leaves uninitialised, are taken to start at 0.
- Ndn.PrependContent: the position of the content, computed before the signature fields are written, is not modelled; the signature type is the digest one.
- Ccnb.FillContent: the caller is required to leave room for the data behind the end that is checked.
- TimerLoop.EventQueue.RunEvents: callbacks that remove the timer they are called for (a double free) are excluded, handles are never reused, and callbacks set no timer for before the instant of the drain, which would take a clock that runs backwards.
- Absolute timers, the dummy scheduler mode and chemflow: no rate to speak of.
