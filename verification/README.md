# libevent core: a verified model

This project models the data structures and state machines at the core of libevent 2.1.8 in Dafny and proves
what they are for. `dafny verify dfyconfig.toml` checks all of it.

* **evbuffer** (`Chain`, `ChainList`, `Evbuffer*`): a byte queue kept as a list of chains, with `total_len`,
  `last` and the indirect pointer `last_with_datap`. Each operation is proved to do to the chains what its
  plain definition does to a byte sequence; `EvbufferRun` proves it for whole runs over two buffers, with what the
  callbacks are told.
* **fd map, changelist and epoll table** (`Evmap*`): reference counts per descriptor, coalesced changes and the
  one system call each of them becomes. `EvmapRun` proves that the kernel sees the same interest sets with the
  changelist and without it; `EvmapReinit` covers starting over with an empty kernel object.
* **event base** (`Event*`): flags, active and later queues, timer heap, common-timeout queues, counters and
  finalization. `EventRun` proves the whole invariant in every reachable state; `EventDue` proves that a timeout fires
  at the first chance at or after its deadline and never before; `EventWatch` joins the base to the
  fd map and proves that every dispatch shows the kernel what the INSERTED events want.
* **DNS names** (`DnsName`, `DnsLabels`): writing with a compression table against reading with pointer jumps
  (section 4.1.4 of RFC 1035), and what exactly compression writes (`DnsCompress`).
* **rate limiting** (`TokenBucket`, `RateLimit*`): the overflow-safe token bucket and the suspension flags.
* **tagged wire format** (`TagCodec`, `Tagging*`) and **arc4random** (`Arc4`).

How the source's state is represented:

* A chain is a value with an identity (`Addr`), and a buffer's linked list is the sequence of its chains; a
  pointer to a link (`last_with_datap`) is `First` or `Next(addr)`, so that it can dangle or point at the wrong
  chain, and the invariant says that it does not.
* The timer heap is a set from which the earliest deadline is taken; the order of events with equal deadlines is
  left open. Times are integers of microseconds together with the number of the common queue they name.
* The kernel is a map from descriptors to masks that refuses what `epoll_ctl` refuses. Clocks, socket input,
  random words and the answer of the fd map to an addition are parameters.
* Methods on `Evbuffer` that allocate take a ghost set of addresses used elsewhere, so that new chains are new.

Where the code and its comments differ, the code is followed: integers in the tag format are stored least
significant nibble first although a comment speaks of big-endian order.

Some properties fail for some inputs. Each has a lemma or a call that shows it, and the exact condition:

* The token bucket update is exact for a limit above its maximum just when the refill is large enough
  (`RefilledExactly`, `RefundOverflows`), and keeps such a limit positive just when it is `Steady`
  (`SteadyStaysPositive`, `RefundWraps`).
* After a configuration with longer ticks, `last_updated` is in the old, shorter ones and can lie in the future. A
  refill counts just when its tick is less than 2^31 ahead of it (`RefillCounts`, `ReconfigurationStalls`);
  `RefillsEnd` and `FreedAfter` say when a suspension ends in either case.
* `evbuffer_prepend_buffer` keeps a buffer free of gaps just when the moved list ends in a chain with data
  (`PrependBuffer`), and `evbuffer_remove_buffer` leaves both buffers well formed just when the call is `Removable`
  (`RemoveBuffer`, `GapDoesHarm`). Otherwise bytes can come out in another order than they went in (`GapReorders`).
* `evbuffer_prepend` that fails leaves the bytes that fitted the first gap counted but not told, so that the callback
  counters are not 0 between calls just then (`Prepend`).
* A direction that is in credit can stay suspended for bandwidth just after a call of `bufferevent_get_rlim_max_`
  (`RateLimitRuns.Run`, `RlimMaxLags`).
* Seeds of the key schedule that differ within two successive bytes always give different states; three bytes may not
  (`TwoBytesShow`, `ThreeBytesMayNot`).
* An event that is INSERTED is listed in a map just when its descriptor is not negative, and `event_count` is the
  number of memberships just when that is so of all of them (`CountIsMemberships`, `InsertedButNotListed`).
* `dnsname_to_labels` stays within `buf_len` but for the one case in `PastTheEnd` (`OnePastTheEnd`).
* A record is consumed or unmarshalled as one just when its payload length fits an int (`Consume`, `Unmarshal`).

## Model

| member | source | states |
|---|---|---|
| `Chains.NewChain` | libevent-2.1.8-stable/buffer.c:155-192 | succeeds just for sizes up to EVBUFFER_CHAIN_MAX less the header; the block is empty, at least as large as asked, and its address differs from every one in use |
| `ChainLists.InsertGood` | libevent-2.1.8-stable/buffer.c:307-326 | a chain put at the end in place of the trailing empty ones: the bytes grow by its data, and `last`, `last_with_datap` and `total_len` agree with the new list |
| `ChainLists.DropGood` | libevent-2.1.8-stable/buffer.c:1118-1152 | dropping whole chains and then a part of one leaves a well-formed list that spells the suffix of the bytes |
| `ChainLists.JoinGood` | libevent-2.1.8-stable/buffer.c:883-900 | APPEND_CHAIN: the bytes of two lists are joined and the second list's `last_with_datap` stays right in the joined list |
| `ChainLists.FrontGood` | libevent-2.1.8-stable/buffer.c:942-958 | PREPEND_CHAIN: the same in front; the list has no gap just when the front list ends in a chain with data |
| `ChainLists.PullGood` | libevent-2.1.8-stable/buffer.c:1395-1447 | gathering a prefix into one chain keeps all bytes, and `last_with_datap` is right whether its chain, its owning link or neither was freed |
| `Evbuffers.Evbuffer.RunCallbacks` | libevent-2.1.8-stable/buffer.c:454-510 | callbacks that are not deferred hear of a call while it runs, deferred ones when they are run; the report's old size is the length when the counters were last cleared; reports chain; the counters are cleared just when they should be |
| `Evbuffers.Evbuffer.RunDeferred` | libevent-2.1.8-stable/buffer.c:533-548 | the deferred callbacks get one report of all that is counted, and the counters are cleared; nothing happens where none are deferred |
| `Evbuffers.Evbuffer.FreeTrailingEmptyChains` | libevent-2.1.8-stable/buffer.c:289-302 | exactly the chains after the last one with data go, and the link returned is the one to the end |
| `Evbuffers.Evbuffer.ChainInsert` | libevent-2.1.8-stable/buffer.c:307-326 | the full list invariant is kept, the bytes grow by the chain's data, and no gap appears |
| `Evbuffers.Evbuffer.Add` | libevent-2.1.8-stable/buffer.c:1722-1817 | fails exactly when frozen, when the length would exceed the size type or when the request is over the chain limit; otherwise the bytes are the old ones and then the data, wherever the split between chains falls, and the callbacks are told of a success |
| `Evbuffers.Evbuffer.Prepend` | libevent-2.1.8-stable/buffer.c:1819-1899 | succeeds exactly when not frozen, within the size type, and what does not fit the first gap fits one chain; then the bytes are the data and then the old ones; a failure leaves the old bytes, or behind exactly the suffix that fitted the gap, which is then counted but not told |
| `Evbuffers.Evbuffer.FillGap` | libevent-2.1.8-stable/buffer.c:1843-1874 | exactly as many bytes of the end of the data as the first gap holds go in front; the rest is what remains to be prepended |
| `Evbuffers.Evbuffer.PrependNew` | libevent-2.1.8-stable/buffer.c:1876-1891 | what does not fit goes to a new first chain, and `last_with_datap` moves only if it was the link to the first chain |
| `Evbuffers.Evbuffer.Drain` | libevent-2.1.8-stable/buffer.c:1095-1161 | drops exactly min(len, length) bytes from the front, tells the callbacks of them, fails only for a frozen non-empty buffer |
| `EvbufferPtrs.CopyoutFrom` | libevent-2.1.8-stable/buffer.c:1184-1249 | returns exactly the bytes from the pointer on, cut at the end of the buffer, or an error in the stated cases |
| `EvbufferPtrs.Remove` | libevent-2.1.8-stable/buffer.c:1164-1176 | the bytes handed out followed by those that remain are what the buffer held, and they are as many as asked or as there are; the return value is their number as the int it is returned as, or the error of a frozen buffer |
| `EvbufferPtrs.SetPtr` | libevent-2.1.8-stable/buffer.c:2609-2659 | the pointer's chain and in-chain offset agree with its position; positions past the end are refused |
| `EvbufferSearch.PtrMemcmp` | libevent-2.1.8-stable/buffer.c:2665-2699 | equal exactly when the needle stands at the position of the flattened bytes, across chain boundaries |
| `EvbufferSearch.SearchRange` | libevent-2.1.8-stable/buffer.c:2707-2769 | the least match at or after the start that ends by the end, as naive search on the flattened bytes; not found only when there is none |
| `EvbufferSearch.FindEolChar` | libevent-2.1.8-stable/buffer.c:1488-1513 | the first CR or LF, found in stretches of 128 bytes |
| `EvbufferSearch.Scan` | libevent-2.1.8-stable/buffer.c:1466-1486 | the first stopping byte at or after a cursor, with a correct pointer to it, across chains |
| `EvbufferSearch.SpanEol` | libevent-2.1.8-stable/buffer.c:1537-1574 | the length of the maximal run of CR and LF from a cursor on |
| `EvbufferSearch.SearchEol` | libevent-2.1.8-stable/buffer.c:1589-1677 | finds the line end that the style defines, with a correct pointer and terminator length, or proves there is none |
| `EvbufferSearch.EolUnique` | libevent-2.1.8-stable/buffer.c:1589-1677 | a style defines at most one line end from a given start, so the line returned is the shortest |
| `EvbufferSearch.NoEolMeansNone` | libevent-2.1.8-stable/buffer.c:1589-1677 | the not-found condition holds just when no position and length is a line end |
| `EvbufferSearch.Readln` | libevent-2.1.8-stable/buffer.c:1679-1716 | line, terminator and rest make up the old content, and the callbacks hear first of the line and then of the terminator, or nothing changed and there is no line end or the buffer is frozen |
| `EvbufferMoves.AppendChain` | libevent-2.1.8-stable/buffer.c:883-900 | dst's bytes are followed by src's; no gap appears between gap-free lists |
| `EvbufferMoves.PrependChain` | libevent-2.1.8-stable/buffer.c:942-958 | src's bytes go in front; a gap appears just when src ends in an empty chain |
| `EvbufferMoves.AddBuffer` | libevent-2.1.8-stable/buffer.c:960-1004 | all bytes of inbuf move to the end of outbuf, or nothing changes; both keep their invariant and accounting |
| `EvbufferMoves.PrependBuffer` | libevent-2.1.8-stable/buffer.c:1049-1093 | all bytes of inbuf move to the front of outbuf; the result is gap-free exactly when inbuf's last chain holds data or one side was empty |
| `EvbufferRemoves.AdvanceLastWithData` | libevent-2.1.8-stable/buffer.c:702-716 | walks to the last of the consecutive chains with data |
| `EvbufferRemoves.AdvancedIsLast` | libevent-2.1.8-stable/buffer.c:702-716 | it finds the last chain with data exactly when no empty chain past its start stands before one with data |
| `EvbufferRemoves.SkipWholeChains` | libevent-2.1.8-stable/buffer.c:1287-1299 | skips exactly the chains that fit; the source's assertion that none of them is the last one with data holds |
| `EvbufferRemoves.TakeChains` | libevent-2.1.8-stable/buffer.c:1301-1318 | relinking any run of chains: the bytes are appended, and the list is well formed again exactly when the run has no gap |
| `EvbufferRemoves.Relink` | libevent-2.1.8-stable/buffer.c:1287-1318 | for any source, both buffers come out of the relinking with a right last_with_datap exactly when the move is Movable, a condition on the chains before the call |
| `EvbufferRemoves.GapFreeMovable` | libevent-2.1.8-stable/buffer.c:1254-1342 | a buffer without gaps can be moved from, whatever the length and the destination |
| `EvbufferRemoves.AddLoose` | libevent-2.1.8-stable/buffer.c:1722-1817 | evbuffer_add on a list whose last_with_datap names too early a chain: the bytes land in the middle of the content, or an assertion of the source fails |
| `EvbufferRemoves.GapDoesHarm` | libevent-2.1.8-stable/buffer.c:1254-1342 | a buffer reached from new ones by insertions and evbuffer_prepend_buffer, and a length, for which the whole call, its assertions holding, leaves the destination with a wrong last_with_datap |
| `EvbufferRemoves.GapReorders` | libevent-2.1.8-stable/buffer.c:1254-1342 | what that costs: a byte added to the destination afterwards is read before one that was there already |
| `EvbufferRemoves.RemovePart` | libevent-2.1.8-stable/buffer.c:1287-1336 | moves whole chains and copies part of one, for any source: the assertions hold and both buffers come out well formed exactly when the move is Movable, and then src keeps the suffix and dst gains the prefix |
| `EvbufferRemoves.RemoveBuffer` | libevent-2.1.8-stable/buffer.c:1254-1342 | the assertions hold and both buffers come out well formed exactly when the call is Removable, a condition on the buffers before it; then exactly the first min(n, length) bytes of src move to the end of dst in order; the int returned and the failure cases are exact for every call |
| `EvbufferGrow.Pullup` | libevent-2.1.8-stable/buffer.c:1344-1454 | the byte sequence never changes; on success the first chain holds the wanted prefix; failure only for impossible sizes |
| `EvbufferGrow.Gather` | libevent-2.1.8-stable/buffer.c:1366-1447 | the copying part of pullup keeps bytes, order, `last` and `last_with_datap` |
| `EvbufferGrow.ExpandSinglechain` | libevent-2.1.8-stable/buffer.c:1927-2035 | content unchanged; on success the returned chain has the room and is where the next bytes go |
| `EvbufferGrow.Resize` | libevent-2.1.8-stable/buffer.c:1999-2024 | the last chain with data is replaced by a larger one with the same data |
| `EvbufferRead.CountRoom` | libevent-2.1.8-stable/buffer.c:2060-2085 | counts the space that up to n chains offer, realigning empty chains, without changing content |
| `EvbufferRead.ExpandFast` | libevent-2.1.8-stable/buffer.c:2039-2147 | content unchanged; on success at most n chains from the first with space offer the bytes asked for |
| `EvbufferRead.ReadSetupVecs` | libevent-2.1.8-stable/buffer.c:2213-2247 | after a successful expansion it never runs off the list and the vectors offer at least the bytes asked for, exactly those when exact |
| `EvbufferRead.CommitLoop` | libevent-2.1.8-stable/buffer.c:2366-2391 | counting filled space as data appends exactly the bytes that arrived, in order |
| `EvbufferRead.Receive` | libevent-2.1.8-stable/buffer.c:2306-2391 | set-up, kernel read and commit together append exactly the received bytes and restore the invariant |
| `EvbufferRead.Read` | libevent-2.1.8-stable/buffer.c:2270-2399 | appends exactly what the kernel delivered; frozen buffers and errors change nothing |
| `EvbufferRead.ReadLimit` | libevent-2.1.8-stable/buffer.c:2291-2295 | never more than is asked for or the socket has, and no less than the smaller of these and 4096 bytes |
| `Evbuffers.Evbuffer.Freeze` | libevent-2.1.8-stable/buffer.c:3381-3402 | freezing and unfreezing an end changes that flag and nothing else |
| `EvbufferRuns.PerformAlone` | libevent-2.1.8-stable/buffer.c:1095-3402 | a call on one buffer does to its chains what its plain definition does to a queue of bytes, and keeps the invariant |
| `EvbufferRuns.Perform` | libevent-2.1.8-stable/buffer.c:870-3402 | every operation, those on two buffers included, does to the chains what its plain definition does to the queues, and keeps the invariant of both buffers |
| `EvbufferRuns.Run` | libevent-2.1.8-stable/buffer.c:289-3402 | every run of calls on two buffers from new ones, whatever the calls: at the end the chains stand for the queues that the calls made describe, and the bytes handed out and what the callbacks were told are those of the plain definition; a call is left out only when its sizes do not fit or its move is not Removable, and none is in a run that never moves out of a buffer that may have a gap |
| `EvbufferRuns.EveryChangeIsTold` | libevent-2.1.8-stable/buffer.c:454-510 | over every run, callbacks that are not deferred have heard of every call that changed the length, with the length before it and the bytes that went in or out, of a line and its terminator separately, and of nothing else; both counters are 0 |
| `EvbufferRuns.CountedForLater` | libevent-2.1.8-stable/buffer.c:454-548 | with deferred callbacks every call adds to the counters just what the length of the buffer changed by, and the deferred run reports just what they count |
| `EvbufferRuns.LateTellsAll` | libevent-2.1.8-stable/buffer.c:454-548 | over every run what the deferred callbacks were told, with what is counted for them, is all that went in and all that was taken out |
| `EvbufferRuns.FirstInFirstOut` | libevent-2.1.8-stable/buffer.c:960-1342 | over every run that writes one buffer, moves to the other and reads that one, output, second and first buffer together are the input in order |
| `Evmap.TableIsRight` | libevent-2.1.8-stable/epolltable-internal.h:30-130 | for every old mask and every change evmap can produce, the row is one call the kernel accepts and leaves exactly the new mask |
| `Evmap.Base.GetOrConstruct` | libevent-2.1.8-stable/evmap.c:823-852 | an entry per descriptor, located by `idxplus1`; a new one changes nothing |
| `Evmap.Base.ChangelistAdd` | libevent-2.1.8-stable/evmap.c:854-887 | the mask the descriptor will have gains the events; other descriptors are not affected |
| `Evmap.Base.ChangelistDel` | libevent-2.1.8-stable/evmap.c:889-939 | the mask the descriptor will have loses the events, cancelling an unapplied add |
| `Evmap.Base.ApplyOneChange` | libevent-2.1.8-stable/epoll.c:266-353 | one accepted system call takes the kernel from the old mask to the new one |
| `Evmap.Base.NochangelistAdd` | libevent-2.1.8-stable/epoll.c:374-393 | the kernel mask gains the events at once |
| `Evmap.Base.NochangelistDel` | libevent-2.1.8-stable/epoll.c:395-411 | the kernel mask loses the events at once |
| `Evmap.Base.IoAdd` | libevent-2.1.8-stable/evmap.c:262-342 | the counters count the listed events; the backend hears only of kinds that nobody wanted before; the 65535 limit and the return value are exact |
| `Evmap.Base.IoDel` | libevent-2.1.8-stable/evmap.c:344-409 | the same for deletion: the backend hears only of kinds that nobody wants any more |
| `Evmap.AddedResult` | libevent-2.1.8-stable/evmap.c:262-342 | the result is -1 exactly when a counter of a kind that the event wants is full, and otherwise 1 exactly when some kind is wanted that was not wanted before |
| `Evmap.RemovedResult` | libevent-2.1.8-stable/evmap.c:344-409 | the result is 1 exactly when some kind is no longer wanted |
| `Evmap.MinusPositive` | libevent-2.1.8-stable/evmap.c:378-392 | the counters of an inserted event's kinds are positive, so the source's assertions hold |
| `Evmap.Base.ApplyChanges` | libevent-2.1.8-stable/epoll.c:355-372 | after the loop each entry's descriptor has the mask the entry calls for, the others what they had |
| `Evmap.Base.RemoveAll` | libevent-2.1.8-stable/evmap.c:764-786 | every entry is forgotten and every `idxplus1` cleared, nothing else changes |
| `Evmap.Base.Dispatch` | libevent-2.1.8-stable/epoll.c:457-458 | the kernel interest set equals the masks of the non-zero counters |
| `Evmap.Settled` | libevent-2.1.8-stable/evmap.c:741-786 | applying and dropping all entries makes the kernel agree with every counter |
| `EvmapRun.Run` | libevent-2.1.8-stable/evmap.c:262-939 | for every sequence of additions, deletions and dispatches, with the changelist or without, the kernel shows at each dispatch the interest set of the registered events; so both forms agree |
| `EvmapReinit.Reinit` | libevent-2.1.8-stable/evmap.c:592-653 | a new, empty kernel object is told about every wanted event again and the invariant holds |
| `EvmapReinit.ReinitAndDispatch` | libevent-2.1.8-stable/event.c:938-1043 | after the next dispatch the new kernel object has exactly the wanted events |
| `EventBases.Base.InsertInserted` | libevent-2.1.8-stable/event.c:3309-3323 | sets the flag and counts it; the map gains the event exactly when its descriptor is not negative |
| `EventBases.Base.RemoveInserted` | libevent-2.1.8-stable/event.c:3172-3183 | clears the flag, counts it off, and the map no longer lists the event |
| `EventBases.Base.InsertActive` | libevent-2.1.8-stable/event.c:3325-3344 | appends to the queue of the priority once, with flag and both counters |
| `EventBases.Base.RemoveActive` | libevent-2.1.8-stable/event.c:3184-3199 | takes the callback off its queue, with flag and both counters |
| `EventBases.Base.InsertLater` | libevent-2.1.8-stable/event.c:3346-3361 | appends to the later queue unless already active or deferred; the two flags stay exclusive |
| `EventBases.Base.RemoveLater` | libevent-2.1.8-stable/event.c:3200-3214 | takes the callback off the later queue, with flag and counters |
| `EventBases.InsertInorder` | libevent-2.1.8-stable/event.c:3278-3307 | behind every event due no later and before every one due later: sorted, first in first out among equals |
| `EventBases.Base.InsertTimeout` | libevent-2.1.8-stable/event.c:3363-3385 | joins the heap or, in order, the common queue its timeout names |
| `EventBases.Base.RemoveTimeout` | libevent-2.1.8-stable/event.c:3215-3235 | leaves the structure its timeout names, which stays sorted |
| `EventBases.Base.Promote` | libevent-2.1.8-stable/event.c:3387-3400 | moving a deferred callback to its active queue needs no change of the counters |
| `EventBases.Base.DelNolock` | libevent-2.1.8-stable/event.c:2755-2844 | a finalizing event is left alone; any other, or any with EVEN_IF_FINALIZING, leaves every structure and nothing else moves |
| `EventBases.Base.CallbackActivate` | libevent-2.1.8-stable/event.c:2951-2979 | new state, queue position and return value in all four cases |
| `EventBases.Base.ActiveNolock` | libevent-2.1.8-stable/event.c:2864-2913 | reasons accumulate for an active or deferred event and replace otherwise; a finalizing event is left alone |
| `EventBases.Base.TimeoutProcess` | libevent-2.1.8-stable/event.c:3124-3149 | terminates; activates exactly the heap events whose deadline has passed, in deadline order behind what the queues held, and leaves every other event and structure untouched |
| `EventBases.Base.NewEvent` | libevent-2.1.8-stable/event.c:2064-2111 | a new event is idle, known, and has the middle priority; a bare callback the last |
| `EventBases.Base.NewCommonTimeout` | libevent-2.1.8-stable/event.c:1472-1506 | a new empty queue with its own internal timer, unless 256 are in use |
| `EventAdds.AddTimeout` | libevent-2.1.8-stable/event.c:2613-2686 | the event waits for the new deadline and nothing else, and leaves the active queue if it was there for a timeout |
| `EventAdds.AddNolock` | libevent-2.1.8-stable/event.c:2542-2716 | succeeds exactly when the event is not finalizing and the map accepts it, if it has a descriptor; a failure changes no state; a new head of a common queue sets the queue's timer to its deadline |
| `EventAdds.CommonTimeoutSchedule` | libevent-2.1.8-stable/event.c:1403-1413 | the timer waits for the head's deadline |
| `EventAdds.AddedState` | libevent-2.1.8-stable/event.c:2597-2676 | an added event is INSERTED unless its callback is about to run anyway, and waits until the time now plus the delay |
| `EventTimers.Add` | libevent-2.1.8-stable/event.c:2433-2450 | the whole invariant, timers included, is kept, and the event is due at now plus the delay, in the queue its timeout names |
| `EventTimers.Del` | libevent-2.1.8-stable/event.c:2718-2753 | the whole invariant is kept: removing a head leaves the timer early enough for the next one |
| `EventTimers.TimeoutTick` | libevent-2.1.8-stable/event.c:3124-3149 | after timeout_process a common queue with an expired head has its timer active |
| `EventTimers.ExpiredIsActive` | libevent-2.1.8-stable/event.c:1415-1439 | no expired common-timeout event is forgotten: with no expired event in the heap its queue's timer is active or running |
| `EventTimers.TakeNext` | libevent-2.1.8-stable/event.c:1599-1631 | the first callback leaves its queue; a persistent or finalizing event only that, any other everything |
| `EventTimers.CommonTimeoutCallback` | libevent-2.1.8-stable/event.c:1415-1439 | fires exactly the expired prefix of the queue, in order, and sets the timer for the new head; nothing else changes |
| `EventCallbacks.Activate` | libevent-2.1.8-stable/event.c:2846-2913 | event_active keeps the whole invariant |
| `EventCallbacks.ActivateLater` | libevent-2.1.8-stable/event.c:2915-2938 | defers once; an active or deferred event only collects reasons |
| `EventCallbacks.Cancel` | libevent-2.1.8-stable/event.c:3013-3041 | leaves the callback idle unless it is finalizing, and keeps the whole invariant |
| `EventCallbacks.FinalizeEvent` | libevent-2.1.8-stable/event.c:2196-2208 | the event waits for nothing, is active once for its finalizer, and is finalizing; doing it again changes nothing |
| `EventCallbacks.FinalizeCallback` | libevent-2.1.8-stable/event.c:2238-2253 | the same for any callback |
| `EventCallbacks.MakeLaterActive` | libevent-2.1.8-stable/event.c:3387-3400 | every queue gains the deferred callbacks of its priority in the order they were deferred, and the later queue is empty |
| `EventRuns.RemoveTimer` | libevent-2.1.8-stable/event.c:2502-2521 | only the timeout goes, and the timers stay set |
| `EventRuns.PrioritySet` | libevent-2.1.8-stable/event.c:2305-2318 | refused exactly for active events and unknown priorities |
| `EventRuns.Run` | libevent-2.1.8-stable/event.c:2547-3400 | the whole invariant holds in every state that any sequence of calls reaches from a new base |
| `EventDue.AddAndWait` | libevent-2.1.8-stable/event.c:2433-3149 | over any calls after event_add, an event that they do not touch fires at the first timeout_process, or run of its common queue's callback, at or after now plus the delay, and at no earlier one; a tick at or after it makes the queue's timer active |
| `EventRuns.Perform` | libevent-2.1.8-stable/event.c:2433-3400 | one call of any kind keeps the invariant, and every event it does not touch fires exactly when due and otherwise waits on unchanged |
| `EventRuns.OncePerFlag` | libevent-2.1.8-stable/event.c:3883-3940 | each flag holds just when its structure holds the callback, which it does exactly once, but that INSERTED also stands for an event with a negative descriptor, which no map lists; ACTIVE and ACTIVE_LATER exclude each other; a finalizing event is in no heap, common queue or map |
| `EventRuns.ActiveIsLengths` | libevent-2.1.8-stable/event.c:3920-3939 | event_count_active is the sum of the lengths of the active queues and the later queue, in every state a run reaches |
| `EventRuns.CountIsMemberships` | libevent-2.1.8-stable/event.c:2600-2605 | event_count is the number of memberships of non-internal callbacks exactly when every such INSERTED event has a descriptor |
| `EventRuns.InsertedButNotListed` | libevent-2.1.8-stable/event.c:2600-2605 | adding an event with descriptor -1 leaves it INSERTED and counted with no membership |
| `EventWatches.AddEntry` | libevent-2.1.8-stable/evmap.c:262-342 | the addition that event_add makes lists the entry, or fails and changes no list; a negative descriptor is accepted and not listed |
| `EventWatches.DelEntry` | libevent-2.1.8-stable/evmap.c:344-409 | the deletion that event_del makes takes exactly the entry off |
| `EventWatches.DispatchNow` | libevent-2.1.8-stable/epoll.c:457-458 | the kernel watches each descriptor for exactly what the INSERTED events on it want |
| `EventWatches.RunWatched` | libevent-2.1.8-stable/event.c:2547-3400 | over any run of calls on the event base, with the changelist or without it, that holds at every dispatch |
| `DnsName.NameParse` | libevent-2.1.8-stable/evdns.c:959-1013 | terminates on every packet, with the result of the reference definition; a name returned fits the output with its NUL, and the end index is past the first zero or pointer and inside the packet |
| `DnsName.PointerExact` | libevent-2.1.8-stable/evdns.c:1600-1630 | a two-byte pointer leads back to its position exactly for positions below 16384 |
| `DnsLabels.LabelTable.GetPos` | libevent-2.1.8-stable/evdns.c:1558-1568 | the position of the first entry for the name, if any |
| `DnsLabels.LabelTable.Add` | libevent-2.1.8-stable/evdns.c:1570-1586 | a full table stays as it is |
| `DnsLabels.DnsnameToLabels` | libevent-2.1.8-stable/evdns.c:1588-1663 | with a table or without, stores the specified labels or pointer and updates the table accordingly; both error codes are exact; it stays within a buffer of exactly buf_len bytes but in the one case that PastTheEnd describes |
| `DnsLabels.PastTheEnd` | libevent-2.1.8-stable/evdns.c:1654-1658 | the terminating zero goes past buf_len, by one byte, exactly when no suffix of the name is in the table, no label is too long, the name does not end in a dot and its labels just fill the buffer |
| `DnsLabels.OnePastTheEnd` | libevent-2.1.8-stable/evdns.c:1654-1658 | a name of one letter and two bytes of room: three bytes are stored |
| `DnsLabels.ParseSpells` | libevent-2.1.8-stable/evdns.c:959-1013 | wherever bytes spell a name through descending pointers, name_parse returns it and the index after it |
| `DnsLabels.LabelsSpell` | libevent-2.1.8-stable/evdns.c:1588-1663 | what is written for a valid name spells it, and so does every new table entry |
| `DnsLabels.OneName` | libevent-2.1.8-stable/evdns.c:1588-1663 | a valid name written into a packet with a usable table is read back with the writer's end index, and the table stays usable |
| `DnsLabels.StillReads` | libevent-2.1.8-stable/evdns.c:959-1013 | later writes do not change what an earlier name reads back as |
| `DnsLabels.Fits` | libevent-2.1.8-stable/evdns.c:1666-1673 | a valid name fails only for want of room, and never takes more than two bytes over its length |
| `DnsCompress.Compresses` | libevent-2.1.8-stable/evdns.c:1570-1663 | byte by byte: the labels before the longest suffix that the table knows, each behind its length, and then two bytes that point to where that suffix was first noted, or a zero; the table gains the suffix at each of these labels with its own position, in order, until 128 are in it; and it succeeds exactly when these labels and that end fit |
| `DnsCompress.SecondTime` | libevent-2.1.8-stable/evdns.c:1588-1663 | a name that was written with room for it in the table takes two bytes the second time, which point to where it was first written |
| `DnsCompress.SharedEnd` | libevent-2.1.8-stable/evdns.c:1588-1663 | two names with a common last label, byte by byte |
| `DnsLabels.WriteNames` | libevent-2.1.8-stable/evdns.c:1588-1960 | any list of valid names written through one table, each followed by arbitrary bytes, is read back, each with the index at which its writer stopped, and the bytes after it are untouched |
| `TokenBucket.RefilledIsMin` | libevent-2.1.8-stable/bufferevent_ratelim.c:73-111 | the division-based update is min(maximum, limit + ticks * rate), for every limit at or below the maximum |
| `TokenBucket.RefilledExactly` | libevent-2.1.8-stable/bufferevent_ratelim.c:73-111 | for a limit above the maximum it is that exactly when the product is large enough |
| `TokenBucket.RefundOverflows` | libevent-2.1.8-stable/bufferevent_ratelim.c:73-111 | a concrete bucket, refunded past its maximum, that the update gets wrong |
| `TokenBucket.RefilledTwice` | libevent-2.1.8-stable/bufferevent_ratelim.c:73-111 | two updates in a row equal one for all the ticks |
| `TokenBucket.UpdatedBounds` | libevent-2.1.8-stable/bufferevent_ratelim.c:73-111 | an update never lowers the limit and never passes the maximum |
| `TokenBucket.SteadyStaysPositive` | libevent-2.1.8-stable/bufferevent_ratelim.c:73-111 | an update leaves a positive limit positive exactly when it does not go through the top of the signed range |
| `TokenBucket.RefundWraps` | libevent-2.1.8-stable/bufferevent_ratelim.c:73-111 | a refunded bucket that one tick makes look exhausted |
| `TokenBucket.RunIsBounded` | libevent-2.1.8-stable/bufferevent_ratelim.c:73-111 | over any run of charges and updates the bytes charged are at most initial limit + counted ticks * rate - final limit |
| `TokenBucket.BoundedByTime` | libevent-2.1.8-stable/bufferevent_ratelim.c:73-111 | and the counted ticks are those between the first and the last update, when each is less than 2^31 after the one before |
| `RateLimit.Bufferevent.Suspend` | libevent-2.1.8-stable/bufferevent.c:66-100 | a direction is on just when it is enabled and nothing suspends it |
| `RateLimit.Bufferevent.Unsuspend` | libevent-2.1.8-stable/bufferevent.c:78-112 | the same when a reason goes |
| `RateLimit.Bufferevent.Enable` | libevent-2.1.8-stable/bufferevent.c:459-480 | the same for enabling: a suspended direction stays off |
| `RateLimit.Bufferevent.Disable` | libevent-2.1.8-stable/bufferevent.c:550-563 | the same for disabling |
| `RateLimit.Bufferevent.ChargeRead` | libevent-2.1.8-stable/bufferevent_ratelim.c:272-308 | suspended for bandwidth just when the bucket is empty, with the timer set exactly while either direction is |
| `RateLimit.Bufferevent.ChargeWrite` | libevent-2.1.8-stable/bufferevent_ratelim.c:310-346 | the same for writing |
| `RateLimit.Bufferevent.DecrementReadLimit` | libevent-2.1.8-stable/bufferevent_ratelim.c:971-996 | acting only when the limit crosses zero keeps the same invariant, the timer included, and follows every crossing |
| `RateLimit.Bufferevent.DecrementWriteLimit` | libevent-2.1.8-stable/bufferevent_ratelim.c:998-1025 | the same for writing |
| `RateLimit.Bufferevent.UpdateBucket` | libevent-2.1.8-stable/bufferevent_ratelim.c:113-124 | both directions are updated as the token bucket defines, and share the tick; the suspension invariant is kept exactly when the update is Updatable, which every bucket at or below its maximum is |
| `RateLimit.Bufferevent.RlimMax` | libevent-2.1.8-stable/bufferevent_ratelim.c:197-258 | the limit of the bucket once it is up to date, or 0 when that is negative |
| `RateLimit.Bufferevent.Refill` | libevent-2.1.8-stable/bufferevent_ratelim.c:393-439 | both buckets are updated and share the tick; afterwards suspended for bandwidth just when a bucket is still empty, and then the timer is set again |
| `RateLimit.Bufferevent.SetRateLimit` | libevent-2.1.8-stable/bufferevent_ratelim.c:559-636 | a new configuration suspends for bandwidth exactly the directions whose clipped bucket is empty and sets the timer exactly when there is one; the same one changes nothing; without one nothing is suspended for bandwidth |
| `RateLimit.Bufferevent.InitBucket` | libevent-2.1.8-stable/bufferevent_ratelim.c:49-71 | a new configuration clips an old bucket and starts a new one at one tick's rate |
| `RateLimit.RefillFrees` | libevent-2.1.8-stable/bufferevent_ratelim.c:393-439 | a bucket is positive after a refill exactly when limit + ticks * rate is |
| `RateLimit.RefillsEnd` | libevent-2.1.8-stable/bufferevent_ratelim.c:393-439 | n refills at ticks t, t+1, ... of a bucket at or below its maximum, wherever t stands to last_updated: the limit is as after one refill for the ticks that count, which are none until the tick number has come round when t is behind; it is positive exactly when these pay for what the bucket is short of |
| `RateLimit.RefillCounts` | libevent-2.1.8-stable/bufferevent_ratelim.c:73-111 | a refill counts ticks exactly when the wrapped difference between its tick and last_updated is positive and fits an int; any other changes nothing |
| `RateLimit.FreedAfter` | libevent-2.1.8-stable/bufferevent_ratelim.c:393-439 | two refills more than the bytes owed free a direction whose first refill is not behind last_updated; one that is behind waits until the tick number has come round, and is then freed the same way |
| `RateLimit.ReconfigurationStalls` | libevent-2.1.8-stable/bufferevent_ratelim.c:49-71 | three calls after which no refill counts for over a thousand million ticks: a configuration with longer ticks keeps the old last_updated |
| `RateLimitRuns.Run` | libevent-2.1.8-stable/bufferevent_ratelim.c:272-636 | over every run of calls an empty bucket suspends its direction, the timer is set exactly while one is suspended for bandwidth, and each direction is on just when it should be; without calls of bufferevent_get_rlim_max_ a direction is suspended for bandwidth exactly when its bucket is empty |
| `RateLimitRuns.RlimMaxLags` | libevent-2.1.8-stable/bufferevent_ratelim.c:197-258 | with such a call, a direction that is in credit and still suspended |
| `TagCodec.IntRoundTrip` | libevent-2.1.8-stable/event_tagging.c:117-138 | an encoded 32-bit or 64-bit integer is read back whatever follows it |
| `TagCodec.TagRoundTrip` | libevent-2.1.8-stable/event_tagging.c:173-242 | the same for every 32-bit tag |
| `TagCodec.RecordRoundTrip` | libevent-2.1.8-stable/event_tagging.c:256-263 | the same for a record with a payload under 2^31 bytes |
| `TagCodec.HeaderFirst` | libevent-2.1.8-stable/event_tagging.c:256-263 | tag and payload length are read from any beginning of a record that holds its header |
| `TagCodec.AllRoundTrip` | libevent-2.1.8-stable/event_tagging.c:256-480 | any list of records is recovered exactly by repeated decoding |
| `Tagging.EncodeIntInternal` | libevent-2.1.8-stable/event_tagging.c:117-150 | the nibble loop writes the count less one and then the digits, least significant first |
| `Tagging.EncodeTagBytes` | libevent-2.1.8-stable/event_tagging.c:173-194 | seven bits a byte, least significant first, the top bit on all but the last |
| `Tagging.EncodeInt` | libevent-2.1.8-stable/event_tagging.c:152-166 | appends the encoding to the buffer |
| `Tagging.EncodeTag` | libevent-2.1.8-stable/event_tagging.c:173-194 | appends the encoding to the buffer |
| `Tagging.Marshal` | libevent-2.1.8-stable/event_tagging.c:256-263 | appends exactly the record's encoding |
| `Tagging.DecodeTagInternal` | libevent-2.1.8-stable/event_tagging.c:196-242 | reads the tag of the reference definition, drains it when asked, and refuses what does not fit 32 bits |
| `Tagging.DecodeIntInternal` | libevent-2.1.8-stable/event_tagging.c:315-373 | reads the integer at an offset and drains nothing |
| `Tagging.DecodeInt` | libevent-2.1.8-stable/event_tagging.c:375-393 | reads an integer and drains exactly its bytes |
| `Tagging.UnmarshalHeader` | libevent-2.1.8-stable/event_tagging.c:437-451 | tag and length of the next record with the header drained, the length as the int it is returned as; or failure when the payload is not there, with what could be read of the header gone all the same; a frozen buffer, of which nothing is drained, is read the same way and its outcome is exact |
| `Tagging.Consume` | libevent-2.1.8-stable/event_tagging.c:453-462 | drains exactly one record when its length fits an int; what it does with a longer one is exact too |
| `Tagging.PeekLength` | libevent-2.1.8-stable/event_tagging.c:401-417 | the sum of tag, length and payload lengths as a 32-bit number, whether the payload is there or not: of any beginning of a record that holds its header it is the length of the whole record; nothing is drained |
| `Tagging.Unmarshal` | libevent-2.1.8-stable/event_tagging.c:466-480 | the payload goes to the destination and the rest of the stream is untouched, exactly when the length fits an int and the destination takes it |
| `TaggingRuns.MarshalAll` | libevent-2.1.8-stable/event_tagging.c:256-263 | the buffer holds the encodings of the records in order |
| `TaggingRuns.UnmarshalAll` | libevent-2.1.8-stable/event_tagging.c:466-480 | repeated evtag_unmarshal yields the reference decoding of the buffer, up to the first record whose length does not fit an int |
| `TaggingRuns.RoundTrip` | libevent-2.1.8-stable/event_tagging.c:256-480 | any records, with payloads under 2^31 bytes each, that a buffer can hold come back as they went in |
| `Arc4.PermutationCovers` | libevent-2.1.8-stable/arc4random.c:97-105 | a permuted table holds every byte value |
| `Arc4.Stream.AddRandom` | libevent-2.1.8-stable/arc4random.c:107-122 | seeding keeps the table a permutation and performs the reference key schedule |
| `Arc4.MixedIsFed` | libevent-2.1.8-stable/arc4random.c:107-122 | step k of the schedule is fed with byte k modulo the length of the seed |
| `Arc4.Undone` | libevent-2.1.8-stable/arc4random.c:107-122 | every step can be undone from the state after it and the byte it was fed with |
| `Arc4.SameRest` | libevent-2.1.8-stable/arc4random.c:107-122 | feeding the same bytes keeps different states different |
| `Arc4.TwoBytesShow` | libevent-2.1.8-stable/arc4random.c:107-122 | seeds that differ in no more than two successive bytes lead from one state to different states |
| `Arc4.ThreeBytesMayNot` | libevent-2.1.8-stable/arc4random.c:107-122 | two seeds of three bytes that lead from one state to the same state |
| `Arc4.Stream.GetByte` | libevent-2.1.8-stable/arc4random.c:425-437 | generating a byte keeps the table a permutation |
| `Arc4.FirstBytes` | libevent-2.1.8-stable/arc4random.c:425-437 | the key stream of a new table begins with 2, 5 and 7 |
| `Arc4.Stream.GetWord` | libevent-2.1.8-stable/arc4random.c:439-450 | four successive bytes, the first most significant |
| `Arc4.WordBytes` | libevent-2.1.8-stable/arc4random.c:439-450 | each byte of the word by division and remainder, the first one the most significant |
| `Arc4.ThresholdIsRemainder` | libevent-2.1.8-stable/arc4random.c:533-539 | the 32-bit arithmetic computes 2^32 mod bound |
| `Arc4.Unbiased` | libevent-2.1.8-stable/arc4random.c:522-555 | every result below the bound comes from the same number of accepted 32-bit inputs |
| `Arc4.Uniform` | libevent-2.1.8-stable/arc4random.c:522-555 | the first accepted word of the stream, reduced; words below the threshold are skipped |

## Left out

* Chains are values in a sequence; the `next` pointers themselves and chain memory shared between buffers
  (multicast, reference, pinned, dangling and file-segment chains, sendfile) are not modelled.
* Allocation failure other than the size limit of a chain; locks, threads, wake-up pipes and condition variables.
* `evbuffer_reserve_space`, `evbuffer_commit_space`, `evbuffer_peek`, `evbuffer_add_iovec`, `evbuffer_write*` and
  printing into a buffer: mostly further users of the list operations modelled here.
* The wrap-around of `total_len` past the size type when whole buffers are joined.
* Callbacks on an evbuffer are fixed, are told about changes and do not change the buffer; adding, disabling and
  obsolete callbacks are not modelled.
* Signals in the fd map, edge-triggered flags, and epoll's retries after ENOENT and EEXIST.
* In the event base: `ev_io_timeout` and the rescheduling of persistent events, signal delivery counts,
  `event_continue`, the maxima of the counters, virtual events, `n_deferreds_queued`, the search for an existing
  common queue with the same duration, and changing the number of priorities.
* Rate-limit groups.
* Entropy gathering and reseeding of arc4random; the rest of evdns; bufferevent back ends.
- EvbufferRemoves.RemoveBuffer: asks that the combined length is within the size type; where a buffer comes out malformed it does not say which bytes each holds, but that `last_with_datap` is wrong or an assertion failed.
- EvbufferRuns.Run: leaves out the calls whose sizes do not fit, that would add over the size of a chain at once, or that would leave a buffer malformed.
- DnsLabels.WriteNames: asks for a packet of at most 16384 bytes, the reach of a compression pointer; the bytes between two names are stored before the second one, where evdns fills in the length of a name in record data after it.
- TaggingRuns.UnmarshalAll: asks for an unfrozen source, because of a frozen one nothing is drained.
- RateLimit.Bufferevent.ChargeRead: asks that the signed limit does not wrap, as do the other charges.
- EventBases.Base.TimeoutProcess: the order of events with equal deadlines is left open.
- EvmapReinit.Reinit: clears all changelist slots before the first addition instead of each before its own.
