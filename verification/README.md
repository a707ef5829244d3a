# Verified model of the book server repository

This project models the parts of the repository whose correctness depends on many steps working
together, and proves what they are for:

* **The JSON engine** (`CJsonObject/cJSON.c`). Trees are values (`JsonText`), with the printer and
  the recursive-descent parser as functions on byte strings. Beside them the routines run as the C
  code does: node objects with `next`, `prev` and `child` fields that are linked in place
  (`JsonNodes`, `NodeLists`, `JsonNodeParser`, `ChildList`, `KeyedChildren`, `ChildEdits`), buffers
  that a counting pass sizes and a writing pass fills (`JsonBuffers`, `JsonNodePrinter`), and a
  ledger of allocated objects. Every method is proved against the functions. What the parser accepts
  is settled by a grammar in literal bytes (`JsonGrammar`): it reads exactly the texts of that
  grammar, with their trees (`StringTexts`, `NumberTexts`, `JsonAcceptance`), all of RFC 8259 among
  them; what the printer writes is such a text in a fixed layout (`JsonRoundTrip`).
* **Its C++ wrapper** (`CJsonObject/CJsonObject.cpp`). Copying, comparing and extracting go through
  text (`Wrapper`); the index from array positions to nodes stays right only where elements that
  move are evicted from it (`ArrayCache`, `ArrayCacheRuns`).
* **The worker pool** (`libnet/threadpool.h`, `libnet/task_queue.h`). A transition system with any
  number of workers and callers of Execute and one controller; every read and write of the state
  word is a step of its own: safety over all runs (`Pool`, `PoolInvariant`, `PoolTheorems`), the end
  of shutdown (`PoolLiveness`), what a call of Execute returns and how long the mutex is held
  (`PoolCalls`), and the task queue (`TaskQueue`).
* **The timer manager** (`libnet/net_timer.h`). A priority queue with lazy deletion, refining a map
  from requests to deadlines, over runs of the server from an empty manager on (`Timers`,
  `TimerRuns`).
* **The book server's queue and cache** (`src/server.cc`). A two-semaphore bounded buffer, the
  bounded-heap choice of cold entries, and the size bound under concurrent readers
  (`BoundedBuffer`, `BufferLiveness`, `Eviction`, `CacheBound`).
* **The HTTP request parser** (`libnet/net_httprequest.h`, `libnet/data_buffer.h`). A cursor-driven
  loop (`HttpRequest`) with its specification and rendering (`HttpText`); lengths are decimal numerals
  by position (`Numerals`).

A C string pointer is the byte sequence ahead of it, reading behind its end yields NUL, and a
NUL-terminated buffer is an array with that terminator. The priority queues of the standard library
are specified abstractly: the head is some element that no other precedes.

Run `dafny verify dfyconfig.toml` in this directory.

## Findings

The code is modelled as it is. Where a promise holds only under a condition, the exact condition is
proved, and an input or a run shows that it fails otherwise.

* Surrogate pairs are combined with `|` instead of `+`: the result is right iff bit 16 of the offset
  is clear (`Utf8.PairIsRightIffBit16Clear`). The pair D840 DC00, which stands for U+20000, decodes to
  the bytes of U+10000 (`JsonString.PairD840IsWrong`).
* The pool's mTaskCount is the queue length until Clear drops the first entry, not until the final
  reset (`PoolTheorems.CountIsQueueLength`): a run in which the count is 1 and the queue empty is
  `PoolTheorems.CountIsWrongDuringClear`.
* The timer manager stays in order iff no fired request is being worked on: the callback leaves such
  a request alone, which then keeps a timer that has been freed (`TimerRuns.Step`). A run that gets
  there is `TimerRuns.StaleTimer`.
* The comparison of cache entries is not always a strict weak order. Two entries can each be colder
  than the other (`Eviction.CmpIsNotAlwaysAnOrder`); on a set it is asymmetric iff no two entries clash
  (`Eviction.AsymmetricIffNoClash`), but that is not enough (`Eviction.NoClashIsNotEnough`). It is an
  order for all entries with given hit counts iff any two of the counts are at most 100 or more than
  1000 apart (`Eviction.HitsDecide`).
* The header loop never sees a null CRLF pointer; without a line that ends the headers it reads the
  last piece again and again (`HttpText.StuckIff`). A buffer that ends behind the colon of the first
  header is such a case (`HttpText.UnterminatedIsStuck`, `HttpText.CutShortIsStuck`).
* The wrapper's array index goes stale: Delete and Replace with a negative index work on the first
  element but evict under another key, and the overloads of Add, AddAsFirst and Replace that take a
  scalar evict nothing. The exact condition is `ArrayCacheRuns.Do`; runs with natural indices and
  objects are safe (`ArrayCacheRuns.NaturalRunsAreSafe`), and in `ArrayCacheRuns.StaleEntry` a cached
  wrapper refers to a freed node.
* A replacement through the wrapper that is out of range leaks the new tree
  (`ArrayCache.ReplaceAt`, `ArrayCacheRuns.LeakedItem`), and replacing by key leaks the new item's
  previous name (`KeyedChildren.ReplaceItemInObject`; over runs, one name for each such replacement,
  `ChildEdits.Run`).
* cJSON_AddItemToObject frees the item's name before it copies the key, so it is right iff the key is
  not that name (`KeyedChildren.AddItemToObject`, `ChildEdits.Step`); otherwise a freed string is read
  (`KeyedChildren.OwnNameIsFreed`).
* A POST whose announced length is negative or larger than what is left of the buffer makes the
  parser take a body that is not in the buffer; `HttpText.OutsideIff` is exact, and
  `HttpText.ShortBodyIsOutside` is an input.
* In print_int the signed 32-bit branch compares an unsigned value with a negative limit and is
  never taken; the text is the same.

## Model

| member | source | states |
|---|---|---|
| `Utf8.EncodeIsUtf8` | `CJsonObject/cJSON.c:278-301` | the length table, the marking with 0x80/0xBF and the first-byte marks together produce the UTF-8 form of section 3 of RFC 3629, for every code point |
| `Utf8.PairIsRightIffBit16Clear` | `CJsonObject/cJSON.c:266-301` | combining a surrogate pair with `0x10000 \|` yields the bytes of the code point of section 2.2 of RFC 2781 if and only if bit 16 of the 20-bit offset is clear |
| `JsonString.CountIsExact` | `CJsonObject/cJSON.c:328-338` | the counting pass of print_string_ptr counts exactly the bytes the writing pass produces |
| `JsonString.PassesAgree` | `CJsonObject/cJSON.c:226-307` | the counting pass of parse_string stops at the same closing quote as the writing pass, and counts at least the bytes written |
| `JsonString.BasicPlaneEscape` | `CJsonObject/cJSON.c:260-301` | every non-zero non-surrogate `\u` escape decodes to the UTF-8 bytes of its code unit |
| `JsonString.SurrogatePairEscape` | `CJsonObject/cJSON.c:266-301` | a surrogate pair decodes to the four-byte form of `0x10000 \| offset`, which is the pair's code point iff bit 16 of the offset is clear |
| `JsonString.PairD840IsWrong` | `CJsonObject/cJSON.c:266-301` | the escapes of D840 and DC00, which stand for U+20000, decode to the bytes of U+10000 |
| `JsonString.InvalidUnitsDropped` | `CJsonObject/cJSON.c:264-270` | zero, a lone low surrogate and a high surrogate without a second `\u` contribute no bytes |
| `JsonString.StringRoundTrip` | `CJsonObject/cJSON.c:213-385` | parse_string inverts print_string_ptr on every NUL-free byte string, whatever text follows |
| `JsonString.DecodeNulFree` | `CJsonObject/cJSON.c:233-309` | a parsed string never contains a NUL byte, so it is a C string of its full length |
| `JsonBuffers.RunCountUnits` | `CJsonObject/cJSON.c:226-228` | the counting loop computes the length and the stopping point of its specification |
| `JsonBuffers.StoreCodePoint` | `CJsonObject/cJSON.c:278-301` | storing from the last byte to the first leaves the encoded code point at the write position and everything before it untouched |
| `JsonBuffers.RunParseString` | `CJsonObject/cJSON.c:213-316` | parse_string returns NULL exactly for texts that do not start with a quote; otherwise a buffer of len + 1 bytes, never overrun, holding the decoded value, and the text behind the literal |
| `JsonBuffers.RunPrintString` | `CJsonObject/cJSON.c:319-385` | print_string_ptr fills its buffer of len + 3 bytes exactly, with the quoted text and the terminator |
| `JsonInt.AccumulationIsExact` | `CJsonObject/cJSON.c:120-124` | on the text of a 64-bit integer every intermediate accumulation stays below 2^64 |
| `JsonInt.IntRoundTrip` | `CJsonObject/cJSON.c:111-208` | parse_number undoes print_int on all 2^64 patterns and both sign tags; the tag comes back as -1 exactly for texts with a minus sign |
| `JsonInt.RunParseNumber` | `CJsonObject/cJSON.c:111-158` | the parsing loops, with integral part, fraction and exponent, compute the number and the rest that the specification gives |
| `JsonNodePrinter.IntFits` | `CJsonObject/cJSON.c:178-182` | the text of an integer has at most 20 characters, so it fits the 22-byte buffer |
| `NumberTexts.NumeralRead` | `CJsonObject/cJSON.c:111-158` | parse_number reads every numeral of the grammar to its end: an optional minus sign, digits, fraction and power of ten, with the value that the digits have by position |
| `NumberTexts.NumeralFound` | `CJsonObject/cJSON.c:111-158` | and whatever it reads is such a numeral, with the liberties it takes: no digits behind a minus sign or in a power, and one zero in front |
| `StringTexts.PiecesRead` | `CJsonObject/cJSON.c:233-309` | parse_string reads every sequence of plain bytes, letter escapes (`\/` included), `\u` escapes with either case of hexadecimal digits, and pairs of them, with the bytes that each stands for |
| `StringTexts.PiecesFound` | `CJsonObject/cJSON.c:233-309` | and whatever it reads is such a sequence |
| `JsonAcceptance.ParseIffText` | `CJsonObject/cJSON.c:435-682` | parse_value returns the tree t and stops in front of a rest if and only if the text starts with a text of t, by the grammar in literal bytes, and goes on with that rest: nothing else is accepted, and nothing of it refused |
| `JsonAcceptance.StandardIsAccepted` | `CJsonObject/cJSON.c:409-682` | cJSON_Parse accepts every text of RFC 8259, with blanks in front of it and around each of the six structural characters, and returns its tree and exactly the text behind it |
| `JsonRoundTrip.LaidIsPrinted` | `CJsonObject/cJSON.c:477-780` | print_value writes a text of RFC 8259 that stands for the tree, in a fixed layout: without blanks, or formatted with one blank in front of each further element, each key on an indented line of its own, and one tab in front of its value |
| `JsonRoundTrip.RoundTrip` | `CJsonObject/cJSON.c:435-780` | for every tree of null, booleans, integers, NUL-free strings, arrays and objects with keyed members, at any depth, formatted or not, and any following text that cannot continue a number: parsing the printed text returns exactly the following text and the same tree up to sign tags that printing does not show |
| `JsonRoundTrip.RoundTripArray` | `CJsonObject/cJSON.c:513-620` | an array comes back whatever text follows, a digit included |
| `JsonRoundTrip.RoundTripObject` | `CJsonObject/cJSON.c:624-780` | so does an object |
| `JsonRoundTrip.PrintStarts` | `CJsonObject/cJSON.c:477-510` | printed text starts with a byte that is neither blank nor a closing bracket, so the parser does not mistake an element for an empty container |
| `JsonEquality.AgreeIsNorm` | `CJsonObject/CJsonObject.cpp:54-57` | two trees agree up to sign tags of integers below 2^63 iff their normal forms are equal |
| `JsonEquality.PrintDecidesEquality` | `CJsonObject/CJsonObject.cpp:54-57` | the printed texts of two printable trees are equal iff the trees agree |
| `JsonEquality.ReparseAgrees` | `CJsonObject/CJsonObject.cpp:37-52` | a tree printed and parsed again agrees with the original and prints the same text again |
| `JsonEquality.PrintNorm` | `CJsonObject/cJSON.c:477-510` | normalizing the sign tags does not change the printed text |
| `JsonEquality.ParsedIsKeyed` | `CJsonObject/cJSON.c:435-682` | every tree that the parser returns has NUL-free strings and a key on every member |
| `JsonNodes.Delete` | `CJsonObject/cJSON.c:93-108` | cJSON_Delete frees each node, key and string of a list of subtrees exactly once, and nothing else; it only reads what is still allocated |
| `JsonNodeParser.ParseInto` | `CJsonObject/cJSON.c:435-474` | parse_value on nodes succeeds exactly when the text has a value, returns the rest, and leaves a well-formed subtree with that value; on failure a well-formed partial subtree that owns all that was allocated |
| `JsonNodeParser.ParseStringInto` | `CJsonObject/cJSON.c:213-316` | the buffer becomes the node's value; without a literal the node keeps its kind and nothing is allocated |
| `JsonNodeParser.ParseItemsInto` | `CJsonObject/cJSON.c:527-546` | the element loop links every new node behind the last one; the children are the elements read so far, also when it fails half-way |
| `JsonNodeParser.ParseArrayInto` | `CJsonObject/cJSON.c:513-551` | parse_array builds the linked children of exactly the elements in the text |
| `JsonNodeParser.ParseMemberBody` | `CJsonObject/cJSON.c:640-669` | the parsed string moves to the name field, a colon is required, with any blanks on both sides of it, and the value is parsed into the same node; the specification accepts exactly the members of the grammar (`JsonAcceptance.ParseIffText`) |
| `JsonNodeParser.ParseObjectInto` | `CJsonObject/cJSON.c:624-682` | parse_object builds the linked, named children of exactly the members in the text, which `JsonAcceptance.ParseIffText` settles |
| `JsonNodeParser.ParseTree` | `CJsonObject/cJSON.c:409-422` | cJSON_Parse: after a failure the allocated objects are those of before; after success the new tree owns exactly what was allocated and is the parsed tree; it succeeds for every text of RFC 8259 (`JsonAcceptance.StandardIsAccepted`) |
| `JsonNodeParser.ParseThenDelete` | `CJsonObject/cJSON.c:93-108` | parsing any text and deleting the result leaves the allocated objects as they were |
| `JsonNodePrinter.ArrayFits` | `CJsonObject/cJSON.c:554-620` | the text of an array and its terminator fit the length computed before composing it |
| `JsonNodePrinter.ObjectFits` | `CJsonObject/cJSON.c:685-780` | the text of an object, tabs at any depth included, and its terminator fit the computed length |
| `JsonNodePrinter.PrintValue` | `CJsonObject/cJSON.c:477-510` | print_value on nodes returns a fresh buffer with exactly the text of the tree |
| `JsonNodePrinter.ComposeArray` | `CJsonObject/cJSON.c:596-620` | composing an array stays within the computed length and yields the elements joined by the separators of the chosen format |
| `JsonNodePrinter.CollectMembers` | `CJsonObject/cJSON.c:705-723` | the collecting pass prints every name and value and adds up the length |
| `JsonNodePrinter.ComposeObject` | `CJsonObject/cJSON.c:745-780` | composing an object stays within the computed length and yields the members with tabs, colons, commas and newlines |
| `NodeLists.Link` | `CJsonObject/cJSON.c:533-541` | appending a node keeps every subtree and all other links |
| `ChildList.ItemAt` | `CJsonObject/cJSON.c:791-797` | the index walk returns the node at the index, the first one for a negative index, and null past the end |
| `ChildList.ArraySize` | `CJsonObject/cJSON.c:783-790` | the count is the number of children |
| `ChildList.AddItemToArray` | `CJsonObject/cJSON.c:826-841` | the chain is the old sequence with the item at its end, doubly linked, all subtrees intact |
| `ChildList.AddItemToArrayHead` | `CJsonObject/cJSON.c:843-859` | the chain is the old sequence with the item in front |
| `ChildList.DetachItemFromArray` | `CJsonObject/cJSON.c:880-895` | the chain is the old sequence without the indexed child, which is returned whole and without links; out of range nothing changes |
| `ChildList.DeleteItemFromArray` | `CJsonObject/cJSON.c:896-899` | in addition exactly the removed subtree is freed |
| `ChildList.ReplaceItemInArray` | `CJsonObject/cJSON.c:916-933` | the chain is the old sequence with the item in the indexed place, and exactly the old subtree is freed; out of range nothing changes |
| `KeyedChildren.StrCaseCmp` | `CJsonObject/cJSON.c:42-53` | zero iff both names exist, are equally long, and at each position the bytes are equal or one is in 65 to 90 and the other exactly 32 larger |
| `KeyedChildren.FindKey` | `CJsonObject/cJSON.c:798-804` | the first child whose name and the key are related in that way, with its position; null iff there is none |
| `KeyedChildren.DetachItemFromObject` | `CJsonObject/cJSON.c:900-909` | detaches the first match and nothing else |
| `KeyedChildren.DeleteItemFromObject` | `CJsonObject/cJSON.c:910-913` | deletes the first match and frees exactly its subtree |
| `KeyedChildren.ReplaceItemInObject` | `CJsonObject/cJSON.c:934-946` | the first match is replaced by the item under a fresh copy of the key; the item's previous name stays allocated |
| `KeyedChildren.AddItemToObject` | `CJsonObject/cJSON.c:861-869` | the item is appended under a fresh copy of the key, and its previous name is freed, iff the key is not that name; if it is, the key is no longer allocated when it is copied |
| `KeyedChildren.OwnNameIsFreed` | `CJsonObject/cJSON.c:865-867` | a concrete item that is added under its own name is left with a freed name |
| `KeyedChildren.AppendedMember` | `CJsonObject/cJSON.c:861-869` | as a tree, adding to an object appends a member with that key and value |
| `ChildEdits.Step` | `CJsonObject/cJSON.c:826-946` | each of add, add at head, detach, delete and replace, by index or by first matching key, is its edit of the child sequence and of the loose subtrees, iff it does not add an item under its own name: every node with its data, its strings and the subtrees below it stays as it was, but for the names that keyed operations set; every allocated object is accounted for |
| `ChildEdits.Run` | `CJsonObject/cJSON.c:826-946` | any run of these operations, whose keys are allocated when they are read, leaves a well-linked chain of exactly the edited sequence and whole loose subtrees, detached ones included, which the run may add again; what is allocated is what was allocated outside, the list, the loose subtrees, and exactly one leaked name for each replacement by key of a named item; of the objects that were there before, exactly those beside the final view or in it still are |
| `ChildEdits.OutsideKeysAreReadable` | `CJsonObject/cJSON.c:861-946` | keys that no item owns are allocated throughout every run |
| `ChildEdits.MoveToEnd` | `CJsonObject/cJSON.c:880-895` | detaching a child and adding it again is such a run, and moves it to the end |
| `Wrapper.CJsonObject.ToString` | `CJsonObject/CJsonObject.cpp:445-463` | the unformatted text of the wrapped tree, empty for an empty wrapper |
| `Wrapper.CJsonObject.Equals` | `CJsonObject/CJsonObject.cpp:54-57` | operator== holds iff both wrappers are empty or both wrap trees that agree up to sign tags that printing does not show |
| `Wrapper.CJsonObject.Clear` | `CJsonObject/CJsonObject.cpp:375-401` | frees exactly the owned tree and forgets all references |
| `Wrapper.CJsonObject.Parse` | `CJsonObject/CJsonObject.cpp:363-373` | replaces the owned tree by the parsed one; succeeds iff the text parses |
| `Wrapper.CJsonObject.Assign` | `CJsonObject/CJsonObject.cpp:37-52` | copy construction and assignment yield a wrapper that owns a fresh tree equal to the source, and is empty iff the source is |
| `Wrapper.CJsonObject.GetMember` | `CJsonObject/CJsonObject.cpp:486-518` | succeeds iff the wrapped object has a matching member, and then yields a fresh tree equal to it |
| `Wrapper.CJsonObject.GetElement` | `CJsonObject/CJsonObject.cpp:1494-1526` | succeeds iff the wrapped array has the element, and then yields a fresh tree equal to it |
| `ArrayCache.Index` | `CJsonObject/CJsonObject.cpp:173-211` | the returned wrapper is the cached one and refers to the node now at the position the key stands for, or to none past the end |
| `ArrayCache.Add` | `CJsonObject/CJsonObject.cpp:1760-1861` | appends the parsed object or the scalar; for an object evicts exactly the entries from the new last position on, which keeps the index right; for a scalar evicts nothing, and the index is right iff no entry stood for the new position |
| `ArrayCache.AddAsFirst` | `CJsonObject/CJsonObject.cpp:2157-2250` | prepends; for an object evicts every entry, which keeps the index right; for a scalar evicts nothing, and the index is right iff every entry stood for a position past the new end |
| `ArrayCache.ReplaceAt` | `CJsonObject/CJsonObject.cpp:2588-2665` | in range replaces and frees exactly the old element, and for an object evicts the entry under the converted index; the index is right iff no entry that is left stood for that position; returns false and leaks the new tree iff an array is out of range and the value could be made |
| `ArrayCache.DeleteAt` | `CJsonObject/CJsonObject.cpp:2546-2586` | removes and frees exactly the element the index stands for and evicts exactly the entries whose keys are at least the converted index: always enough for a natural index, and for a negative one iff no entry stood for an element |
| `ArrayCache.PrintedIsGiven` | `CJsonObject/CJsonObject.cpp:1787-1792` | the text that one wrapper hands to another parses to the wrapped tree, and only an empty wrapper's text fails |
| `ArrayCacheRuns.Do` | `CJsonObject/CJsonObject.cpp:173-211` | every operation on a right index changes the elements and the keys as specified, and the index is right afterwards iff the operation is safe, which the elements, the keys and the arguments decide beforehand |
| `ArrayCacheRuns.Run` | `CJsonObject/CJsonObject.cpp:173-211` | after any run of safe operator[], Add, AddAsFirst, Replace and Delete the elements are the edited sequence and every cached wrapper refers to the node now at its position, or to none past the end |
| `ArrayCacheRuns.NaturalRunsAreSafe` | `CJsonObject/CJsonObject.cpp:1799-1814` | runs of the overloads that take objects, with indices and keys below 2^31 that are not negative, are always safe |
| `ArrayCacheRuns.UnsafeExamples` | `CJsonObject/CJsonObject.cpp:2546-2665` | with the first of two elements cached: deleting at -1, replacing at -1, replacing the first by a scalar and putting a scalar in front are not safe |
| `ArrayCacheRuns.StaleEntry` | `CJsonObject/CJsonObject.cpp:2546-2586` | from an empty wrapper: add, look at the element, delete at -1, and the cached wrapper refers to a freed node |
| `ArrayCacheRuns.LeakedItem` | `CJsonObject/CJsonObject.cpp:2615-2619` | from an empty wrapper: add, replace out of range, and a new tree is allocated that the wrapper does not own |
| `PoolInvariant.StepInv` | `libnet/threadpool.h:44-117` | every step of a worker, a caller of Execute or the controller keeps the invariant: mutual exclusion, the place of every accepted task, both counters and the wakeups; what a call accepts is `PoolCalls.ExecuteResult` |
| `PoolInvariant.RunInv` | `libnet/threadpool.h:44-117` | the invariant holds in every state of every run |
| `PoolTheorems.NoLostWakeups` | `libnet/threadpool.h:67-101` | while the pool is not terminated and some worker waits un-signalled, the queued tasks are at most the workers awake without a task; one more only between a push and its signal |
| `PoolTheorems.QueuedWorkHasAWorker` | `libnet/threadpool.h:67-101` | queued work never coexists with all live workers asleep |
| `PoolTheorems.NoSleepAfterBroadcast` | `libnet/threadpool.h:106-110` | after WakeuoAllThread no worker waits or ever waits again |
| `PoolTheorems.GracefulShutdownDrains` | `libnet/threadpool.h:57-65` | once WaitExit has returned the queue is empty and every accepted task has run exactly once, although the state is set without the lock |
| `PoolTheorems.ImmediateShutdownPartitions` | `libnet/threadpool.h:44-55` | after ShutdownNow every accepted task has been run exactly once or discarded exactly once, never both or neither |
| `PoolTheorems.NothingAcceptedAfterBroadcast` | `libnet/threadpool.h:67-76` | from the broadcast on, and so during Clear, no Execute pushes |
| `PoolTheorems.CountIsQueueLength` | `libnet/threadpool.h:67-90` | whenever the mutex is free before the final reset, mTaskCount is the queue length plus what Clear has dropped, and the queue length iff nothing has been dropped |
| `PoolTheorems.CountIsWrongDuringClear` | `libnet/threadpool.h:53-54` | a run with one worker and one task in which, the mutex free, the count is 1 and the queue empty |
| `PoolCalls.ExecuteResult` | `libnet/threadpool.h:67-76` | over runs: a call of Execute returns true only if its runnable is not NULL, it met the state RUNNING under the mutex, and exactly one of its steps appended one new task; it returns false only if its runnable is NULL or it met another state, and then none of its steps touched the queue |
| `PoolCalls.RunningPoolAccepts` | `libnet/threadpool.h:67-76` | a call with a runnable that ends while the state is RUNNING returns true and has appended exactly one new task, whatever is queued or counted |
| `PoolCalls.IdleWorkerSleeps` | `libnet/threadpool.h:97-98` | a worker that has gone to wait is back at work only after a signal, the broadcast or a spurious wakeup |
| `PoolCalls.MutexIsReleased` | `libnet/threadpool.h:67-110` | in every reachable state the thread that holds the mutex can take a step, and it takes at most five while it holds it |
| `PoolTheorems.PopIsAlwaysPossible` | `libnet/threadpool.h:88-90` | the entry a worker saw at the front is still there when it pops |
| `PoolLiveness.ShutdownIsNeverStuck` | `libnet/threadpool.h:78-117` | in every reachable state after the broadcast of either shutdown, until it is done, a worker or the controller can move, or the caller of Execute that holds the mutex can |
| `PoolLiveness.ShutdownStepsAreBounded` | `libnet/threadpool.h:78-117` | from there on the workers and the controller take at most a number of steps that the queue and their positions determine, whatever callers do and however threads are scheduled |
| `PoolLiveness.ShutdownCanFinish` | `libnet/threadpool.h:112-117` | every run after the broadcast can be continued until WaitExit has returned and the shutdown is done |
| `TaskQueues.TaskQueue.Front` | `libnet/task_queue.h:44-51` | shows a task of highest priority, or nothing |
| `TaskQueues.TaskQueue.Pop` | `libnet/task_queue.h:53-59` | removes what Front shows, and nothing from an empty queue |
| `TaskQueues.TaskQueue.Clear` | `libnet/task_queue.h:28-34` | frees every queued task exactly once, by priority |
| `Timers.DueIsTruncation` | `libnet/net_timer.h:107-110` | the truncated difference is not positive iff less than a whole millisecond is left |
| `Timers.NetTimerManager.AddTimer` | `libnet/net_timer.h:64-77` | on the map from requests to deadlines this is an update, whatever timer the request held before, and for a request that is new |
| `Timers.NetTimerManager.DelTimer` | `libnet/net_timer.h:79-90` | on the map this is a removal |
| `Timers.NetTimerManager.GetNextExpireTime` | `libnet/net_timer.h:119-136` | the map is unchanged; -1 iff it is empty, otherwise the truncated time to the earliest deadline, not below zero |
| `Timers.WaitIsExact` | `libnet/net_timer.h:130-132` | waiting the returned time makes the earliest deadline due, and a millisecond less does not |
| `Timers.NetTimerManager.HandleExpireTimers` | `libnet/net_timer.h:92-117` | fires exactly the requests due within a millisecond, once each, in order of their deadlines, and removes them from the map; the manager is in order afterwards iff no fired request was being worked on |
| `Timers.NetTimerManager.CloseConnection` | `libnet/net_httpserver.h:118-128` | a request being worked on is left alone, any other loses its timer and is released |
| `TimerRuns.Step` | `libnet/net_timer.h:64-136` | accepting a connection, adding, deleting, starting and ending work, closing, asking for the next deadline and handling change the map from requests to deadlines and the set of unreleased requests as specified; the manager is in order afterwards iff no expired request is being worked on |
| `TimerRuns.RunFromStart` | `libnet/net_timer.h:53-136` | from the constructor on, any run of these events keeps the manager in order and standing for the specified map, as long as no request is being worked on when its timer fires |
| `TimerRuns.Turn` | `libnet/net_httpserver.h:81-95` | one turn of the event loop with any events between the question for the next deadline and the handling: exactly the expired requests fire, and after the returned time the request with the earliest deadline is among them unless its timer was deleted, replaced or closed |
| `TimerRuns.StaleTimer` | `libnet/net_httpserver.h:118-128` | accept, an event, and expiry before the worker deletes the timer: the request keeps a timer that is freed |
| `BoundedBuffer.StepInv` | `src/server.cc:436-442` | every semaphore, lock and queue operation keeps the token equations, mutual exclusion and the queue order |
| `BoundedBuffer.BufferIsBounded` | `src/server.cc:436-442` | for any number of producers and workers: the semaphores plus the threads between wait and post are 500, the queue never exceeds 500, and front and pop never meet an empty queue |
| `BoundedBuffer.FirstInFirstOut` | `src/server.cc:509-523` | what has been removed is always a prefix of what has been pushed |
| `BoundedBuffer.EachOnce` | `src/server.cc:509-523` | the descriptors removed or waiting are those of the producers that have pushed, each exactly as often |
| `BoundedBuffer.ServesWhatItPopped` | `src/server.cc:439-442` | the descriptor a worker serves is the one it removed from the front |
| `BufferLiveness.RunLength` | `src/server.cc:436-442` | every run has at most twelve steps for each descriptor, and exactly so many are left in each state |
| `BufferLiveness.NeverStuck` | `src/server.cc:436-442` | with at least one worker some thread can move in every reachable state before the last of these steps |
| `BufferLiveness.EveryDescriptorIsServed` | `src/server.cc:436-442` | so a run that no thread can continue has served every descriptor exactly once, with the queue empty, the workers idle and all 500 slots free |
| `Eviction.BothColder` | `src/server.cc:59-69` | each of two entries is colder than the other iff one has between 100 and 1000 more hits, at longer intervals, and a later last use |
| `Eviction.AsymmetricIffNoClash` | `src/server.cc:59-69` | on a set of entries the comparison is asymmetric iff no two of them stand in that relation |
| `Eviction.CmpIsNotAlwaysAnOrder` | `src/server.cc:59-69` | two concrete entries each of which is colder than the other |
| `Eviction.HitsDecide` | `src/server.cc:59-69` | the comparison is a strict weak order on every set of entries with given hit counts iff any two counts are at most 100 or more than 1000 apart |
| `Eviction.PairOrderIffNoClash` | `src/server.cc:59-69` | on two entries it is one iff they do not clash |
| `Eviction.NoClashIsNotEnough` | `src/server.cc:59-69` | three concrete entries without a clash on which it is not one |
| `Eviction.CloseHitsOrder` | `src/server.cc:59-69` | with hit counts pairwise within 100 the comparison is a strict weak order, by last use |
| `Eviction.KeptAreNewer` | `src/server.cc:243-266` | then what is kept was used at least as recently as what is removed |
| `Eviction.KeptAreWarmer` | `src/server.cc:243-266` | with hit counts spread that way, what is kept has over 1000 hits more than what is removed, or within 100 as many and was used at least as recently |
| `Eviction.Cache.Consider` | `src/server.cc:249-259` | one step of the scan keeps the heap the coldest entries of those seen |
| `Eviction.Cache.FreePart` | `src/server.cc:243-266` | under a strict weak order exactly K entries go (all, if there are fewer), kept entries are unchanged, and each kept entry compared with each removed one has over 1000 hits more, or 100 to 1000 more at intervals that are no longer, or otherwise at most 1000 fewer and a last use at least as recent |
| `CacheBound.StepBounded` | `src/server.cc:235-273` | a size check, an eviction, an insert and every other step keep the size bound |
| `CacheBound.CacheIsBounded` | `src/server.cc:283-327` | with T threads serving READ requests, the cache size plus the threads that have passed the size check and not yet inserted never exceeds 200000 + T |
| `CacheBound.CacheAndPendingAreBounded` | `src/server.cc:235-327` | counting also the threads that wait to evict, the sum never exceeds 200000 + 2T |
| `CacheBound.BoundsAreReached` | `src/server.cc:235-327` | for every T a reachable state has 200000 + T entries while all T threads wait to evict |
| `CacheBound.EvictionMakesRoom` | `src/server.cc:235-273` | with fewer than 60000 threads the cache is below 200000 after the double-checked eviction, whoever evicted; a cache of 140000 entries or more still has 140000 |
| `CacheBound.CacheStaysWarm` | `src/server.cc:239-268` | over runs: once the cache holds 140000 entries it never holds fewer, however many threads wait to evict |
| `CacheBound.OnlyEvictionRemoves` | `src/server.cc:243-266` | over runs: an entry leaves only in an eviction that chose it, at a moment at which the cache holds 200000 entries or more |
| `HttpText.ParsingInvertsRendering` | `libnet/net_httprequest.h:117-170` | for every complete request, with blanks around header values, with or without a query, and any trailing text: the parser ends in GotAll with that method, version, path, query or body, and headers; a POST is complete if the header for its length starts with the decimal numeral of the length of its body |
| `HttpText.AtoiIsNumeral` | `libnet/net_httprequest.h:162` | the announced length is n if and only if the header value starts, behind white space and an optional sign, with digits whose value by position is n up to the sign |
| `HttpText.DecIsNumeral` | `libnet/net_httprequest.h:162` | so the usual decimal numeral of every n, behind any white space, announces n |
| `HttpText.PostBodyIsTaken` | `libnet/net_httprequest.h:160-167` | a POST whose header for the length is the numeral of the length of its body ends with exactly that body as its query |
| `HttpText.AcceptedIffRequestLine` | `libnet/net_httprequest.h:220-250` | parseRequest returns false at once if and only if the first line is not one of the five methods, a target without blanks and one of the two versions, with one blank between them |
| `HttpText.Spellings` | `libnet/net_httprequest.h:252-280` | the names of the methods, of the version and of the header, and the fixed parts of paths, letter by letter |
| `HttpText.LastWins` | `libnet/net_httprequest.h:293-304` | of several headers with one name the last one counts |
| `HttpText.StuckIff` | `libnet/net_httprequest.h:117-170` | parseRequest does not return iff it is entered with a finished request, or it reaches header text in which every piece between CRLFs, the unterminated last one included, has a colon |
| `HttpText.StuckNeverEnds` | `libnet/net_httprequest.h:117-170` | in those cases the loop is still running after any number of iterations |
| `HttpText.OthersEnd` | `libnet/net_httprequest.h:117-170` | in all others it stops after some number of iterations |
| `HttpText.OutsideIff` | `libnet/net_httprequest.h:117-170` | parseRequest takes a body that is not in the buffer iff it expects one, or reaches one behind the headers of a POST, whose announced length is negative or larger than what is left |
| `HttpText.WrongLengthIsOutside` | `libnet/net_httprequest.h:117-170` | every rendered POST whose header for the length starts with the numeral of such a number is a case |
| `HttpText.ShortBodyIsOutside` | `libnet/net_httprequest.h:117-170` | a concrete one announces nine bytes and sends two |
| `HttpText.UnterminatedIsStuck` | `libnet/net_httprequest.h:138-147` | a buffer with a valid request line that ends behind the colon of the first header line is never finished |
| `HttpText.CutShortIsStuck` | `libnet/net_httprequest.h:138-147` | `GET / HTTP/1.1` CRLF `H:x` is such a buffer |
| `HttpText.TrimBlanks` | `libnet/net_httprequest.h:295-301` | any number of blanks on both sides disappears, also around an empty value |
| `HttpRequest.DataBuffer.Append` | `libnet/data_buffer.h:59-67` | appends exactly the given bytes and leaves the cursor |
| `HttpRequest.DataBuffer.SetCur` | `libnet/data_buffer.h:29-36` | moves the cursor iff the position is within the buffer |
| `HttpRequest.DataBuffer.FindCRLF` | `libnet/data_buffer.h:75-80` | the next CRLF at or behind the cursor, or the end of the buffer, never null |
| `HttpRequest.NetHTTPRequest.ParseRequestLine` | `libnet/net_httprequest.h:220-250` | sets the fields as specified, also those recognized before a failure |
| `HttpRequest.NetHTTPRequest.AddHeaderLine` | `libnet/net_httprequest.h:293-304` | the trimming loops store the specified value under the key |
| `HttpRequest.NetHTTPRequest.ParseRequest` | `libnet/net_httprequest.h:117-170` | whenever the loop ends, the fields and the result are those of the specification, which `HttpText.ParsingInvertsRendering`, `HttpText.AcceptedIffRequestLine` and `HttpText.AtoiIsNumeral` settle |
| `HttpRequest.NetHTTPRequest.ResetParse` | `libnet/net_httprequest.h:174-182` | all parsing fields return to their initial values |

## Left out

- Doubles: `%f` formatting, `pow` and the value of a decimal are library behaviour; a decimal is kept as its digits and its power of ten, and the printer covers trees without doubles.
- Malformed string literals (a backslash at the end of the text, `\u` without four hexadecimal digits; section 7 of RFC 8259): the parser functions report them as undefined, and the methods require that they do not occur. An unterminated literal is accepted, as the code does.
- Integers of 2^64 and more in a text: the conversion of the accumulator is modelled modulo 2^64.
- `int` length counters of the JSON engine are unbounded integers, and allocation always succeeds.
- Buffers that printing allocates and frees on the way are not entered in the ledger of allocated objects; the two pointer arrays of print_array and print_object are sequences.
- cJSON_IsReference nodes, the allocator hooks, the remaining typed constructors and the near-identical typed overloads of the wrapper.
- The wrapper's string-keyed index, the float and double overloads, and destructors of evicted wrappers; array sizes are not wrapped at 2^31.
- ArrayCache.Add: takes the text of the argument wrapper, which CJsonObject.ToString produces, and requires that the parser defines it.
- ArrayCache.AddAsFirst: the same.
- ArrayCache.ReplaceAt: the same.
- ChildEdits.Run: requires keys that are allocated when they are read; ChildEdits.Step says what the one other case does.
- ArrayCacheRuns.Run: requires safe operations; ArrayCacheRuns.Do says what an unsafe one does.
- JsonBuffers.RunParseString: requires a literal without malformed escapes; what the code reads then is not initialized.
- JsonNodeParser.ParseInto: requires a text whose parse meets no malformed escape.
- JsonNodeParser.ParseStringInto: the same.
- JsonNodeParser.ParseItemsInto: the same.
- JsonNodeParser.ParseArrayInto: the same.
- JsonNodeParser.ParseMemberBody: the same.
- JsonNodeParser.ParseObjectInto: the same.
- JsonNodeParser.ParseTree: the same.
- JsonNodeParser.ParseThenDelete: the same.
- Wrapper.CJsonObject.Parse: the same.
- JsonNodePrinter.PrintValue: requires a tree without doubles, whose text is a matter of `%f`.
- JsonNodePrinter.CollectMembers: the same.
- Wrapper.CJsonObject.ToString: requires that the wrapped tree has no doubles and that its members have keys.
- Wrapper.CJsonObject.Equals: the same for both trees.
- Wrapper.CJsonObject.Assign: the same for the source.
- Wrapper.CJsonObject.GetMember: the same for the member that is copied.
- Wrapper.CJsonObject.GetElement: the same for the element that is copied.
- Timers.NetTimerManager.HandleExpireTimers: the callback is the one the server installs; callbacks that add timers are not modelled, nor are the manager's lock and the calls of delTimer that other threads make without it; every call is one event.
- TaskQueues.TaskQueue.Front: of several tasks of highest priority the model shows the first, where the standard library leaves the choice open.
- PoolLiveness.ShutdownCanFinish: that a schedule lets every thread move again and again is not part of the model; running a task is one step, so every task ends.
- Eviction.Cache.Consider: requires a strict weak order, as the standard library does; what the heap selects otherwise is unspecified.
- Eviction.Cache.FreePart: the same.
- HttpText.ParsingInvertsRendering: truncated and pipelined input and the cursor position behind a body are not covered; the body of a POST has the announced length.
- HttpText.AtoiIsNumeral: numbers outside the range of `int`, for which the standard library leaves the result open, are kept as they are.
- HttpRequest.NetHTTPRequest.ParseRequest: requires that the loop ends and that the announced body lies in the buffer, which HttpText.StuckIff and HttpText.OutsideIff decide; an empty buffer, whose first element the code takes the address of, is treated as having no CRLF.
- The rest of main_job (file mapping, response writing, iterator reuse) and the write path of the book server.
- Thread and Runnable lifetimes, repeated or concurrent shutdown calls, and the starting values of the pool's counters, which the constructor does not set.
- Sockets, epoll, message queues, MySQL, Redis, logging, menus, scripts, and the second pool in `src/include/thread_pool/thread_pool.h`, which would only add easier claims.
