# uvcc: trees, references and flow control

This project models two parts of the repository and proves what they promise.

**The intrusive search trees of `tree.h`**, from which libuv builds its timer tree.

- `TreeNode.dfy`: the node with its links, and what the macros ask of their `cmp` parameter: the sign of its result is that of a total preorder on the keys.
- `OrderedSet.dfy`: the specification of both trees, on the ascending sequence of their nodes, and what it means.
- `RbModel.dfy`, `RbLinks.dfy`, `RedBlackTree.dfy`: the red-black tree. `RedBlackTree.Head` changes the links and colours of real nodes in place, macro by macro. A ghost tree and a ghost path say where the program is; `RbModel` has the fix-up steps on them, `RbLinks` ties them to the links.
- `SplayModel.dfy`, `SplayTree.dfy`: the top-down splay tree with the header node on the stack, whose two links collect the left and the right tree.

**The layer that uvcc puts on libuv.** Each file has a class that works in place, the functions that specify its methods, and then a step system over which the main results are stated for all runs. What the specifying functions do is stated a second time, without them, by lemmas on the states before and after (`...Effects`). libuv is an environment: it accepts or refuses a call, and calls back later. Atomic operations are sequentially consistent.

- `Wrappers.dfy`: an optional value.
- `RefCount.dfy`: the atomic counter, alone and in every interleaving of any number of threads.
- `ReadCommand.dfy`, `CommandThreads.dfy`: the read commands of an I/O endpoint against the table in the documentation of `read_resume()`, and the same commands from any number of threads, one memory access at a time, under the spinlock.
- `FileReadChain.dfy`: reading from a file as a chain of single requests, each armed by the callback of the one before.
- `CpioFlow.dfy`: the water marks of the copying example. `TeeFlow.dfy`, `TeePool.dfy`, `TeeEffects.dfy`, `TeeMarks.dfy`, `TeeStall.dfy`: those of tee, with its counter of bytes and its pool of buffers keyed on `nrefs() == 1`.
- `WriteQueue.dfy`: the number of bytes on their way to a file, in the arithmetic of `std::size_t`.
- `Ownership.dfy`, `Counting.dfy`, `Ledger.dfy`: the ledger of references on loops, handles, requests and buffers. `StepEffects.dfy`: what every step does besides counting. `RequestLifetime.dfy`: what a request keeps alive, and what its callback gets. `HandleLifetime.dfy`: when a handle that is read from is deleted too soon.
- `BufferLayout.dfy`, `BufferPool.dfy`: the single allocation behind a buffer, and the pool of tee2 that the sink callbacks feed.

The model states these assumptions about the client. A request is not run again while it is out. The client has a variable for every object it runs a request on; the parameters of a running callback are such variables. It also keeps a variable, other than the parameters of callbacks, for every handle that it reads from, until the last read is over and its callback has returned; `HandleLifetime.UsedAfterDeletion` proves exactly which steps use a deleted handle, and `HandleLifetime.VariablesAreEnough` that such a variable is enough. The ledger itself covers the runs without it, up to the step that uses a deleted handle. For a file, no command that arms the chain is given while a read is out or inside a read callback that delivers data; inside a callback at the end of the file or with an error, a command may arm the chain if no read is out then, and no read may be out at the end of that callback in a reading state. `FileReadChain.CommandExact` and `FileReadChain.CallbackExact` prove that this is exactly what the results need. The programs meet it: cpio and tee stop and pause inside the callback (`FileReadChain.InCallbackIsGentle`), and tee resumes with no read out (`TeeMarks.PausedHasNoRead`). The allocation callback returns a buffer that is not empty.

Where the code and what one would expect of it differ, the code is modelled and the exact condition is proved:

- tee does not take a failed file write off its counter, nor resume its input after one. It stalls if and only if failed writes have left more than the lower mark (`TeeMarks.LastCompletion`, `TeeStall.StallExists`).
- `try_write()` proceeds if and only if the sizes recorded by the requests that are out add up to a multiple of 2^64 (`WriteQueue.TryWriteProceeds`). It waits neither for writes of empty buffers (`WriteQueue.EmptyWriteIsNotSeen`) nor for requests whose sizes wrap around to 0, such as two sendfiles with lengths of 2^64 - 1 and 1 (`WriteQueue.WrappedSizesAreNotSeen`).
- When libuv refuses to read from a file, the reference on the buffer that the allocation callback has just handed out is never given back (`FileReadChain.File.FileRead`: the buffer counts as leaked). A pool keyed on `nrefs() == 1` loses that buffer for good (`TeeMarks.PoolIsSafe`: `lost`).
- A read that is out from a file has no reference on the file, `read_stop()` does not cancel it, and the request lies inside the instance. So a file that is stopped and let go while a read is out is deleted, and the completion uses it (`HandleLifetime.DeletedBeforeCompletion`). The caller of the read callback has no reference either: if the reading has the last one and the callback stops it, the handle is deleted with the parameter of the callback, and its caller goes on with it (`HandleLifetime.DeletedInCallback`). These are the only ways (`HandleLifetime.UsedAfterDeletion`).
- When libuv refuses to arm the chain again after a read, the file stays in a reading state with no read out and the extra reference held, and `read_resume()` is refused (`FileReadChain.ChainBreaks`). This lasts until a start, a pause or a stop (`FileReadChain.BrokenLasts`).
- The memory of a buffer is aligned, and ends where the allocation ends, only if the compiler puts no padding after the last field of an instance (`BufferLayout.ChunksAligned`, `BufferLayout.ChunksEnd`; `BufferLayout.TailNotAligned` is a layout that fails).
- From the base of the first of several chunks `from()` recovers the descriptors if and only if the additional ones fit into the padding that one of them would leave (`BufferLayout.FromRecovers`): never if a descriptor is a multiple of the strictest alignment long, as where both are 16 (`BufferLayout.FromNeverRecovers`). `BufferLayout.TwoChunksNotRecovered` is a layout that fails.
- `SPLAY_REMOVE` returns the node it was given when it has removed one with an equal key, which may be another node.

## Model

| member | source | states |
|---|---|---|
| OrderedSet.LookupMeaning | libuv-x64-v1.9.1.build10/include/tree.h:628-644 | Lookup gives a node with an equal key, and null if and only if there is none |
| OrderedSet.InsertMeaning | libuv-x64-v1.9.1.build10/include/tree.h:597-626 | inserting an absent key keeps the ascending order and adds exactly that node |
| OrderedSet.RemoveMeaning | libuv-x64-v1.9.1.build10/include/tree.h:187-207 | removing a key keeps the ascending order and drops exactly the node with that key |
| OrderedSet.WithoutMeaning | libuv-x64-v1.9.1.build10/include/tree.h:748-751 | what the safe loop leaves are exactly the nodes that are not to be removed |
| RbModel.PlugRedBlack | libuv-x64-v1.9.1.build10/include/tree.h:53-61 | a tree in a path with matching black heights and no red pair makes one red-black tree |
| RbModel.RecolorInv | libuv-x64-v1.9.1.build10/include/tree.h:416-421 | with a red uncle, recolouring moves the one possible red pair up two levels and keeps all black heights |
| RbModel.InsertTurnOutward | libuv-x64-v1.9.1.build10/include/tree.h:422-427 | rotating at the parent turns an inner red child into an outer one and keeps the invariant |
| RbModel.InsertRotateRight | libuv-x64-v1.9.1.build10/include/tree.h:428-429 | with a black uncle, lifting the painted parent over the grandparent keeps the invariant, now below a black node, so that the loop ends |
| RbModel.ShortSibling | libuv-x64-v1.9.1.build10/include/tree.h:456-464 | beside a subtree that lacks a black node there is a sibling; if it is red it has two children, and if it is black its children are as high as the short subtree |
| RbModel.RemoveRedSibling | libuv-x64-v1.9.1.build10/include/tree.h:460-464 | rotating a red sibling up leaves the short subtree with a black sibling and a red parent |
| RbModel.RemoveRecolor | libuv-x64-v1.9.1.build10/include/tree.h:465-471 | with two black nephews, reddening the sibling moves the lack of a black node to the parent |
| RbModel.RemoveTurnOutward | libuv-x64-v1.9.1.build10/include/tree.h:473-482 | turning a near red nephew outwards keeps the removal invariant |
| RbModel.RemoveLast | libuv-x64-v1.9.1.build10/include/tree.h:483-489 | with a far red nephew, one rotation ends with all black heights equal |
| RbModel.HeightBound | libuv-x64-v1.9.1.build10/include/tree.h:53-61 | two to the height of a red-black tree is at most the square of its size plus one |
| RbLinks.RotateLeftFocus | libuv-x64-v1.9.1.build10/include/tree.h:342-360 | the link updates of a left rotation represent the rotated tree in the same surroundings |
| RbLinks.RotateRightFocus | libuv-x64-v1.9.1.build10/include/tree.h:362-380 | the link updates of a right rotation represent the rotated tree in the same surroundings |
| RbLinks.TakeOverFocus | libuv-x64-v1.9.1.build10/include/tree.h:543-579 | after the successor has copied the links of the removed node, links and parent links represent the tree with the successor in its place |
| RedBlackTree.Head.RotateLeft | libuv-x64-v1.9.1.build10/include/tree.h:342-360 | rotates the nodes in place, parent links and root included |
| RedBlackTree.Head.RotateRight | libuv-x64-v1.9.1.build10/include/tree.h:362-380 | rotates the nodes in place, parent links and root included |
| RedBlackTree.Head.InsertColor | libuv-x64-v1.9.1.build10/include/tree.h:407-449 | from a tree with one new red leaf the fix-up terminates with a red-black tree and the same order |
| RedBlackTree.Head.RemoveColor | libuv-x64-v1.9.1.build10/include/tree.h:451-528 | from a tree with one short subtree the fix-up terminates, never at a null sibling, with a red-black tree and the same order |
| RedBlackTree.Head.Insert | libuv-x64-v1.9.1.build10/include/tree.h:597-626 | returns the node with an equal key and changes nothing, or returns null and the order is the old one with the new node at its place; the tree is valid again |
| RedBlackTree.Head.Remove | libuv-x64-v1.9.1.build10/include/tree.h:530-595 | for any node of any valid tree: a valid tree whose order is the old one without that node |
| RedBlackTree.Head.Balanced | libuv-x64-v1.9.1.build10/include/tree.h:407-626 | every valid tree, hence every tree that inserting and removing makes, has a height of at most 2 lg(n + 1) |
| RedBlackTree.Head.Find | libuv-x64-v1.9.1.build10/include/tree.h:628-644 | returns the node with an equal key, or null if there is none |
| RedBlackTree.Head.NFind | libuv-x64-v1.9.1.build10/include/tree.h:646-665 | returns the least node not below the key, or null if all are below |
| RedBlackTree.Head.MinMax | libuv-x64-v1.9.1.build10/include/tree.h:711-724 | returns the first or the last node, or null in an empty tree |
| RedBlackTree.Head.Next | libuv-x64-v1.9.1.build10/include/tree.h:667-687 | returns the node that follows in order, or null at the end |
| RedBlackTree.Head.Prev | libuv-x64-v1.9.1.build10/include/tree.h:689-709 | returns the node that comes before in order, or null at the beginning |
| RedBlackTree.Head.NextThenPrev | libuv-x64-v1.9.1.build10/include/tree.h:667-709 | RB_PREV undoes RB_NEXT at every node but the last |
| RedBlackTree.Head.PrevThenNext | libuv-x64-v1.9.1.build10/include/tree.h:667-709 | RB_NEXT undoes RB_PREV at every node but the first |
| RedBlackTree.Head.Foreach | libuv-x64-v1.9.1.build10/include/tree.h:738-741 | the loop visits exactly the in-order sequence |
| RedBlackTree.Head.ForeachReverse | libuv-x64-v1.9.1.build10/include/tree.h:753-756 | the loop visits exactly the reverse of the in-order sequence |
| RedBlackTree.Head.ForeachSafe | libuv-x64-v1.9.1.build10/include/tree.h:748-751 | with a body that removes the current node whenever it is in a given set, the loop visits exactly the in-order sequence it found, and leaves a valid tree of exactly the nodes that are not in the set, in their order |
| SplayModel.AssembledKeeps | libuv-x64-v1.9.1.build10/include/tree.h:112-117 | assembling left tree, middle and right tree keeps the order and the set of nodes |
| SplayTree.LinkRightParts | libuv-x64-v1.9.1.build10/include/tree.h:100-104 | hanging the middle tree into the right tree, through the header if that is empty, moves the focus to its left child |
| SplayTree.LinkLeftParts | libuv-x64-v1.9.1.build10/include/tree.h:106-110 | hanging the middle tree into the left tree, through the header if that is empty, moves the focus to its right child |
| SplayTree.AssembleRep | libuv-x64-v1.9.1.build10/include/tree.h:112-117 | the four link updates represent the assembled tree, although left and right may both be the header |
| SplayTree.Head.Splay | libuv-x64-v1.9.1.build10/include/tree.h:209-242 | terminates with the same order and the same nodes, every node left of the root below the key and every node right of it above |
| SplayTree.PresentIsRoot | libuv-x64-v1.9.1.build10/include/tree.h:209-242 | a node with the key that was splayed for is the root |
| SplayTree.Head.SplayMinMax | libuv-x64-v1.9.1.build10/include/tree.h:247-278 | terminates with the same order and the first or the last node at the root |
| SplayTree.NoRight | libuv-x64-v1.9.1.build10/include/tree.h:196-203 | splaying the left subtree towards the removed key leaves the right link of its root empty |
| SplayTree.Head.Find | libuv-x64-v1.9.1.build10/include/tree.h:127-137 | returns the node with an equal key or null, and keeps the order |
| SplayTree.Head.Insert | libuv-x64-v1.9.1.build10/include/tree.h:163-185 | returns the node with an equal key and keeps the order, or returns null and the order has the new node at its place |
| SplayTree.Head.Remove | libuv-x64-v1.9.1.build10/include/tree.h:187-207 | the order loses the node with an equal key; returns the argument if there was one, otherwise null |
| SplayTree.Head.MinMax | libuv-x64-v1.9.1.build10/include/tree.h:153-158 | returns the first or the last node, or null in an empty tree |
| SplayTree.Head.Next | libuv-x64-v1.9.1.build10/include/tree.h:139-151 | returns the node that follows in order, or null at the end, while it restructures the tree |
| SplayTree.Head.Foreach | libuv-x64-v1.9.1.build10/include/tree.h:292-295 | the loop terminates and visits every node exactly once in ascending order |
| SplayTree.Head.ApplyAll | libuv-x64-v1.9.1.build10/include/tree.h:127-207 | any sequence of inserts, removes and finds has the results and the final contents of the ordered set |
| RefCount.Counter.Inc | src/include/uvcc/utility.hpp:252-260 | throws on 0 and otherwise adds one, through any number of spurious failures |
| RefCount.Counter.Dec | src/include/uvcc/utility.hpp:262-266 | takes one off and returns what is left |
| RefCount.EveryRun | src/include/uvcc/utility.hpp:229-267 | in every interleaving no thread that owns a reference when it would throw ever throws, because a thread that has read 0 owns none and the count is dead; the count is the number of references owned, and exactly one dec() returns 0 if the count is 0 |
| RefCount.EveryCallCounts | src/include/uvcc/utility.hpp:252-266 | in every interleaving, whatever fails spuriously, each inc() of a thread that neither threw nor is still going on has given it one reference, and each dec() has taken one |
| RefCount.CallEnds | src/include/uvcc/utility.hpp:252-260 | an inc() ends only by throwing at 0 or by exchanging the value that it has loaded, which adds one; otherwise it goes on with the value it sees |
| RefCount.DeadStaysDead | src/include/uvcc/utility.hpp:252-266 | once it is 0 the count never leaves 0 |
| ReadCommand.Io.ReadStart | src/include/uvcc/handle-io.hpp:191-228 | does what the table says for "start" and "restart" |
| ReadCommand.Io.ReadStop | src/include/uvcc/handle-io.hpp:254-278 | does what the table says for "stop" |
| ReadCommand.Io.ReadPause | src/include/uvcc/handle-io.hpp:289-313 | does what the table says for "pause", or is refused with 1 or 2 |
| ReadCommand.Io.ReadResume | src/include/uvcc/handle-io.hpp:346-380 | does what the table says for "resume", or is refused with 1 or 2 |
| ReadCommand.HistoryLaw | src/include/uvcc/handle-io.hpp:315-345 | after any history the state is that of the last effective command, and the extra reference is held exactly in START and RESUME |
| ReadCommand.RefusedChangesNothing | src/include/uvcc/handle-io.hpp:326-341 | a refused command changes nothing but the reported status |
| ReadCommand.ResumeOnlyAfterPause | src/include/uvcc/handle-io.hpp:346-380 | from any state "resume" calls libuv if and only if its condition holds and the last command was "pause"; otherwise it changes nothing and returns 1 or 2 |
| ReadCommand.StartEffects | src/include/uvcc/handle-io.hpp:191-228 | stops a reading endpoint first, asks libuv to start, stores the size, and without success leaves no command and no reference |
| ReadCommand.StopEffects | src/include/uvcc/handle-io.hpp:254-278 | always asks libuv to stop and reports what it says; a reading endpoint gives its reference back |
| ReadCommand.PauseEffects | src/include/uvcc/handle-io.hpp:289-313 | does the same to a reading endpoint if its condition holds, and otherwise nothing, with 1 or 2 |
| ReadCommand.PauseResume | src/include/uvcc/handle-io.hpp:326-341 | "pause" gives back the reference of a reading endpoint and "resume" takes it again, unless libuv refuses to read |
| CommandThreads.BodyIsExec | src/include/uvcc/handle-io.hpp:191-380 | the single memory accesses of each command, without interference, amount to its table entry |
| CommandThreads.Linearizable | src/include/uvcc/utility.hpp:304-329 | every interleaving under the spinlock returns what a sequential order of the same commands returns and leaves the same state, and that order is made of each thread's own calls in the order in which it made them |
| CommandThreads.HistoryIsCalls | src/include/uvcc/handle-io.hpp:191-380 | the commands a thread has in the order, with the one it is still executing, are its calls; and the order only grows |
| CommandThreads.ThreadsHistoryLaw | src/include/uvcc/handle-io.hpp:191-380 | the history law holds for commands from any number of threads |
| FileReadChain.File.FileRead | src/include/uvcc/handle-fs.hpp:179-192 | a request at the current offset into a new buffer, which is lost if libuv refuses the request |
| FileReadChain.File.ReadCb | src/include/uvcc/handle-fs.hpp:226-258 | delivers the data at the old offset, or gives the buffer back, then moves the offset and arms the chain in a reading state |
| FileReadChain.File.ReadStart | src/include/uvcc/handle-fs.hpp:67-86 | begins at the given offset, or at the position of the file for a negative one |
| FileReadChain.ArmEffects | src/include/uvcc/handle-fs.hpp:179-192 | one read more is out, into the next buffer and at the current offset; or the buffer is lost |
| FileReadChain.StartEffects | src/include/uvcc/handle-io.hpp:191-228 | stores size and offset, begins a session there and sends out its first read |
| FileReadChain.CommandEffects | src/include/uvcc/handle-io.hpp:254-380 | a stop and a pause only store themselves; a resume after a pause sends out a read where the session is |
| FileReadChain.CompletionEffects | src/include/uvcc/handle-fs.hpp:226-258 | with data, the callback gets the bytes of the file at the offset of the read, in its buffer, and the next read is for the bytes behind them; without, the buffer is given back |
| FileReadChain.EveryRun | src/include/uvcc/handle-fs.hpp:67-86 | in every run at most one read is out, and in a reading state exactly one unless libuv has refused it; the chunks are contiguous and are exactly the bytes of the file they cover; every buffer is handed over, given back, lost or in use |
| FileReadChain.SameBytes | src/include/uvcc/handle-io.hpp:119-136 | runs from one offset deliver the same bytes, whatever is paused and resumed |
| FileReadChain.CommandExact | src/include/uvcc/handle-io.hpp:191-380 | in a state that a run can keep, a command keeps it if and only if it does not arm the chain while a read is out |
| FileReadChain.CallbackExact | src/include/uvcc/handle-fs.hpp:226-258 | the commands inside a callback keep the state if and only if: with data, none of them arms the chain; at the end of the file or with an error, none arms it while a read is out, and no read is out at the end in a reading state |
| FileReadChain.InCallbackIsGentle | example/tee1.cpp:87-116 | stopping and pausing inside the callback never arms the chain |
| FileReadChain.ResumeInsideCallback | src/include/uvcc/handle-io.hpp:119-136 | resuming inside the callback reads the same offset twice |
| FileReadChain.ResumeWhileReading | src/include/uvcc/handle-io.hpp:346-380 | pausing and resuming while a read is out leaves two for one offset |
| FileReadChain.StartAtEnd | src/include/uvcc/handle-fs.hpp:226-258 | a start inside the callback at the end of the file or with an error leaves two reads out for one offset |
| FileReadChain.ChainBreaks | src/include/uvcc/handle-fs.hpp:243-257 | where libuv refuses the next read, the state stays a reading one with no read out and a buffer lost |
| FileReadChain.BrokenLasts | src/include/uvcc/handle-fs.hpp:243-257 | this lasts, whatever is resumed, until a start, a pause or a stop |
| CpioFlow.Program.ReadCb | example/cpio-uvcc.cpp:61-84 | starts a write and pauses at the upper mark, or stops |
| CpioFlow.Program.WriteCb | example/cpio-uvcc.cpp:87-101 | resumes at the lower mark, or stops after a failure |
| CpioFlow.ReadEffects | example/cpio-uvcc.cpp:61-84 | an end of the input, an error or a refused write stops the reading; an accepted write is in the queue, and pauses the input at the upper mark |
| CpioFlow.WriteEffects | example/cpio-uvcc.cpp:87-101 | the write is off the queue; success resumes a paused input at the lower mark, failure stops it |
| CpioFlow.BoundedAndDue | example/cpio-uvcc.cpp:61-101 | in every run, also where a read still ends after the reading was stopped, the queue is bounded, and a paused input has a completion to wait for and no read out |
| CpioFlow.LastCompletionLeavesPause | example/cpio-uvcc.cpp:87-101 | the last completion always leaves the pause, and reading goes on exactly if it succeeded and libuv starts to read |
| TeeFlow.Program.AllocCb | example/tee1.cpp:127-144 | hands out the first spare buffer with its capacity restored, or a new one |
| TeeFlow.Program.ReadCb | example/tee1.cpp:87-116 | starts a write to standard output and pauses at the upper mark, or stops |
| TeeFlow.Program.WriteToFiles | example/tee1.cpp:172-185 | starts the writes of FanOut, one for each file that accepts it |
| TeeFlow.Program.WriteToStdoutCb | example/tee1.cpp:149-167 | fans a written buffer out to the files and resumes at the lower mark, or stops; a file that is resumed asks for its next buffer while the callback still has its own |
| TeeFlow.Program.WriteToFileCb | example/tee1.cpp:188-200 | takes a successful write off the counter and resumes at the lower mark; a failed one does neither |
| TeeEffects.FanOut | example/tee1.cpp:172-185 | behind the writes that are out there is exactly one write of the buffer, with its length, for each file that accepts it, in the order of the files; the counter grows by the length for each, and the buffer has a reference more for each |
| TeeEffects.ReadEffects | example/tee1.cpp:87-116 | exactly the bytes that were read are written to standard output; an end of the file, an error or a refused write stops the reading; the input is paused at the upper mark |
| TeeEffects.WriteEffects | example/tee1.cpp:149-167 | the write is off the queue; success fans it out and resumes a paused input at the lower mark, failure stops it |
| TeeEffects.FileWriteEffects | example/tee1.cpp:188-200 | success takes exactly the size of the write off the counter and resumes at the lower mark; failure does neither |
| TeeEffects.AllocEffects | example/tee1.cpp:127-144 | the first buffer on which only the pool has a reference, or a new one, with its capacity and one reference for the reader; no other buffer changes |
| TeeMarks.WritePotential | example/tee1.cpp:149-185 | turning a buffer at standard output into one for every file does not raise the weighted potential |
| TeeMarks.Bounded | example/tee1.cpp:87-200 | in every run all pending bytes together stay within max(1, files) times the upper mark minus one plus a buffer, and the counter is what is out to the files plus what failed writes left |
| TeeMarks.PoolIsSafe | example/tee1.cpp:127-144 | a buffer looks spare exactly when nothing uses it, and no pending write sees its length change |
| TeeMarks.PausedHasNoRead | example/tee1.cpp:149-200 | a paused input has no read out, and a completion changes the command only by stopping or out of a pause, so that whatever it resumes never meets a read but the one it asks for itself |
| TeeMarks.PausedIsDue | example/tee1.cpp:149-200 | a paused input has a completion to wait for unless failed writes have left more than the lower mark |
| TeeMarks.LastCompletion | example/tee1.cpp:149-200 | the last completion leaves the pause if and only if it is a failed write to standard output or failed writes have left no more than the lower mark |
| TeeMarks.NoStall | example/tee1.cpp:95-114 | if no write to a file fails, a paused input always has a completion to wait for |
| TeeMarks.LeakedForEver | example/tee1.cpp:188-200 | if failed writes have left more than the lower mark, a pause lasts for ever unless standard output fails |
| TeeStall.StallExists | example/tee1.cpp:188-200 | with one file whose writes fail there is a run that ends in such a pause with nothing due |
| WriteQueue.Files.RunWrite | src/include/uvcc/request-fs.hpp:483-552 | the request is out if and only if libuv accepts it, and then the length of all chunks is added to the queue; otherwise the queue is as it was |
| WriteQueue.Files.Run | src/include/uvcc/request-fs.hpp:977-1043 | the request is out if and only if libuv accepts it, and then the length is added to the queue if the target is a file; otherwise all queues are as they were |
| WriteQueue.Files.WriteCb | src/include/uvcc/request-fs.hpp:597-617 | takes off what the request recorded, whatever was written |
| WriteQueue.Files.TryWrite | src/include/uvcc/request-fs.hpp:561-590 | refuses if and only if the queue is not empty |
| WriteQueue.RunStepEffects | src/include/uvcc/request-fs.hpp:483-552 | in a run, a write or sendfile that is accepted is out with its target and size recorded, and its size is in the queue; one that is refused is not out and changes no queue |
| WriteQueue.CompleteEffects | src/include/uvcc/request-fs.hpp:597-617 | a completed request is not out any more, and exactly its recorded size leaves the queue of its target |
| WriteQueue.SumIsLength | src/include/uvcc/request-fs.hpp:514-515 | the recorded size is the length of all chunks, modulo the word size |
| WriteQueue.QueueIsSum | src/include/uvcc/request-fs.hpp:514-550 | in every run the queue size is the sum of what the requests that are out recorded, whatever becomes of the buffers meanwhile |
| WriteQueue.TryWriteProceeds | src/include/uvcc/request-fs.hpp:561-565 | try_write() proceeds if and only if the sizes recorded by the requests that are out to the file add up to a multiple of 2^64; below 2^64, if and only if all of them recorded no bytes |
| WriteQueue.EmptyWriteIsNotSeen | src/include/uvcc/request-fs.hpp:561-565 | a write of an empty buffer that is out does not hold it up |
| WriteQueue.WrappedSizesAreNotSeen | src/include/uvcc/request-fs.hpp:1025-1038 | two sendfiles that are out with lengths that add up to 2^64 do not hold it up |
| Ownership.Program.CopyAssign | src/include/uvcc/handle-base.hpp:227-237 | the variable refers to what the other refers to, whose new reference is taken before the old one is given back |
| Ownership.Program.MoveAssign | src/include/uvcc/request-base.hpp:156-166 | the variable refers to what the other referred to, which is void now, and the old reference is given back; nothing on self-assignment |
| Ownership.Program.Run | src/include/uvcc/request-stream.hpp:186-252 | takes the references of RunTakes, and gives them back if libuv refuses |
| Ownership.Program.Complete | src/include/uvcc/request-stream.hpp:267-288 | the callback gets a variable for the request and one that takes over the reference on the buffer; all others are given back when it returns, or all at once if there is no callback any more |
| Ownership.Program.Return | src/include/uvcc/handle-io.hpp:126-135 | drops the two parameters, whatever the callback has made of them, and then the other references; the caller of a read callback then goes on with the handle, deleted or not |
| Ownership.Program.Allocate | src/include/uvcc/handle-io.hpp:108-117 | the handle takes a reference on the buffer that the allocation callback returned, which is lost if libuv refuses to read from the file |
| Ownership.Program.ReadDone | src/include/uvcc/handle-io.hpp:119-136 | uses the handle, deleted or not: the callback gets a variable for it and one that takes over the reference on the buffer, or a new buffer when the unused one has been given back |
| Ownership.Program.OpenHandle | src/include/uvcc/handle-base.hpp:179-187 | a handle that libuv has initialised takes a reference on its loop |
| Ownership.Program.Unref | src/include/uvcc/handle-base.hpp:171-177 | with the last reference the instance is deleted at once, and a booked handle gives its reference on the loop back, which may delete the loop |
| Ownership.Program.UnbookLoop | src/include/uvcc/handle-base.hpp:188-198 | ends the booking and takes the reference off the loop |
| StepEffects.VariableSteps | src/include/uvcc/request-base.hpp:113-166 | what the variables refer to after a copy, a move, either assignment, a swap and a destruction; nothing else changes but counts and the bookings of handles that die |
| StepEffects.SelfAssignment | src/include/uvcc/handle-base.hpp:227-237 | assigning a variable to itself and swapping it with itself change nothing |
| StepEffects.VariableCounts | src/include/uvcc/handle-base.hpp:215-237 | in every run these change the count of an object by exactly what changes in the number of variables that refer to it |
| StepEffects.CreationSteps | src/include/uvcc/handle-base.hpp:179-187 | a new object is live with the new variable as its only reference, and booked if it is an opened handle |
| StepEffects.StartAndStop | src/include/uvcc/handle-io.hpp:191-278 | a start and a stop mark one handle as read from or not, and nothing else |
| StepEffects.Supplied | src/include/uvcc/handle-io.hpp:108-117 | a supplied buffer waits behind those that the handle has, or is lost |
| StepEffects.ReadEnds | src/include/uvcc/handle-io.hpp:119-136 | the callback gets variables for the handle and for the buffer that waited longest, or a new one without data |
| StepEffects.CallbackEnds | src/include/uvcc/request-stream.hpp:267-288 | the two parameters are void, and the callback is no longer running |
| RequestLifetime.RunTakes | src/include/uvcc/request-stream.hpp:186-252 | an accepted request has one reference on itself and one on each object that its operation names, and nothing else changes |
| RequestLifetime.LiveUntilCompleted | src/include/uvcc/request-stream.hpp:186-252 | in every run, whatever variables are destroyed, the request and each object that its operation names are live from the acceptance until the completion |
| RequestLifetime.CallbackGets | src/include/uvcc/request-stream.hpp:267-288 | the callback gets the request and the buffer that it was run on, and its caller holds on to everything else |
| RequestLifetime.LiveUntilReturned | src/include/uvcc/request-stream.hpp:267-288 | which is live until the callback returns, whatever it does |
| Ledger.CountIsReferences | src/include/uvcc/handle-base.hpp:126-198 | in every run, with whatever the callbacks do with their parameters, each count is the number of variables, uses and bookings and of the references lost with refused reads, plus one while reading; an object is live exactly as long as that is not 0 and is destroyed exactly once |
| Ledger.NothingDiesTooSoon | src/include/uvcc/loop.hpp:146-157 | no loop dies before a handle booked on it, nothing that a pending request uses dies before its callback, a buffer not before the read into it is over, and a handle not while it is read from |
| Ledger.VariablesAreSafe | src/include/uvcc/request-base.hpp:113-166 | no variable refers to a destroyed object |
| Ledger.AlwaysWellFormed | src/include/uvcc/request-base.hpp:113-166 | no reference of a variable, a request or a callback dangles |
| Ledger.ParametersCanBeUsed | example/cpio-uvcc.cpp:61-84 | inside a callback the request can be run again, and others can be run, on the buffer it was called with |
| Ledger.RefusedRunUndone | src/include/uvcc/request-fs.hpp:533-548 | a refused request leaves the whole state as it was |
| Ledger.ClearedCallback | src/include/uvcc/request-fs.hpp:612-617 | a callback cleared while the request was out gives back what an idle callback gives back |
| HandleLifetime.HandleLives | src/include/uvcc/handle-base.hpp:166-177 | whatever has happened, a handle is live if and only if it is read from or a variable, a request or a callback has a reference on it |
| HandleLifetime.UsedAfterDeletion | src/include/uvcc/handle-fs.hpp:226-258 | in every run a step uses a deleted handle if and only if it ends a read from a handle that nobody has a reference on, or ends a read callback after which nobody has one |
| HandleLifetime.VariablesAreEnough | src/include/uvcc/handle-fs.hpp:226-258 | no step does if the client has a variable, other than the parameters of callbacks, for every handle with a read out or a read callback running |
| HandleLifetime.DeletedBeforeCompletion | src/include/uvcc/handle-fs.hpp:88 | a run in which a file is stopped and let go while a read is out, and the completion uses it |
| HandleLifetime.DeletedInCallback | src/include/uvcc/handle-io.hpp:126-135 | a run in which the callback stops a file that only its reading has a reference on, and the caller of the callback uses it |
| BufferLayout.MaskClears | src/include/uvcc/buffer.hpp:107-112 | masking with ~(A - 1) takes the remainder off, for every power of two and every word width |
| BufferLayout.RoundUpIsLeast | src/include/uvcc/buffer.hpp:107-112 | the rounding gives the least multiple that is not below its argument |
| BufferLayout.Instance.constructor | src/include/uvcc/buffer.hpp:70-95 | the stored descriptors: without any memory all are null; otherwise each has the length of its chunk, the first begins behind the descriptors and the padding, and each next one where the one before ends |
| BufferLayout.BasesIfMemory | src/include/uvcc/buffer.hpp:70-95 | every stored descriptor has a base if and only if some chunk is not empty, and it has the length that was asked for |
| BufferLayout.ChunksFit | src/include/uvcc/buffer.hpp:58-95 | every stored chunk lies after the descriptors and within the allocation, and ends where the next begins |
| BufferLayout.ChunksApart | src/include/uvcc/buffer.hpp:70-95 | no two stored chunks overlap |
| BufferLayout.ChunksEnd | src/include/uvcc/buffer.hpp:58-95 | the last chunk ends with the allocation if and only if nothing follows the last field of an instance |
| BufferLayout.ChunksAligned | src/include/uvcc/buffer.hpp:84-112 | the memory is aligned if and only if what follows the last field is a multiple of the alignment |
| BufferLayout.FromRecovers | src/include/uvcc/buffer.hpp:144-150 | from() recovers the descriptor from the stored base of a buffer of one chunk, and with more chunks if and only if the additional descriptors fit into the padding that one of them would leave |
| BufferLayout.FromNeverRecovers | src/include/uvcc/buffer.hpp:144-150 | it recovers them from no buffer of several chunks if a descriptor is a multiple of the alignment long |
| BufferLayout.TwoChunksNotRecovered | src/include/uvcc/buffer.hpp:144-150 | a layout with aligned chunks that end with the allocation, and two chunks from which they are not recovered |
| BufferLayout.TailNotAligned | src/include/uvcc/buffer.hpp:84-112 | a layout with something after the last field, whose chunks are neither aligned nor end with the allocation |
| BufferPool.Buffer.Destroy | src/include/uvcc/buffer.hpp:114-131 | the buffer lives on if and only if the sink keeps a reference, and with exactly those |
| BufferPool.Buffer.Unref | src/include/uvcc/buffer.hpp:152-153 | only the last reference destroys |
| BufferPool.BufferPool.constructor | example/tee2.cpp:142-147 | fills the pool with the initial number of buffers |
| BufferPool.BufferPool.Get | example/tee2.cpp:179-189 | hands out the spare buffer that came back last, or a new one |
| BufferPool.BufferPool.Release | example/tee2.cpp:156-173 | with the last reference the buffer comes back with its length restored, unless the pool is being destroyed |
| BufferPool.BufferPool.Destruct | example/tee2.cpp:136-140 | deletes every spare buffer and takes none back |
| BufferPool.GetEffects | example/tee2.cpp:179-189 | the buffer that came back last is handed out as it is, or, if none is spare, a new one with full length and one reference |
| BufferPool.ReleaseEffects | example/tee2.cpp:156-173 | the last reference brings the buffer back behind the spare ones with full length, or deletes it during the destruction; any other is one less |
| BufferPool.DestructEffects | example/tee2.cpp:136-140 | deletes exactly the spare buffers |
| BufferPool.PoolLaw | example/tee2.cpp:127-194 | in every run buffers are spare or handed out, never both, spare ones are distinct with one reference and full length, and there are as many as initially or as the greatest number handed out at one time |
| BufferPool.DestructorDeletesAll | example/tee2.cpp:136-140 | if all buffers have come back the destructor deletes every one |

## Left out

- libuv itself: what it does between accepting a call and calling back, its internal queue of closing handles and its polling are not part of the model.
- The timer, async, idle, prepare, check, poll, signal and fs_event handles: smaller copies of the read command machine, or bookkeeping without an exact balance of references.
- Requests on paths, DNS requests, UDP options, process spawning and socket addresses: thin wrappers over foreign calls.
- Template machinery, type-erased storage, debug macros and endian wrappers: no behaviour of their own.
- C++ memory orders: every atomic step takes effect at once and in one order.
- The amortised cost of splaying: it is about time and not about results.
- RB_FOREACH_FROM, RB_FOREACH_REVERSE_FROM and RB_FOREACH_REVERSE_SAFE: the same loops from another node or over the predecessor function.
- SplayTree.Head.SplayMinMax: not for a direction of 0, with which the loop of the source never ends; the header defines -1 and 1 only.
- SplayTree.Head.Insert: does not demand that a new node is not in another tree, which the source cannot check either.
- FileReadChain.File.ReadStart: the position of the file that a negative offset stands for is a parameter, and asking for it does not fail.
- FileReadChain.EveryRun: the file does not change while it is read.
- TeeMarks.Bounded: for a file at standard output; a stream takes bytes off its queue before the callback, so that the fan-out is not covered by the same potential.
- RefCount.DeadStaysDead: the interleavings have no set_value(), with which the destruction of a buffer revives its count; `BufferPool.Buffer.Destroy` models that with nobody else referring to the buffer.
- Ledger.CountIsReferences: destroy callbacks of the client run no further steps.
- HandleLifetime.UsedAfterDeletion: what happens after a deleted handle has been used is not defined, and the run ends there.
- BufferLayout.ChunksFit: the total length of the chunks is a number of the machine, and the addresses do not wrap around.
- BufferPool.PoolLaw: the pool outlives the buffers that it has handed out, as the global pool of the program does.
