# EDF microkernel: task lists, timer and mailboxes

This project models the four kernel files of a small earliest-deadline-first
(EDF) microkernel for Cortex-M, and proves properties of that model:

- `Listor.c`: the list engine, with sentinel-headed doubly linked lists of task
  nodes and of mailbox messages;
- `TaskAdministration.c`: the scheduler state, meaning the Ready, Waiting and
  Timer lists, `Running`, `TC` and `kernelMode`, and the task lifecycle;
- `TimerFunctions.c`: the tick counter, deadlines, `wait`, `set_deadline` and
  the tick interrupt `TimerInt`;
- `Communication.c`: mailboxes and the calls `send_wait`, `receive_wait`,
  `send_no_wait` and `receive_no_wait`.

The Dafny modules follow the C files one to one: `Types`, `Listor`,
`TaskAdministration`, `TimerFunctions` and `Communication`.

**Lists.** A list is a `DList` object. Its `pNext` and `pPrevious` pointers are
two maps over references: the head sentinel, the tail sentinel and node
identities. A ghost sequence `elems` reads the list from head to tail, and
`DList.Valid` ties the links to that sequence. "Empty" is then exactly "the
head's successor is the tail". The cursor loops of `insertRL`, `insertTL` and
`extractWL` are `while` loops over the links. Each is proved against a pure
function on the sequence: `InsertByKey` for sorted insertion with stable ties,
`RemoveAt`/`IndexOf` for extraction by reference.

**Kernel.** The kernel globals are the fields of one `Kernel` object. The task
control blocks live in maps indexed by node identity: `DeadLine`, the wake
tick `nTCnt`, `pMessage` and `PC`. The kernel invariant `Kernel.Valid` says:

- the three lists are well formed and share no node;
- Ready and Waiting are ordered by deadline, Timer by wake tick;
- `Running` is the task of the Ready list's first node.

**Mailboxes.** A mailbox is a `Mailbox` object holding:

- its message list;
- the message structs, each a data pointer plus `pBlock`, the node of the task
  blocked on it;
- the signed counters `nMessages` and `nBlockedMsg`;
- the capacity and the message size.

Every mailbox call is first a function on values: a `Box` for the mailbox and
a `Sched` for the part of the kernel it touches. Lemmas about these functions
state what the call promises. Then a method on the objects ensures that its
new state is exactly that function's result. The joint invariant `Joint` has
three parts:

- `Balanced`: the counters agree with a list that holds entries of one kind
  only;
- `TidyBox`: the list runs newest first;
- `Coherent`: blocked entries name task nodes whose `pMessage` is set.

Every call keeps `Joint`, and in the model none loses or duplicates a task node.
The model never frees a task node; the C code does, as "## Left out" records.

**Blocking calls.** The context save and load at a scheduling point (the
`firstExec` pattern) become two operations. The first pass is a transition.
The resumption reads `TC` and the running task's deadline and returns the
status. `SENDER` is +1 and `RECEIVER` is -1.

**Where the model follows the code rather than the comments:**

- a read takes the newest message (LIFO), although the header comment calls
  the mailbox a FIFO, and eviction removes the oldest;
- `receive_no_wait` returns `OK` even when there is nothing to receive,
  although its doc comment promises `FAIL`;
- the idle task's deadline is 5000;
- `TC` is an unsigned 32-bit counter that wraps, so `wait`'s wake tick
  `TC + nTicks` and `TimerInt`'s increment wrap as well (`AddU32`).

## Model

| member | source | states |
|---|---|---|
| Listor.FirstAbove | OSFunctions/Listor.c:77-83 | where the insertion cursor stops: every key before the index is at most k, and the key at the index (if any) is greater |
| Listor.InsertByKey | OSFunctions/Listor.c:75-88 | definition of insertRL/insertTL on the sequence: x goes in before the first strictly greater key; its properties are InsertByKeySorted and InsertByKeyContents |
| Listor.RemoveAt | OSFunctions/Listor.c:137-140 | definition of unlinking the node at an index; its properties are RemoveAtProps, RemoveAtIndex, RemoveAtContents, RemoveAtDistinct and RemoveAtSorted |
| Listor.IndexOf | OSFunctions/Listor.c:127-134 | the position extractWL's cursor finds: the first occurrence of x |
| Listor.FirstAboveUnique | OSFunctions/Listor.c:78-83 | the two stopping conditions of the insertion loop determine the insertion point uniquely |
| Listor.InsertByKeySorted | OSFunctions/Listor.c:75-88 | sorted insertion keeps a list sorted ascending by key |
| Listor.InsertByKeyContents | OSFunctions/Listor.c:75-88 | sorted insertion adds exactly the new node: same multiset plus x, length plus one |
| Listor.InsertAll | OSFunctions/TimerFunctions.c:136-153 | the Ready list after a run of insertRL calls, in order, as TimerInt makes them; every node keeps a key |
| Listor.InsertAllContents | OSFunctions/Listor.c:75-88 | a run of insertRL calls adds exactly the inserted nodes |
| Listor.InsertAtDistinct | OSFunctions/Listor.c:84-87 | linking a node that is not in the list keeps the nodes distinct |
| Listor.RemoveAtProps | OSFunctions/Listor.c:137-140 | unlinking one node removes exactly that node and keeps the rest distinct and sorted |
| Listor.RemoveAtIndex | OSFunctions/Listor.c:137-140 | the other nodes keep their relative order: those before stay put, those after shift down by one |
| Listor.RemoveAtContents | OSFunctions/Listor.c:137-140 | unlinking takes away exactly the node at the index: the multiset loses it and no new node appears |
| Listor.RemoveAtDistinct | OSFunctions/Listor.c:137-140 | unlinking keeps the other nodes distinct, and the removed node is no longer listed |
| Listor.RemoveAtSorted | OSFunctions/Listor.c:137-140 | removing a node keeps a sorted list sorted |
| Listor.SortedByUpdate | OSFunctions/TimerFunctions.c:42 | changing the key of a node outside a list keeps that list sorted |
| Listor.LinkNext | OSFunctions/Listor.c:84-87 | the two successor-pointer updates of an insertion give exactly the successor chain of the new sequence |
| Listor.LinkPrev | OSFunctions/Listor.c:84-87 | the two predecessor-pointer updates give exactly the predecessor chain of the new sequence |
| Listor.UnlinkNext | OSFunctions/Listor.c:137-140 | joining the neighbours' successor pointers gives the successor chain of the sequence without the node |
| Listor.UnlinkPrev | OSFunctions/Listor.c:137-140 | joining the neighbours' predecessor pointers gives the predecessor chain of the sequence without the node |
| Listor.DList.constructor | OSFunctions/Listor.c:20-48 | a new list is empty and well formed |
| Listor.DList.Clear | OSFunctions/Listor.c:43-46 | the head's successor is the tail, the tail's predecessor is the head, and each sentinel points to itself at its open end |
| Listor.DList.First | OSFunctions/Listor.c:93-94 | the head's successor is the tail exactly when the list is empty, otherwise the first node |
| Listor.DList.Last | OSFunctions/Listor.c:244 | the tail's predecessor is the head exactly when the list is empty, otherwise the last node |
| Listor.DList.Succ | OSFunctions/Listor.c:78-82 | stepping the cursor moves it one position along the chain |
| Listor.DList.LinkAfter | OSFunctions/Listor.c:84-87 | linking after position i - 1 inserts obj at index i and keeps the list well formed |
| Listor.DList.Unlink | OSFunctions/Listor.c:209-212 | remove_MBoxmsg: the list loses exactly that node, and the node's own links are cleared |
| Listor.DList.Insert | OSFunctions/Listor.c:75-88 | insertRL/insertTL: the result is the old sequence with obj placed before the first node with a strictly greater key, so ties go after equal keys |
| Listor.DList.ExtractFront | OSFunctions/Listor.c:91-101 | extractRL: returns and removes the first node, whose own links are cleared; on an empty list it returns the tail sentinel and changes nothing |
| Listor.DList.ExtractRef | OSFunctions/Listor.c:123-143 | extractWL: a present pBlock is returned and exactly that node is removed, with the order kept; an absent one changes nothing |
| Listor.DList.InsertFront | OSFunctions/Listor.c:178-188 | insertMB: the new message becomes the first element |
| Listor.DList.RemoveLast | OSFunctions/Listor.c:243-253 | remove_OldMsg: exactly the last element is removed, and the rest is unchanged |
| TaskAdministration.NewNodeInv | OSFunctions/Listor.c:62-73 | a freshly allocated node is in no list, and allocating it keeps the list invariant |
| TaskAdministration.ReadyInsertInv | OSFunctions/TaskAdministration.c:116-118 | inserting a free node into Ready keeps the invariant and adds exactly that node |
| TaskAdministration.ReadyToWaitingInv | OSFunctions/Communication.c:133 | moving the Ready front to Waiting keeps the invariant and the set of listed nodes |
| TaskAdministration.WaitingToReadyInv | OSFunctions/Communication.c:110 | moving a Waiting node, wherever it is, to Ready keeps the invariant and the set of listed nodes |
| TaskAdministration.ReadyToTimerInv | OSFunctions/TimerFunctions.c:42-43 | giving the Ready front a wake tick and moving it to Timer keeps the invariant and the set of listed nodes |
| TaskAdministration.TimerToReadyInv | OSFunctions/TimerFunctions.c:139 | moving the Timer front to Ready keeps the invariant and the set of listed nodes |
| TaskAdministration.ReinsertInv | OSFunctions/TimerFunctions.c:112-113 | re-inserting the Ready front under a new deadline keeps the invariant and Ready's multiset |
| TaskAdministration.DropFrontInv | OSFunctions/TaskAdministration.c:164 | removing the Ready front keeps the invariant and loses exactly that node |
| TaskAdministration.Release | OSFunctions/Communication.c:110-111 | definition of insertRL(readyL, extractWL(waitingL, t)) on the view: t leaves Waiting for its EDF place in Ready, nothing moves when t is not waiting; its properties are ReleaseKeepsTasks |
| TaskAdministration.Suspend | OSFunctions/Communication.c:133-134 | definition of insertRL(waitingL, extractRL(readyL)) on the view; its properties are SuspendKeepsTasks |
| TaskAdministration.ReleaseKeepsTasks | OSFunctions/Communication.c:110 | releasing a blocked task puts it in Ready and takes it out of Waiting, and the Ready+Waiting multiset is unchanged |
| TaskAdministration.SuspendKeepsTasks | OSFunctions/Communication.c:133 | suspending the running task puts it in Waiting and takes it out of Ready, and the multiset is unchanged |
| TaskAdministration.Kernel.constructor | OSFunctions/TaskAdministration.c:31-36 | the state before `init_kernel`, with no running task and not in running mode. The C globals start zeroed and the three list pointers are NULL. The model allocates the three lists empty up front, and `init_kernel`'s `ResetLists` stands in for `create_list` |
| TaskAdministration.Kernel.UpdateRunning | OSFunctions/TaskAdministration.c:48-50 | Running becomes the task of the Ready list's first node, which re-establishes the kernel invariant |
| TaskAdministration.Kernel.CreateListObjRL | OSFunctions/Listor.c:62-73 | a new node with DeadLine num, nTCnt 0 and pMessage NULL, in no list; nothing changes when allocation fails |
| TaskAdministration.Kernel.CreateListObj | OSFunctions/Listor.c:50-60 | a new node with nTCnt num, in no list; nothing changes when allocation fails |
| TaskAdministration.Kernel.InsertRL | OSFunctions/Listor.c:75-88 | insertRL on a task list: sorted insertion by deadline |
| TaskAdministration.Kernel.InsertTL | OSFunctions/Listor.c:105-120 | insertTL on the Timer list: sorted insertion by wake tick |
| TaskAdministration.Kernel.MoveRunningToWaiting | OSFunctions/Communication.c:133-134 | the running task moves from Ready to its EDF place in Waiting (Suspend); Timer and the node set are unchanged |
| TaskAdministration.Kernel.MoveWaitingToReady | OSFunctions/Communication.c:110-111 | a waiting task moves to its EDF place in Ready (Release); Timer and the node set are unchanged |
| TaskAdministration.Kernel.InitKernel | OSFunctions/TaskAdministration.c:63-87 | FAIL with the kernel and its three lists entirely unchanged in running mode; otherwise OK, TC 0, INIT mode, empty Waiting and Timer, and Ready holding only the idle task with deadline 5000, which is Running |
| TaskAdministration.Kernel.ResetLists | OSFunctions/TaskAdministration.c:66-69 | TC is 0 and the three lists are empty |
| TaskAdministration.Kernel.CreateTask | OSFunctions/TaskAdministration.c:101-132 | OK exactly when the deadline is non-zero, the body is not NULL and allocation succeeds; on FAIL the lists, Running, the allocator and every TCB field are unchanged; on OK a new node with that deadline and body is in Ready at its EDF position, the node set grows by it, and every other node keeps its deadline, wake tick, pMessage and PC (the new one gets wake tick 0 and pMessage NULL) |
| TaskAdministration.Kernel.NewReadyTask | OSFunctions/TaskAdministration.c:107-127 | create_task past its argument checks: a node exactly when allocation succeeds; on failure nothing changes; on success the next identity, with deadline `deadline`, wake tick 0, pMessage NULL and PC the body, is in Ready at its EDF position, and every other node's fields are unchanged |
| TaskAdministration.Kernel.InstallTask | OSFunctions/TaskAdministration.c:113-118 | a node in no list gets the body as its PC and joins Ready at its EDF position; the node set grows by exactly it and the other lists are unchanged |
| TaskAdministration.Kernel.SetPC | OSFunctions/TaskAdministration.c:113 | the node's PC becomes the task body |
| TaskAdministration.Kernel.AddToReady | OSFunctions/TaskAdministration.c:117-118 | a free node enters Ready by deadline; the other lists and the TCB fields are unchanged |
| TaskAdministration.Kernel.Run | OSFunctions/TaskAdministration.c:146-151 | kernelMode becomes RUNNING |
| TaskAdministration.Kernel.Terminate | OSFunctions/TaskAdministration.c:162-172 | Ready loses its front (the running task) and keeps the rest in order; Running becomes the new front; the other lists are unchanged |
| TimerFunctions.DeadlineStatus | OSFunctions/TimerFunctions.c:48-53 | DEADLINE_REACHED exactly when the deadline is at most TC, otherwise OK |
| TimerFunctions.SetTicks | OSFunctions/TimerFunctions.c:68-70 | TC takes the given value |
| TimerFunctions.Ticks | OSFunctions/TimerFunctions.c:80-82 | returns TC |
| TimerFunctions.Deadline | OSFunctions/TimerFunctions.c:92-94 | the running task's deadline, which is the least deadline in Ready |
| TimerFunctions.EarliestFirst | OSFunctions/TimerFunctions.c:92-94 | the first node of a sorted list has the least key |
| TimerFunctions.Wait | OSFunctions/TimerFunctions.c:40-45 | the running task gets wake tick TC + nTicks (with wrap-around), leaves Ready for its sorted place in Timer, and Running becomes the new front; no node is lost or duplicated |
| TimerFunctions.WaitResume | OSFunctions/TimerFunctions.c:47-54 | DEADLINE_REACHED exactly when Running's deadline is at most TC, otherwise OK |
| TimerFunctions.SetDeadline | OSFunctions/TimerFunctions.c:106-117 | the running task's deadline becomes d and its node is re-inserted into Ready by it; Ready keeps the same multiset and stays sorted; the other lists are unchanged |
| TimerFunctions.ReinsertFront | OSFunctions/TimerFunctions.c:113 | insertRL(readyL, extractRL(readyL)): the front goes back in at its place by the new deadlines |
| TimerFunctions.TimerFrontToReady | OSFunctions/TimerFunctions.c:139-140 | the Timer front moves into Ready by deadline |
| TimerFunctions.WaitingFrontToReady | OSFunctions/TimerFunctions.c:149-150 | the Waiting front moves into Ready by deadline |
| TimerFunctions.DueCursor | OSFunctions/TimerFunctions.c:137-142 | the scan only meets a due successor when the cursor is at the head or, after one move, on the first node |
| TimerFunctions.SortedPair | OSFunctions/TimerFunctions.c:138 | two positions of a sorted list are in key order |
| TimerFunctions.ScanMoved | OSFunctions/TimerFunctions.c:136-153 | what a scan has moved is a prefix of the list, now in Ready, with no node lost or duplicated |
| TimerFunctions.ScanCount | OSFunctions/TimerFunctions.c:136-153 | a finished scan moved a node exactly when the front was due, at most two nodes, and two exactly when the third node was due |
| TimerFunctions.TimerDueStep | OSFunctions/TimerFunctions.c:138-142 | a due step moves the Timer front to Ready and advances the cursor |
| TimerFunctions.TimerSkipStep | OSFunctions/TimerFunctions.c:142 | a step that is not due only advances the cursor |
| TimerFunctions.TimerScanLoop | OSFunctions/TimerFunctions.c:136-143 | the Timer scan loop ends with its progress described |
| TimerFunctions.ScanTimer | OSFunctions/TimerFunctions.c:136-143 | the Timer scan moves a prefix of Timer into Ready by deadline, every moved node due; the front moves exactly when it is due |
| TimerFunctions.WaitingDueStep | OSFunctions/TimerFunctions.c:148-152 | a due step moves the Waiting front to Ready and advances the cursor |
| TimerFunctions.WaitingSkipStep | OSFunctions/TimerFunctions.c:152 | a step that is not due only advances the cursor |
| TimerFunctions.WaitingScanLoop | OSFunctions/TimerFunctions.c:146-153 | the Waiting scan loop ends with its progress described |
| TimerFunctions.ScanWaiting | OSFunctions/TimerFunctions.c:146-153 | the Waiting scan moves a prefix of Waiting into Ready by deadline, every moved node past its deadline; the front moves exactly when its deadline has passed |
| Types.AddU32 | OSFunctions/TimerFunctions.c:42 | C's uint addition: the mathematical sum when it is below 2^32, otherwise the sum minus 2^32 (also the `TC++` of line 133) |
| TimerFunctions.Tick | OSFunctions/TimerFunctions.c:133 | TC rises by one, wrapping at 2^32 |
| TimerFunctions.Scan | OSFunctions/TimerFunctions.c:136-153 | the two scans together, with TC, deadlines and wake ticks unchanged |
| TimerFunctions.TimerInt | OSFunctions/TimerFunctions.c:131-154 | TC rises by exactly one; only prefixes of Timer and Waiting move, into Ready by deadline; each front moves exactly when it is due; the node multiset is unchanged |
| Communication.FrontFacts | OSFunctions/Communication.c:186-195 | in a non-empty mailbox the front entry exists, blocks a task while receivers wait, and has readable data while send messages wait; it passes the wait-entry test exactly when nBlockedMsg is non-zero |
| Communication.ReceiversWaiting | OSFunctions/Communication.c:268 | nMessages < 0 exactly when nBlockedMsg < 0, so the guards of send_wait and send_no_wait agree; the magnitude of nMessages is the number of entries |
| Communication.IsWaitEntry | OSFunctions/Communication.c:195 | the typewait test: the entry names a task whose pMessage is set and nBlockedMsg is non-zero (a NULL pBlock, which the code dereferences, reads as false); FrontFacts shows it equals nBlockedMsg != 0 on a consistent mailbox |
| Communication.Deliver | OSFunctions/Communication.c:99-111 | definition of the rendezvous with a waiting receiver; its properties are DeliverOutcome and DeliverKeeps |
| Communication.Block | OSFunctions/Communication.c:120-134 | definition of blocking the caller (send_wait with d = SENDER, receive_wait lines 211-223 with d = RECEIVER); its properties are BlockOutcome and BlockKeeps |
| Communication.Receive | OSFunctions/Communication.c:186-208 | definition of taking the newest send message; its properties are ReceiveOutcome and ReceiveKeeps |
| Communication.Buffer | OSFunctions/Communication.c:289-301 | definition of buffering a send_no_wait message with eviction of the oldest when full; its properties are SendNoWaitOutcome and BufferKeeps |
| Communication.SendWaitStep | OSFunctions/Communication.c:97-135 | definition of send_wait's first pass, branch by branch in the code's order; its properties are SendWaitKeeps, DeliverOutcome and BlockOutcome |
| Communication.ReceiveWaitStep | OSFunctions/Communication.c:184-224 | definition of receive_wait's first pass; its properties are ReceiveWaitKeeps, ReceiveOutcome and BlockOutcome |
| Communication.SendNoWaitStep | OSFunctions/Communication.c:266-305 | definition of send_no_wait with its status; its properties are SendNoWaitOutcome and SendNoWaitKeeps |
| Communication.ReceiveNoWaitStep | OSFunctions/Communication.c:329-356 | definition of receive_no_wait; its properties are ReceiveNoWaitKeeps and ReceiveOutcome |
| Communication.Push | OSFunctions/Listor.c:178-200 | definition of createMsg plus insertMB: a fresh message struct linked right after the head; its properties are TidyPush, PushSender, PushReceiver and PushBuffered |
| Communication.PopFront | OSFunctions/Listor.c:209-217 | definition of remove_MBoxmsg on the head's successor: the front struct is unlinked and released; its properties are TidyPopFront and PopBalanced |
| Communication.PopOldest | OSFunctions/Listor.c:243-253 | definition of remove_OldMsg: the tail's predecessor is unlinked and released; its properties are TidyPopOldest, EvictBalanced and NewestAtFront |
| Communication.Drop | OSFunctions/Listor.c:221-224 | definition of remove_msgRL's unlinking of one struct wherever it is listed; its properties are TidyDrop and DropBalanced |
| Communication.Count | OSFunctions/Communication.c:107-108 | definition of the paired `nMessages`/`nBlockedMsg` updates; the Balanced lemmas (PopBalanced, PushSender, PushReceiver, DropBalanced) state what they keep |
| Communication.Copy | OSFunctions/Communication.c:101 | definition of memcpy of one message: the payload at the source is copied to the destination; DeliverOutcome and ReceiveOutcome state where it lands |
| Communication.SetMsg | OSFunctions/Communication.c:127 | definition of a pMessage write (also lines 216 and Listor.c:231); CoherentPush and CoherentClear state what it keeps |
| Communication.RemoveMsgRL | OSFunctions/Listor.c:219-233 | remove_msgRL as written: the caller's struct is unlinked and pMessage cleared, and None where the code follows NULL links (no pMessage, or a struct no longer listed) |
| Communication.ResumeAsWritten | OSFunctions/Communication.c:139-146 | the deadline branch as written: remove_msgRL then both counters move by d (receive_wait lines 228-236 likewise); the as-written half of the finding, shown faulty by DeliveredReceiverFaults |
| Communication.Resume | OSFunctions/Communication.c:139-146 | the corrected deadline branch: withdraw the entry while it is listed, otherwise only clear pMessage; its properties are ResumeKeeps and ResumeAgrees |
| Communication.NewestAtFront | OSFunctions/Listor.c:243-253 | the front is the newest message and the back the oldest |
| Communication.TidyPush | OSFunctions/Listor.c:178-188 | a new struct at the front keeps the list newest first |
| Communication.TidyPopFront | OSFunctions/Listor.c:209-217 | unlinking the front keeps the list tidy |
| Communication.TidyPopOldest | OSFunctions/Listor.c:243-253 | unlinking the back keeps the list tidy |
| Communication.TidyDrop | OSFunctions/Listor.c:221-224 | unlinking any struct keeps the list tidy |
| Communication.PopBalanced | OSFunctions/Communication.c:197-206 | consuming the front moves the counters one step toward zero and keeps them balanced |
| Communication.PushSender | OSFunctions/Communication.c:115-131 | a blocked sender's entry is admitted only below capacity and with no send_no_wait entries, and both counters rise |
| Communication.PushReceiver | OSFunctions/Communication.c:218-220 | a blocked receiver's entry lowers both counters, with no capacity limit |
| Communication.PushBuffered | OSFunctions/Communication.c:299-301 | a buffered entry below capacity raises nMessages only |
| Communication.EvictBalanced | OSFunctions/Communication.c:293-296 | evicting the oldest buffered entry of a full mailbox lowers nMessages and keeps the counters balanced |
| Communication.CoherentPush | OSFunctions/Communication.c:125-129 | a new entry whose task's pMessage names it keeps the mailbox coherent |
| Communication.CoherentSub | OSFunctions/Communication.c:200 | removing entries (or adding readable memory) keeps the mailbox coherent with the kernel |
| Communication.DeliverKeeps | OSFunctions/Communication.c:99-111 | the rendezvous keeps the joint invariant and the task multiset |
| Communication.BlockKeeps | OSFunctions/Communication.c:120-134 | blocking the caller keeps the joint invariant and the task multiset |
| Communication.ReceiveKeeps | OSFunctions/Communication.c:186-208 | taking a send message keeps the joint invariant and the task multiset |
| Communication.BufferKeeps | OSFunctions/Communication.c:284-301 | buffering a message keeps the joint invariant |
| Communication.SendWaitKeeps | OSFunctions/Communication.c:93-135 | every outcome of send_wait's first pass keeps the joint invariant and the task multiset |
| Communication.ReceiveWaitKeeps | OSFunctions/Communication.c:184-224 | every outcome of receive_wait's first pass keeps the joint invariant and the task multiset |
| Communication.SendNoWaitKeeps | OSFunctions/Communication.c:266-302 | every outcome of send_no_wait keeps the joint invariant and the task multiset |
| Communication.ReceiveNoWaitKeeps | OSFunctions/Communication.c:329-356 | every outcome of receive_no_wait keeps the joint invariant and the task multiset |
| Communication.DeliverOutcome | OSFunctions/Communication.c:99-111 | the front receive entry is unlinked, both counters rise by one, the sender's data lands in the receiver's data area, and the receiver moves from Waiting to Ready |
| Communication.BlockOutcome | OSFunctions/Communication.c:120-134 | the new entry is at the front and blocks the caller, the caller's pMessage names it, both counters move by d, and the caller moves from Ready to Waiting |
| Communication.ReceiveOutcome | OSFunctions/Communication.c:186-208 | the newest entry is consumed and its data copied into pData, and nMessages falls; a send_wait entry also lowers nBlockedMsg and readies its sender; a send_no_wait entry leaves the task lists alone |
| Communication.SendNoWaitOutcome | OSFunctions/Communication.c:268-305 | FAIL exactly when no receiver waits and either send_wait entries wait or allocation fails, with nothing changed; otherwise OK and either delivery, or a new front entry with the oldest (least identity) evicted when full and nMessages raised unless full |
| Communication.DropBalanced | OSFunctions/Communication.c:139-146 | withdrawing a blocked entry from anywhere keeps the counters balanced once both move one step toward zero |
| Communication.CoherentClear | OSFunctions/Listor.c:231 | clearing the pMessage of a task that no remaining entry blocks keeps the mailbox coherent |
| Communication.ResumeListed | OSFunctions/Communication.c:139-146 | the corrected deadline branch keeps the joint invariant when the caller's entry is still listed |
| Communication.ResumeKeeps | OSFunctions/Communication.c:139-146 | the corrected deadline branch keeps the joint invariant; it withdraws the entry and moves both counters by d exactly when the entry is still listed, and always clears pMessage |
| Communication.ResumeAgrees | OSFunctions/Listor.c:219-233 | the corrected branch equals the written one wherever the written one is defined, and the written one fails exactly when pMessage names no listed entry |
| Communication.DeliverLeavesStaleEntry | OSFunctions/Communication.c:104-110 | after a rendezvous the released receiver's pMessage still names the freed entry, so its written deadline branch fails |
| Communication.DeliveredReceiverFaults | OSFunctions/Communication.c:228-234 | a concrete run in which the written receive_wait deadline branch fails |
| Communication.Mailbox.constructor | OSFunctions/Listor.c:147-175 | an empty mailbox with both counters 0 and the given capacity and message size |
| Communication.Mailbox.AddFront | OSFunctions/Listor.c:178-188 | createMsg plus insertMB: a new struct at the front (Push) |
| Communication.Mailbox.RemoveFront | OSFunctions/Listor.c:209-217 | remove_MBoxmsg of the front: PopFront |
| Communication.Mailbox.RemoveOldest | OSFunctions/Listor.c:243-253 | remove_OldMsg: PopOldest |
| Communication.Mailbox.RemoveEntry | OSFunctions/Listor.c:221-224 | the unlinking in remove_msgRL: Drop of that entry |
| Communication.Mailbox.Recount | OSFunctions/Communication.c:107-108 | both counters move by the given amounts |
| Communication.Mailbox.NoMessages | OSFunctions/Communication.c:64-66 | no_messages: its magnitude is the number of entries, it is negative exactly when receivers wait, and it is zero exactly when the list is empty |
| Communication.ValidView | OSFunctions/TaskAdministration.c:31-35 | the kernel invariant implies the invariant on the Ready/Waiting view the mailbox calls work on |
| Communication.SetTaskMessage | OSFunctions/Communication.c:127 | the task node's pMessage is set, and the kernel invariant holds |
| Communication.CopyData | OSFunctions/Communication.c:101 | one payload is copied |
| Communication.DeliverToReceiver | OSFunctions/Communication.c:99-111 | the objects end in the Deliver state, with the joint invariant |
| Communication.BlockCaller | OSFunctions/Communication.c:120-134 | the objects end in the Block state, with the joint invariant |
| Communication.ReceiveFront | OSFunctions/Communication.c:186-208 | the objects end in the Receive state, with the joint invariant |
| Communication.ReceiveFromSender | OSFunctions/Communication.c:195-201 | the wait-entry branch of Receive |
| Communication.ReceiveBuffered | OSFunctions/Communication.c:202-207 | the send_no_wait branch of Receive |
| Communication.BufferMessage | OSFunctions/Communication.c:289-301 | the mailbox ends in the Buffer state |
| Communication.SendWait | OSFunctions/Communication.c:93-137 | send_wait's first pass ends in SendWaitStep's result: delivery, FAIL with nothing changed, or blocking |
| Communication.ReceiveWait | OSFunctions/Communication.c:180-226 | receive_wait's first pass ends in ReceiveWaitStep's result: take the newest message, or block |
| Communication.SendNoWait | OSFunctions/Communication.c:262-306 | send_no_wait ends in SendNoWaitStep's result |
| Communication.ReceiveNoWait | OSFunctions/Communication.c:324-361 | receive_no_wait returns OK and ends in ReceiveNoWaitStep's result, with nothing changed when no send message waits |
| Communication.CreateMailbox | OSFunctions/Communication.c:18-29 | NULL exactly when allocation fails, otherwise a fresh empty mailbox with nMaxMessages nof_msg, nDataSize size_of_msg and both counters 0 |
| Communication.RemoveMailbox | OSFunctions/Communication.c:42-55 | OK exactly when the head's successor is the tail, otherwise NOT_EMPTY |
| Communication.DropCallerEntry | OSFunctions/Communication.c:139-145 | the corrected deadline branch on the objects: the Resume state |
| Communication.ResumeCall | OSFunctions/Communication.c:138-150 | the status is DeadlineStatus of Running's deadline and TC; OK changes nothing; DEADLINE_REACHED gives the corrected withdrawal |
| Communication.SendWaitResume | OSFunctions/Communication.c:138-150 | send_wait's resumption: DEADLINE_REACHED exactly when the deadline is at most TC, then both counters fall if the entry is still listed |
| Communication.ReceiveWaitResume | OSFunctions/Communication.c:227-241 | receive_wait's resumption: DEADLINE_REACHED exactly when the deadline is at most TC, then both counters rise if the entry is still listed |

## Left out

- Context switching and interrupts are not modelled: `SaveContext`, `LoadContext`, `set_isr`/`isr_on`/`isr_off`, `timer0_start` and the `firstExec` trick. Each blocking call is split into a first-pass operation and a resume operation instead. A `FAIL` return that leaves interrupts disabled is not visible in the model.
- Memory management is not modelled: `calloc`, `free`, and the `mymem_count_alloc`/`mymem_count_free` counters. An allocation failure is a boolean parameter `allocOk`. Node and message identities come from counters that are never reused.
- `remove_msgRL` frees the caller's data area and the `pBlock` it has just set to NULL. Only its unlinking and the clearing of `pMessage` are modelled.
- `createMsg` also allocates a dummy `pBlock` (OSFunctions/Listor.c:193), which `send_wait` and `receive_wait` then overwrite with the caller's node, so it leaks. The model has no such allocation.
- `remove_MBoxmsg` (OSFunctions/Listor.c:213) frees `pBlock`. For a `send_wait` or `receive_wait` entry, `pBlock` is the blocked task's own list node (OSFunctions/Communication.c:126 and 215), not memory that `createMsg` allocated. Each rendezvous keeps that node listed but freed:
  - delivery to a waiting receiver frees the receiver's node and then moves it into Ready (OSFunctions/Communication.c:105-110 and 272-277);
  - consuming a sender's entry moves the sender's node into Ready and then frees it (OSFunctions/Communication.c:199-200 and 346-347).
  A later `calloc` can then reuse a node that is still in the Ready list. The model leaves out this free: its task lists lose no node, whereas the C code's lists keep freed memory.
- `memcpy` is modelled as copying one abstract payload; `nDataSize` byte semantics are not. `send_no_wait` copies the buffer onto itself, so a buffered message aliases the caller's data pointer; the model stores that pointer.
- The `pBlock->pMessage` test at Communication.c:195 and Communication.c:342 dereferences NULL for a `send_no_wait` entry. The model reads that case as "not a wait entry" (`IsWaitEntry`).
- `ReceiveWait`: `receive_wait` does not check `createMsg` for NULL, so the model assumes the allocation succeeds.
- `TimerFunctions.TimerInt`: the cursor walk is modelled as written: it tests the cursor's successor but always extracts the list's front, then advances the cursor. The model shows that the front moves exactly when it is due, and it does not claim that every expired entry moves. When the cursor itself is the node just moved, the C loop goes on walking from that node, which is now in the Ready list. The model ends the scan there.
- `init_kernel`'s failure cleanup, which dereferences lists that may be NULL, is not modelled. The new lists are assumed to be allocated, and the idle task's allocation in `create_task` is assumed to succeed.
- `create_task` in running mode: the model performs the same insertion. Its resumption returns `OK` and is not a separate member.
- `set_deadline` has no resume member: its second execution does nothing and returns no value, so the first pass `SetDeadline` is the whole call.
- `remove_list` is not modelled: its guard holds for every well-formed list, so it never frees anything. `Idle` and `main.c` are not part of this model.
- `SendNoWait`: requires that a capacity-0 mailbox with no waiting receiver is not full-and-empty. In the C code, `remove_OldMsg` on an empty list would unlink the head sentinel.
- `SendWaitResume`/`ReceiveWaitResume`: require `ResumeReady`. On the mailbox the task blocked on, that means the entry its `pMessage` names is the one that blocks it. The code does not record which mailbox that is.
  - A `send_wait` that delivered at once never blocked. Its resume also needs the task's stale `pMessage` id not to name a live entry of this mailbox.
  - The model cannot rule that clash out: it numbers message identities per mailbox, whereas C struct addresses are global. So the clash is excluded by the requires rather than proved impossible.
- `Listor.DList.ExtractRef`: extractWL of an absent node returns an uninitialised pointer; the model returns `None`.
- The comparison of the unsigned `nMaxMessages` with the signed `nMessages` is modelled as a comparison of mathematical integers. The two agree while `nMessages` is not negative, which is the only case in which it is reached.
- `create_listobj` leaves the TCB's deadline at 0 (calloc); the model does the same. Only the Timer key `nTCnt` is set.

## Findings

| source | as written | input that shows it | evidently intended | confidence | as-written member | corrected member |
|---|---|---|---|---|---|---|
| OSFunctions/Communication.c:227-236 | When a resumed `receive_wait` (and likewise `send_wait`, lines 139-146) finds its deadline reached, it always calls `remove_msgRL` (OSFunctions/Listor.c:219-233) and moves both counters. A counterpart may already have consumed the caller's entry: `remove_MBoxmsg` then unlinked and freed it, leaving the caller's `pMessage` stale. `remove_msgRL` then follows the freed struct's NULL links, and the counters are disturbed even though the entry is gone. | Task 3 waits in `receive_wait` on data area 7. Running task 2 calls `send_wait` with data at 5. The data is delivered, the entry is unlinked and task 3 becomes ready. When task 3 resumes after its deadline, its `pMessage` names no listed message. | Withdraw the caller's entry and move the counters only while the entry is still listed; otherwise leave the mailbox alone and clear `pMessage`. | not executed | Communication.DeliveredReceiverFaults | Communication.ResumeKeeps |
