/** Task administration (TaskAdministration.c): the kernel state and the task
    lifecycle. The globals readyL, waitingL, timmerL, TC, Running and kernelMode
    are the fields of one Kernel object; the task control blocks and list nodes
    (one listobj per TCB) live in an arena of maps indexed by node identity. */
module TaskAdministration {
  import opened Types
  import opened Listor

  /** The deadline init_kernel gives the idle task. */
  const IDLE_DEADLINE: u32 := 5000

  /** The address of the idle task's body (any address other than NULL). */
  const IDLE_ENTRY: Addr := 1

  /** The first element of the Ready list, read as a task: NULL for the tail
      sentinel, whose pTask is never set. */
  function FrontOf(s: seq<nat>): Option<nat>
  {
    if s == [] then None else Some(s[0])
  }

  /** Every node of s is allocated in the arena. */
  predicate Allocated(s: seq<nat>, dl: map<nat, u32>, tk: map<nat, u32>, msg: map<nat, Option<nat>>, n: nat)
  {
    forall x :: x in s ==> x in dl && x in tk && x in msg && x < n
  }

  /** The task lists' shared invariant, stated on their contents: no node in
      two lists, every node allocated, Ready and Waiting ascending by deadline,
      Timer ascending by wake tick. */
  predicate ListsInv(r: seq<nat>, w: seq<nat>, t: seq<nat>,
                     dl: map<nat, u32>, tk: map<nat, u32>, msg: map<nat, Option<nat>>, n: nat)
  {
    Disjoint(r, w) && Disjoint(r, t) && Disjoint(w, t) &&
    Allocated(r, dl, tk, msg, n) && Allocated(w, dl, tk, msg, n) && Allocated(t, dl, tk, msg, n) &&
    SortedBy(r, dl) && SortedBy(w, dl) && SortedBy(t, tk)
  }

  /** A second write to the same key replaces the first. */
  lemma Overwrite(m: map<nat, Addr>, k: nat, a: Addr, b: Addr)
    ensures m[k := a][k := b] == m[k := b]
  {
  }

  /** All nodes held by the three lists. */
  function AllTasks(r: seq<nat>, w: seq<nat>, t: seq<nat>): multiset<nat>
  {
    multiset(r) + multiset(w) + multiset(t)
  }

  /** A freshly allocated node is in no list, and allocating it keeps the invariant. */
  lemma NewNodeInv(r: seq<nat>, w: seq<nat>, t: seq<nat>,
                   dl: map<nat, u32>, tk: map<nat, u32>, msg: map<nat, Option<nat>>, n: nat,
                   d: u32, v: u32)
    requires ListsInv(r, w, t, dl, tk, msg, n)
    ensures n !in r && n !in w && n !in t
    ensures ListsInv(r, w, t, dl[n := d], tk[n := v], msg[n := None], n + 1)
  {
    SortedByUpdate(r, dl, n, d);
    SortedByUpdate(w, dl, n, d);
    SortedByUpdate(t, tk, n, v);
    WiderAllocated(r, dl, tk, msg, n, dl[n := d], tk[n := v], msg[n := None], n + 1);
    WiderAllocated(w, dl, tk, msg, n, dl[n := d], tk[n := v], msg[n := None], n + 1);
    WiderAllocated(t, dl, tk, msg, n, dl[n := d], tk[n := v], msg[n := None], n + 1);
  }

  /** An allocated node outside every list enters the Ready list by deadline. */
  lemma ReadyInsertInv(r: seq<nat>, w: seq<nat>, t: seq<nat>,
                       dl: map<nat, u32>, tk: map<nat, u32>, msg: map<nat, Option<nat>>, n: nat, x: nat)
    requires ListsInv(r, w, t, dl, tk, msg, n)
    requires x in dl && x in tk && x in msg && x < n && x !in r && x !in w && x !in t
    ensures ListsInv(InsertByKey(r, dl, x), w, t, dl, tk, msg, n)
    ensures AllTasks(InsertByKey(r, dl, x), w, t) == AllTasks(r, w, t) + multiset{x}
  {
    var r2 := InsertByKey(r, dl, x);
    InsertByKeySorted(r, dl, x);
    InsertByKeyContents(r, dl, x);
    AddDisjoint(r, r2, x, w);
    AddDisjoint(r, r2, x, t);
    AddAllocated(r, r2, x, dl, tk, msg, n);
  }

  /** The Ready list's first node moves to the Waiting list by deadline. */
  lemma ReadyToWaitingInv(r: seq<nat>, w: seq<nat>, t: seq<nat>,
                          dl: map<nat, u32>, tk: map<nat, u32>, msg: map<nat, Option<nat>>, n: nat)
    requires ListsInv(r, w, t, dl, tk, msg, n) && r != [] && Distinct(r)
    ensures ListsInv(r[1..], InsertByKey(w, dl, r[0]), t, dl, tk, msg, n)
    ensures AllTasks(r[1..], InsertByKey(w, dl, r[0]), t) == AllTasks(r, w, t)
  {
    var x := r[0];
    var w2 := InsertByKey(w, dl, x);
    TailProps(r, dl);
    InsertByKeySorted(w, dl, x);
    InsertByKeyContents(w, dl, x);
    SubDisjoint(r, r[1..], t);
    SubAllocated(r, r[1..], dl, tk, msg, n);
    AddDisjoint(w, w2, x, t);
    AddAllocated(w, w2, x, dl, tk, msg, n);
    SubDisjoint(r, r[1..], w);
    AddDisjoint(w, w2, x, r[1..]);
  }

  /** The Waiting list's node at index i moves to the Ready list by deadline. */
  lemma WaitingToReadyInv(r: seq<nat>, w: seq<nat>, t: seq<nat>,
                          dl: map<nat, u32>, tk: map<nat, u32>, msg: map<nat, Option<nat>>, n: nat, i: nat)
    requires ListsInv(r, w, t, dl, tk, msg, n) && i < |w| && Distinct(w)
    ensures ListsInv(InsertByKey(r, dl, w[i]), RemoveAt(w, i), t, dl, tk, msg, n)
    ensures AllTasks(InsertByKey(r, dl, w[i]), RemoveAt(w, i), t) == AllTasks(r, w, t)
  {
    var x := w[i];
    var w2 := RemoveAt(w, i);
    var r2 := InsertByKey(r, dl, x);
    RemoveAtProps(w, i, dl);
    InsertByKeySorted(r, dl, x);
    InsertByKeyContents(r, dl, x);
    SubDisjoint(w, w2, t);
    SubAllocated(w, w2, dl, tk, msg, n);
    AddDisjoint(r, r2, x, t);
    AddAllocated(r, r2, x, dl, tk, msg, n);
    SubDisjoint(w, w2, r);
    AddDisjoint(r, r2, x, w2);
    assert multiset(w) == multiset(w2) + multiset{x};
  }

  /** The Ready list's first node gets wake tick v and moves to the Timer list. */
  lemma ReadyToTimerInv(r: seq<nat>, w: seq<nat>, t: seq<nat>,
                        dl: map<nat, u32>, tk: map<nat, u32>, msg: map<nat, Option<nat>>, n: nat, v: u32)
    requires ListsInv(r, w, t, dl, tk, msg, n) && r != [] && Distinct(r)
    ensures ListsInv(r[1..], w, InsertByKey(t, tk[r[0] := v], r[0]), dl, tk[r[0] := v], msg, n)
    ensures AllTasks(r[1..], w, InsertByKey(t, tk[r[0] := v], r[0])) == AllTasks(r, w, t)
    ensures Keyed(t, tk[r[0] := v]) && r[0] !in t
  {
    var x := r[0];
    var tk2 := tk[x := v];
    var t2 := InsertByKey(t, tk2, x);
    TailProps(r, dl);
    SortedByUpdate(t, tk, x, v);
    InsertByKeySorted(t, tk2, x);
    InsertByKeyContents(t, tk2, x);
    SubDisjoint(r, r[1..], w);
    SubDisjoint(r, r[1..], t);
    AddDisjoint(t, t2, x, w);
    AddDisjoint(t, t2, x, r[1..]);
    SubAllocated(r, r[1..], dl, tk, msg, n);
    AddAllocated(t, t2, x, dl, tk, msg, n);
    WiderAllocated(r[1..], dl, tk, msg, n, dl, tk2, msg, n);
    WiderAllocated(w, dl, tk, msg, n, dl, tk2, msg, n);
    WiderAllocated(t2, dl, tk, msg, n, dl, tk2, msg, n);
  }

  /** The Timer list's first node moves to the Ready list by deadline. */
  lemma TimerToReadyInv(r: seq<nat>, w: seq<nat>, t: seq<nat>,
                        dl: map<nat, u32>, tk: map<nat, u32>, msg: map<nat, Option<nat>>, n: nat)
    requires ListsInv(r, w, t, dl, tk, msg, n) && t != [] && Distinct(t)
    ensures ListsInv(InsertByKey(r, dl, t[0]), w, t[1..], dl, tk, msg, n)
    ensures AllTasks(InsertByKey(r, dl, t[0]), w, t[1..]) == AllTasks(r, w, t)
  {
    var x := t[0];
    var r2 := InsertByKey(r, dl, x);
    TailProps(t, tk);
    InsertByKeySorted(r, dl, x);
    InsertByKeyContents(r, dl, x);
    SubDisjoint(t, t[1..], w);
    SubDisjoint(t, t[1..], r);
    AddDisjoint(r, r2, x, w);
    AddDisjoint(r, r2, x, t[1..]);
    SubAllocated(t, t[1..], dl, tk, msg, n);
    AddAllocated(r, r2, x, dl, tk, msg, n);
  }

  /** The Ready list's first node gets deadline d and is re-inserted by deadline. */
  lemma ReinsertInv(r: seq<nat>, w: seq<nat>, t: seq<nat>,
                    dl: map<nat, u32>, tk: map<nat, u32>, msg: map<nat, Option<nat>>, n: nat, d: u32)
    requires ListsInv(r, w, t, dl, tk, msg, n) && r != [] && Distinct(r)
    ensures ListsInv(InsertByKey(r[1..], dl[r[0] := d], r[0]), w, t, dl[r[0] := d], tk, msg, n)
    ensures AllTasks(InsertByKey(r[1..], dl[r[0] := d], r[0]), w, t) == AllTasks(r, w, t)
    ensures multiset(InsertByKey(r[1..], dl[r[0] := d], r[0])) == multiset(r)
    ensures Keyed(r[1..], dl[r[0] := d]) && r[0] !in r[1..]
  {
    var x := r[0];
    var dl2 := dl[x := d];
    var r2 := InsertByKey(r[1..], dl2, x);
    TailProps(r, dl);
    SortedByUpdate(r[1..], dl, x, d);
    SortedByUpdate(w, dl, x, d);
    InsertByKeySorted(r[1..], dl2, x);
    InsertByKeyContents(r[1..], dl2, x);
    assert forall y :: y in r2 ==> y in r;
    SubDisjoint(r, r2, w);
    SubDisjoint(r, r2, t);
    SubAllocated(r, r2, dl, tk, msg, n);
    WiderAllocated(r2, dl, tk, msg, n, dl2, tk, msg, n);
    WiderAllocated(w, dl, tk, msg, n, dl2, tk, msg, n);
    WiderAllocated(t, dl, tk, msg, n, dl2, tk, msg, n);
    assert multiset(r2) == multiset(r);
  }

  /** The Ready list's first node leaves every list. */
  lemma DropFrontInv(r: seq<nat>, w: seq<nat>, t: seq<nat>,
                     dl: map<nat, u32>, tk: map<nat, u32>, msg: map<nat, Option<nat>>, n: nat)
    requires ListsInv(r, w, t, dl, tk, msg, n) && r != [] && Distinct(r)
    ensures ListsInv(r[1..], w, t, dl, tk, msg, n)
    ensures r[0] !in r[1..]
    ensures AllTasks(r[1..], w, t) == AllTasks(r, w, t) - multiset{r[0]}
  {
    TailProps(r, dl);
    SubDisjoint(r, r[1..], w);
    SubDisjoint(r, r[1..], t);
    SubAllocated(r, r[1..], dl, tk, msg, n);
  }

  /** r[1..] is r without its first element. */
  lemma TailProps(r: seq<nat>, key: map<nat, int>)
    requires r != []
    ensures forall y :: y in r[1..] ==> y in r
    ensures multiset(r[1..]) == multiset(r) - multiset{r[0]}
    ensures Distinct(r) ==> Distinct(r[1..]) && r[0] !in r[1..]
    ensures SortedBy(r, key) ==> SortedBy(r[1..], key)
  {
    RemoveAtProps(r, 0, key);
    assert RemoveAt(r, 0) == r[1..];
    assert r == [r[0]] + r[1..];
  }

  /** Disjointness carries over to a sub-collection, on either side. */
  lemma SubDisjoint(a: seq<nat>, a2: seq<nat>, b: seq<nat>)
    requires Disjoint(a, b) || Disjoint(b, a)
    requires forall y :: y in a2 ==> y in a
    ensures Disjoint(a2, b) && Disjoint(b, a2)
  {
  }

  /** Allocation carries over to a sub-collection. */
  lemma SubAllocated(a: seq<nat>, a2: seq<nat>, dl: map<nat, u32>, tk: map<nat, u32>, msg: map<nat, Option<nat>>, n: nat)
    requires Allocated(a, dl, tk, msg, n)
    requires forall y :: y in a2 ==> y in a
    ensures Allocated(a2, dl, tk, msg, n)
  {
  }

  /** Disjointness carries over to a collection grown by one node outside b. */
  lemma AddDisjoint(a: seq<nat>, a2: seq<nat>, x: nat, b: seq<nat>)
    requires Disjoint(a, b) || Disjoint(b, a)
    requires forall y :: y in a2 ==> y in a || y == x
    requires x !in b
    ensures Disjoint(a2, b) && Disjoint(b, a2)
  {
  }

  /** Allocation carries over to a collection grown by one allocated node. */
  lemma AddAllocated(a: seq<nat>, a2: seq<nat>, x: nat, dl: map<nat, u32>, tk: map<nat, u32>, msg: map<nat, Option<nat>>, n: nat)
    requires Allocated(a, dl, tk, msg, n)
    requires forall y :: y in a2 ==> y in a || y == x
    requires x in dl && x in tk && x in msg && x < n
    ensures Allocated(a2, dl, tk, msg, n)
  {
  }

  /** Allocation carries over to a larger arena. */
  lemma WiderAllocated(s: seq<nat>, dl: map<nat, u32>, tk: map<nat, u32>, msg: map<nat, Option<nat>>, n: nat,
                       dl2: map<nat, u32>, tk2: map<nat, u32>, msg2: map<nat, Option<nat>>, n2: nat)
    requires Allocated(s, dl, tk, msg, n)
    requires dl.Keys <= dl2.Keys && tk.Keys <= tk2.Keys && msg.Keys <= msg2.Keys && n <= n2
    ensures Allocated(s, dl2, tk2, msg2, n2)
  {
  }

  /** What the message-passing calls read and change in the kernel, as one
      value: the Ready and Waiting lists, the deadlines, every node's
      pMessage and the memory the message pointers address. */
  datatype Sched = Sched(r: seq<nat>, w: seq<nat>, dl: map<nat, u32>,
                         taskMsg: map<nat, Option<nat>>, mem: map<Addr, Payload>)

  /** Every node of the Ready and Waiting lists has a deadline. */
  predicate WellSched(ks: Sched)
  {
    Keyed(ks.r, ks.dl) && Keyed(ks.w, ks.dl)
  }

  /** insertRL(readyL, extractWL(waitingL, t)): a blocked task t leaves the
      Waiting list for its EDF place in the Ready list; nothing moves when t
      is not in the Waiting list. */
  function Release(ks: Sched, t: nat): Sched
    requires WellSched(ks)
  {
    if t in ks.w then ks.(r := InsertByKey(ks.r, ks.dl, t), w := RemoveAt(ks.w, IndexOf(ks.w, t))) else ks
  }

  /** insertRL(waitingL, extractRL(readyL)): the running task, the Ready
      list's first node, moves to its EDF place in the Waiting list. */
  function Suspend(ks: Sched): Sched
    requires WellSched(ks) && ks.r != []
  {
    ks.(r := ks.r[1..], w := InsertByKey(ks.w, ks.dl, ks.r[0]))
  }

  /** The kernel invariant seen through a Sched: no node twice in Ready or
      Waiting, none in both, and every listed node with a pMessage. */
  predicate SchedInv(ks: Sched)
  {
    WellSched(ks) && Distinct(ks.r) && Distinct(ks.w) && Disjoint(ks.r, ks.w) &&
    (forall x :: x in ks.r ==> x in ks.taskMsg) && (forall x :: x in ks.w ==> x in ks.taskMsg)
  }

  /** Releasing a task keeps the invariant and neither loses nor duplicates
      a node: t, when it waits, ends up in Ready and out of Waiting. */
  lemma ReleaseKeepsTasks(ks: Sched, t: nat)
    requires SchedInv(ks)
    ensures var ks2 := Release(ks, t);
      SchedInv(ks2) && multiset(ks2.r) + multiset(ks2.w) == multiset(ks.r) + multiset(ks.w)
    ensures t in ks.w ==> t in Release(ks, t).r && t !in Release(ks, t).w
    ensures t !in ks.w ==> Release(ks, t) == ks
  {
    if t in ks.w {
      var i := IndexOf(ks.w, t);
      var p := FirstAbove(ks.r, ks.dl, ks.dl[t]);
      RemoveAtProps(ks.w, i, ks.dl);
      InsertByKeyContents(ks.r, ks.dl, t);
      InsertAtDistinct(ks.r, p, t);
      assert multiset(ks.w) == multiset(RemoveAt(ks.w, i)) + multiset{t};
    }
  }

  /** Suspending the running task keeps the invariant and neither loses nor
      duplicates a node: it ends up in Waiting and out of Ready. */
  lemma SuspendKeepsTasks(ks: Sched)
    requires SchedInv(ks) && ks.r != []
    ensures var ks2 := Suspend(ks);
      SchedInv(ks2) && ks.r[0] in ks2.w && ks.r[0] !in ks2.r &&
      multiset(ks2.r) + multiset(ks2.w) == multiset(ks.r) + multiset(ks.w)
  {
    var x := ks.r[0];
    TailProps(ks.r, ks.dl);
    InsertByKeyContents(ks.w, ks.dl, x);
    InsertAtDistinct(ks.w, FirstAbove(ks.w, ks.dl, ks.dl[x]), x);
  }

  class Kernel {
    const readyL: DList
    const waitingL: DList
    const timerL: DList
    var tc: u32
    var running: Option<nat>
    var kernelMode: Mode
    /** pTask->DeadLine of every node. */
    var deadLine: map<nat, u32>
    /** nTCnt, the wake tick, of every node. */
    var nTCnt: map<nat, u32>
    /** pMessage of every node: the message a blocked task left in a mailbox. */
    var message: map<nat, Option<nat>>
    /** pTask->PC of every node: the task body. */
    var pc: map<nat, Addr>
    /** The next node identity the allocator hands out. */
    var nextNode: nat
    /** The data the message pointers address. */
    var mem: map<Addr, Payload>

    /** The kernel invariant: three separate well-formed lists that share no
        node, Ready and Waiting ordered by deadline, Timer by wake tick, and
        Running the task of the Ready list's first node. */
    ghost predicate Valid()
      reads this, readyL, waitingL, timerL
    {
      readyL != waitingL && readyL != timerL && waitingL != timerL &&
      readyL.Valid() && waitingL.Valid() && timerL.Valid() &&
      ListsInv(readyL.elems, waitingL.elems, timerL.elems, deadLine, nTCnt, message, nextNode) &&
      running == FrontOf(readyL.elems)
    }

    /** The kernel state the message-passing calls work on. */
    ghost function View(): Sched
      reads this, readyL, waitingL
    {
      Sched(readyL.elems, waitingL.elems, deadLine, message, mem)
    }

    /** All nodes held by the three task lists. */
    ghost function Tasks(): multiset<nat>
      reads this, readyL, waitingL, timerL
    {
      AllTasks(readyL.elems, waitingL.elems, timerL.elems)
    }

    /** The kernel before init_kernel. The C globals start zeroed, with the
        three list pointers NULL; here the three lists are allocated up front,
        empty, and init_kernel's ResetLists stands in for create_list. */
    constructor ()
      ensures Valid() && kernelMode == INIT && running == None
      ensures readyL.elems == [] && waitingL.elems == [] && timerL.elems == []
    {
      readyL := new DList();
      waitingL := new DList();
      timerL := new DList();
      tc := 0;
      running := None;
      kernelMode := INIT;
      deadLine := map[];
      nTCnt := map[];
      message := map[];
      pc := map[];
      nextNode := 0;
      mem := map[];
    }

    /** uppdateRunning: Running becomes the task of the Ready list's first node. */
    method UpdateRunning()
      requires readyL != waitingL && readyL != timerL && waitingL != timerL
      requires readyL.Valid() && waitingL.Valid() && timerL.Valid()
      requires ListsInv(readyL.elems, waitingL.elems, timerL.elems, deadLine, nTCnt, message, nextNode)
      modifies this`running
      ensures Valid() && running == FrontOf(readyL.elems)
    {
      var f := readyL.First();
      running := if f.Elem? then Some(f.id) else None;
    }

    /** create_listobjRL: a new node whose task has the given deadline
        (calloc leaves nTCnt 0 and pMessage NULL). */
    method CreateListObjRL(num: u32, allocOk: bool) returns (obj: Option<nat>)
      requires Valid()
      modifies this`deadLine, this`nTCnt, this`message, this`pc, this`nextNode
      ensures Valid()
      ensures !allocOk ==> (obj == None && nextNode == old(nextNode) && deadLine == old(deadLine) &&
        nTCnt == old(nTCnt) && message == old(message) && pc == old(pc))
      ensures allocOk ==> (obj == Some(old(nextNode)) && nextNode == old(nextNode) + 1 &&
        deadLine == old(deadLine)[obj.value := num] && nTCnt == old(nTCnt)[obj.value := 0] &&
        message == old(message)[obj.value := None] && pc == old(pc)[obj.value := NULL])
      ensures obj.Some? ==> (obj.value !in readyL.elems && obj.value !in waitingL.elems &&
        obj.value !in timerL.elems)
    {
      if !allocOk {
        return None;
      }
      var id := nextNode;
      NewNodeInv(readyL.elems, waitingL.elems, timerL.elems, deadLine, nTCnt, message, nextNode, num, 0);
      deadLine := deadLine[id := num];
      nTCnt := nTCnt[id := 0];
      message := message[id := None];
      pc := pc[id := NULL];
      nextNode := nextNode + 1;
      obj := Some(id);
    }

    /** create_listobj: a new node with wake tick num; its TCB is allocated
        zeroed and never written, so its deadline is 0. */
    method CreateListObj(num: u32, allocOk: bool) returns (obj: Option<nat>)
      requires Valid()
      modifies this`deadLine, this`nTCnt, this`message, this`pc, this`nextNode
      ensures Valid()
      ensures !allocOk ==> (obj == None && nextNode == old(nextNode) && deadLine == old(deadLine) &&
        nTCnt == old(nTCnt) && message == old(message) && pc == old(pc))
      ensures allocOk ==> (obj == Some(old(nextNode)) && nextNode == old(nextNode) + 1 &&
        deadLine == old(deadLine)[obj.value := 0] && nTCnt == old(nTCnt)[obj.value := num] &&
        message == old(message)[obj.value := None] && pc == old(pc)[obj.value := NULL])
      ensures obj.Some? ==> (obj.value !in readyL.elems && obj.value !in waitingL.elems &&
        obj.value !in timerL.elems)
    {
      if !allocOk {
        return None;
      }
      var id := nextNode;
      NewNodeInv(readyL.elems, waitingL.elems, timerL.elems, deadLine, nTCnt, message, nextNode, 0, num);
      deadLine := deadLine[id := 0];
      nTCnt := nTCnt[id := num];
      message := message[id := None];
      pc := pc[id := NULL];
      nextNode := nextNode + 1;
      obj := Some(id);
    }

    /** insertRL on the Ready or Waiting list: sorted insertion by deadline. */
    method InsertRL(l: DList, obj: nat)
      requires l.Valid() && obj !in l.elems && obj in deadLine && Keyed(l.elems, deadLine)
      modifies l
      ensures l.Valid() && l.elems == InsertByKey(old(l.elems), deadLine, obj)
    {
      l.Insert(obj, deadLine);
    }

    /** insertTL on the Timer list: sorted insertion by wake tick. */
    method InsertTL(l: DList, obj: nat)
      requires l.Valid() && obj !in l.elems && obj in nTCnt && Keyed(l.elems, nTCnt)
      modifies l
      ensures l.Valid() && l.elems == InsertByKey(old(l.elems), nTCnt, obj)
    {
      l.Insert(obj, nTCnt);
    }

    /** The running task leaves the Ready list and joins the Waiting list, sorted
        by deadline (insertRL(waitingL, extractRL(readyL)); uppdateRunning()). */
    method MoveRunningToWaiting()
      requires Valid() && running.Some?
      modifies this`running, readyL, waitingL
      ensures Valid() && Tasks() == old(Tasks())
      ensures View() == Suspend(old(View()))
      ensures timerL.elems == old(timerL.elems)
    {
      ReadyToWaitingInv(readyL.elems, waitingL.elems, timerL.elems, deadLine, nTCnt, message, nextNode);
      var x := readyL.ExtractFront();
      InsertRL(waitingL, x.id);
      // uppdateRunning
      var f := readyL.First();
      running := if f.Elem? then Some(f.id) else None;
    }

    /** A blocked task t is plucked out of the Waiting list by reference and put
        into the Ready list by deadline (insertRL(readyL, extractWL(waitingL, t));
        uppdateRunning()). When t is not in the Waiting list the model moves
        nothing. */
    method MoveWaitingToReady(t: nat)
      requires Valid()
      modifies this`running, readyL, waitingL
      ensures Valid() && Tasks() == old(Tasks())
      ensures View() == Release(old(View()), t)
      ensures timerL.elems == old(timerL.elems)
    {
      if t in waitingL.elems {
        WaitingToReadyInv(readyL.elems, waitingL.elems, timerL.elems, deadLine, nTCnt, message, nextNode,
          IndexOf(waitingL.elems, t));
      }
      var e := waitingL.ExtractRef(t);
      if e.Some? {
        InsertRL(readyL, t);
      }
      // uppdateRunning
      var f := readyL.First();
      running := if f.Elem? then Some(f.id) else None;
    }

    /** init_kernel: fails in running mode; otherwise the tick counter is reset,
        three empty lists are created, the idle task is created with deadline
        5000, and the kernel is left in start-up mode. */
    method InitKernel() returns (st: Exception, ghost idle: nat)
      requires readyL != waitingL && readyL != timerL && waitingL != timerL
      modifies this, readyL, waitingL, timerL
      ensures old(kernelMode) == RUNNING ==>
        st == FAIL && unchanged(this) && unchanged(readyL, waitingL, timerL)
      ensures old(kernelMode) != RUNNING ==>
        (st == OK && Valid() && tc == 0 && kernelMode == INIT &&
         readyL.elems == [idle] && waitingL.elems == [] && timerL.elems == [] &&
         idle in deadLine && deadLine[idle] == IDLE_DEADLINE && idle in pc && pc[idle] == IDLE_ENTRY &&
         running == Some(idle))
    {
      idle := 0;
      if kernelMode == RUNNING {
        return FAIL, idle;
      }
      ResetLists();
      idle := nextNode;
      st := CreateTask(IDLE_ENTRY, IDLE_DEADLINE, true);
      assert InsertByKey([], deadLine, idle) == [idle];
      kernelMode := INIT;
    }

    /** The first half of init_kernel: TC is reset and three new, empty lists
        replace the old ones. */
    method ResetLists()
      requires readyL != waitingL && readyL != timerL && waitingL != timerL
      modifies this`tc, this`running, timerL, waitingL, readyL
      ensures Valid() && tc == 0 && running == None
      ensures readyL.elems == [] && waitingL.elems == [] && timerL.elems == []
    {
      tc := 0;
      timerL.Clear();
      waitingL.Clear();
      readyL.Clear();
      running := None;
    }

    /** create_task: FAIL for a zero deadline, a NULL body or a failed
        allocation, with nothing changed; otherwise a new node with the given
        deadline and body is inserted into the Ready list at its EDF position,
        Running is refreshed, and the result is OK. In running mode the same
        insertion is the first pass of a scheduling point whose resumption
        returns OK. */
    method CreateTask(taskBody: Addr, deadline: u32, allocOk: bool) returns (st: Exception)
      requires Valid()
      modifies this`deadLine, this`nTCnt, this`message, this`pc, this`nextNode, this`running, readyL
      ensures Valid()
      ensures st == OK <==> deadline != 0 && taskBody != NULL && allocOk
      ensures st != OK ==> (st == FAIL && readyL.elems == old(readyL.elems) &&
        running == old(running) && nextNode == old(nextNode) && deadLine == old(deadLine) &&
        nTCnt == old(nTCnt) && message == old(message) && pc == old(pc) && unchanged(readyL))
      ensures st == OK ==>
        (var id := old(nextNode);
         nextNode == id + 1 && deadLine == old(deadLine)[id := deadline] &&
         nTCnt == old(nTCnt)[id := 0] && message == old(message)[id := None] &&
         pc == old(pc)[id := taskBody] && id !in old(readyL.elems) &&
         readyL.elems == InsertByKey(old(readyL.elems), deadLine, id) &&
         Tasks() == old(Tasks()) + multiset{id})
      ensures waitingL.elems == old(waitingL.elems) && timerL.elems == old(timerL.elems)
    {
      if deadline == 0 || taskBody == NULL {
        return FAIL;
      }
      var pObj := NewReadyTask(taskBody, deadline, allocOk);
      st := if pObj == None then FAIL else OK;
    }

    /** create_task past its argument checks: create_listobjRL, the PC write,
        and insertRL(readyL, pObj) with uppdateRunning when the node is
        allocated; nothing changes when it is not. */
    method NewReadyTask(taskBody: Addr, deadline: u32, allocOk: bool) returns (obj: Option<nat>)
      requires Valid()
      modifies this`deadLine, this`nTCnt, this`message, this`pc, this`nextNode, this`running, readyL
      ensures Valid()
      ensures obj.Some? <==> allocOk
      ensures obj == None ==> (readyL.elems == old(readyL.elems) &&
        running == old(running) && nextNode == old(nextNode) && deadLine == old(deadLine) &&
        nTCnt == old(nTCnt) && message == old(message) && pc == old(pc) && unchanged(readyL))
      ensures obj.Some? ==>
        (var id := old(nextNode);
         obj.value == id && nextNode == id + 1 && deadLine == old(deadLine)[id := deadline] &&
         nTCnt == old(nTCnt)[id := 0] && message == old(message)[id := None] &&
         pc == old(pc)[id := taskBody] && id !in old(readyL.elems) &&
         readyL.elems == InsertByKey(old(readyL.elems), deadLine, id) &&
         Tasks() == old(Tasks()) + multiset{id})
      ensures waitingL.elems == old(waitingL.elems) && timerL.elems == old(timerL.elems)
    {
      obj := CreateListObjRL(deadline, allocOk);
      if obj.Some? {
        InstallTask(obj.value, taskBody);
        Overwrite(old(pc), obj.value, NULL, taskBody);
      }
    }

    /** pObj->pTask->PC = task_body; insertRL(readyL, pObj); uppdateRunning():
        a node in no list gets its body and joins the Ready list at its EDF
        position. */
    method InstallTask(id: nat, taskBody: Addr)
      requires Valid() && id in deadLine && id in nTCnt && id in message && id < nextNode
      requires id !in readyL.elems && id !in waitingL.elems && id !in timerL.elems
      modifies this`pc, this`running, readyL
      ensures Valid() && Tasks() == old(Tasks()) + multiset{id}
      ensures readyL.elems == InsertByKey(old(readyL.elems), deadLine, id)
      ensures waitingL.elems == old(waitingL.elems) && timerL.elems == old(timerL.elems)
      ensures pc == old(pc)[id := taskBody]
    {
      SetPC(id, taskBody);
      AddToReady(id);
    }

    /** pObj->pTask->PC = task_body. */
    method SetPC(id: nat, taskBody: Addr)
      requires Valid()
      modifies this`pc
      ensures Valid() && pc == old(pc)[id := taskBody]
    {
      pc := pc[id := taskBody];
    }

    /** insertRL(readyL, pObj); uppdateRunning() for a node in no list: it
        joins the Ready list at its EDF position. */
    method AddToReady(id: nat)
      requires Valid() && id in deadLine && id in nTCnt && id in message && id < nextNode
      requires id !in readyL.elems && id !in waitingL.elems && id !in timerL.elems
      modifies this`running, readyL
      ensures Valid() && Tasks() == old(Tasks()) + multiset{id}
      ensures readyL.elems == InsertByKey(old(readyL.elems), deadLine, id)
      ensures waitingL.elems == old(waitingL.elems) && timerL.elems == old(timerL.elems)
      ensures deadLine == old(deadLine) && pc == old(pc) && nextNode == old(nextNode)
    {
      ReadyInsertInv(readyL.elems, waitingL.elems, timerL.elems, deadLine, nTCnt, message, nextNode, id);
      InsertRL(readyL, id);
      UpdateRunning();
    }

    /** run: the kernel enters running mode (starting the tick source, enabling
        interrupts and loading the first context are not modelled). */
    method Run()
      modifies this`kernelMode
      ensures kernelMode == RUNNING
    {
      kernelMode := RUNNING;
    }

    /** terminate: the running task's node, the Ready list's first, is removed
        and Running becomes the new first node's task. */
    method Terminate()
      requires Valid() && running.Some?
      modifies this`running, readyL
      ensures Valid()
      ensures readyL.elems == old(readyL.elems)[1..] && old(running.value) !in readyL.elems
      ensures Tasks() == old(Tasks()) - multiset{old(running.value)}
      ensures waitingL.elems == old(waitingL.elems) && timerL.elems == old(timerL.elems)
    {
      DropFrontInv(readyL.elems, waitingL.elems, timerL.elems, deadLine, nTCnt, message, nextNode);
      var x := readyL.ExtractFront();
      UpdateRunning();
    }
  }
}
