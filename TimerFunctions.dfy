/** Timing functions (TimerFunctions.c): the tick counter, deadlines, the
    blocking wait, and the tick interrupt that promotes tasks from the Timer
    and Waiting lists into the Ready list. */
module TimerFunctions {
  import opened Types
  import opened Listor
  import opened TaskAdministration

  /** The status a blocking call returns when it resumes: DEADLINE_REACHED
      once the tick counter has reached the task's deadline, OK before. */
  function DeadlineStatus(deadline: u32, tc: u32): (st: Exception)
    ensures st == DEADLINE_REACHED <==> deadline <= tc
    ensures st == OK <==> tc < deadline
  {
    if deadline <= tc then DEADLINE_REACHED else OK
  }

  /** set_ticks: the tick counter takes the given value. */
  method SetTicks(k: Kernel, noOfTicks: u32)
    modifies k`tc
    ensures k.tc == noOfTicks
  {
    k.tc := noOfTicks;
  }

  /** ticks: the current value of the tick counter. */
  function Ticks(k: Kernel): (r: u32)
    reads k
    ensures r == k.tc
  {
    k.tc
  }

  /** deadline: the running task's deadline, which under EDF is the earliest
      deadline of every ready task. */
  function Deadline(k: Kernel): (r: u32)
    reads k, k.readyL, k.waitingL, k.timerL
    requires k.Valid() && k.running.Some?
    ensures k.running.value in k.deadLine && r == k.deadLine[k.running.value]
    ensures forall x :: x in k.readyL.elems ==> x in k.deadLine && r <= k.deadLine[x]
  {
    EarliestFirst(k.readyL.elems, k.deadLine);
    k.deadLine[k.running.value]
  }

  /** The first node of a list sorted by key has the smallest key. */
  lemma EarliestFirst(s: seq<nat>, key: map<nat, u32>)
    requires SortedBy(s, key) && s != []
    ensures forall x :: x in s ==> x in key && key[s[0]] <= key[x]
  {
    forall x | x in s
      ensures x in key && key[s[0]] <= key[x]
    {
      var j := IndexOf(s, x);
      if j > 0 {
        assert key[s[0]] <= key[s[j]];
      }
    }
  }

  /** The first pass of wait: the running task's node gets wake tick
      TC + nTicks (wrapping as uint does), leaves the Ready list for its sorted
      place in the Timer list, and Running becomes the new first ready task. */
  method Wait(k: Kernel, nTicks: u32)
    requires k.Valid() && k.running.Some?
    modifies k`nTCnt, k`running, k.readyL, k.timerL
    ensures k.Valid() && k.Tasks() == old(k.Tasks())
    ensures k.nTCnt == old(k.nTCnt)[old(k.running.value) := AddU32(old(k.tc), nTicks)]
    ensures k.readyL.elems == old(k.readyL.elems)[1..]
    ensures k.timerL.elems == InsertByKey(old(k.timerL.elems), k.nTCnt, old(k.running.value))
    ensures k.waitingL.elems == old(k.waitingL.elems)
  {
    var t := k.running.value;
    var tk := k.nTCnt[t := AddU32(k.tc, nTicks)];
    ReadyToTimerInv(k.readyL.elems, k.waitingL.elems, k.timerL.elems, k.deadLine, k.nTCnt, k.message,
      k.nextNode, AddU32(k.tc, nTicks));
    var x := k.readyL.ExtractFront();
    k.timerL.Insert(x.id, tk);
    k.nTCnt := tk;
    k.UpdateRunning();
  }

  /** The resumption of wait: DEADLINE_REACHED when the running task's
      deadline is not after TC, otherwise OK. Nothing changes. */
  method WaitResume(k: Kernel) returns (st: Exception)
    requires k.Valid() && k.running.Some?
    ensures st == DeadlineStatus(Deadline(k), k.tc)
    ensures st == DEADLINE_REACHED <==> k.deadLine[k.running.value] <= k.tc
  {
    if k.deadLine[k.running.value] <= k.tc {
      st := DEADLINE_REACHED;
    } else {
      st := OK;
    }
  }

  /** set_deadline: the running task's deadline becomes nDeadline and its
      node is taken off the front of the Ready list and re-inserted at its new
      EDF position; Running becomes the new first ready task. */
  method SetDeadline(k: Kernel, nDeadline: u32)
    requires k.Valid() && k.running.Some?
    modifies k`deadLine, k`running, k.readyL
    ensures k.Valid() && k.Tasks() == old(k.Tasks())
    ensures k.deadLine == old(k.deadLine)[old(k.running.value) := nDeadline]
    ensures k.readyL.elems == InsertByKey(old(k.readyL.elems)[1..], k.deadLine, old(k.running.value))
    ensures multiset(k.readyL.elems) == multiset(old(k.readyL.elems))
    ensures k.waitingL.elems == old(k.waitingL.elems) && k.timerL.elems == old(k.timerL.elems)
  {
    var t := k.running.value;
    var dl := k.deadLine[t := nDeadline];
    ReinsertInv(k.readyL.elems, k.waitingL.elems, k.timerL.elems, k.deadLine, k.nTCnt, k.message, k.nextNode,
      nDeadline);
    var x := ReinsertFront(k.readyL, dl);
    k.deadLine := dl;
    k.UpdateRunning();
  }

  /** extractRL(readyL) followed by insertRL(readyL, ...) under the deadline
      map dl: the first node goes back in at its place by dl. */
  method ReinsertFront(l: DList, dl: map<nat, u32>) returns (x: nat)
    requires l.Valid() && l.elems != [] && Keyed(l.elems[1..], dl) && l.elems[0] in dl
    requires l.elems[0] !in l.elems[1..]
    modifies l
    ensures l.Valid() && x == old(l.elems)[0] && l.elems == InsertByKey(old(l.elems)[1..], dl, x)
  {
    var r := l.ExtractFront();
    x := r.id;
    l.Insert(x, dl);
  }

  /** insertRL(readyL, extractRL(timmerL)); uppdateRunning(): the Timer
      list's first node moves into the Ready list by deadline. */
  method TimerFrontToReady(k: Kernel) returns (x: nat)
    requires k.Valid() && k.timerL.elems != []
    modifies k`running, k.readyL, k.timerL
    ensures k.Valid() && k.Tasks() == old(k.Tasks())
    ensures x == old(k.timerL.elems)[0] && k.timerL.elems == old(k.timerL.elems)[1..]
    ensures k.readyL.elems == InsertByKey(old(k.readyL.elems), k.deadLine, x)
    ensures multiset(k.readyL.elems) == multiset(old(k.readyL.elems)) + multiset{x}
    ensures k.waitingL.elems == old(k.waitingL.elems)
    ensures unchanged(k`tc, k`nTCnt, k`deadLine)
  {
    TimerToReadyInv(k.readyL.elems, k.waitingL.elems, k.timerL.elems, k.deadLine, k.nTCnt, k.message,
      k.nextNode);
    InsertByKeyContents(k.readyL.elems, k.deadLine, k.timerL.elems[0]);
    var r := k.timerL.ExtractFront();
    x := r.id;
    k.InsertRL(k.readyL, x);
    k.UpdateRunning();
  }

  /** insertRL(readyL, extractWL(waitingL, waitingL->pHead->pNext));
      uppdateRunning(): the Waiting list's first node moves into the Ready
      list by deadline. */
  method WaitingFrontToReady(k: Kernel) returns (x: nat)
    requires k.Valid() && k.waitingL.elems != []
    modifies k`running, k.readyL, k.waitingL
    ensures k.Valid() && k.Tasks() == old(k.Tasks())
    ensures x == old(k.waitingL.elems)[0] && k.waitingL.elems == old(k.waitingL.elems)[1..]
    ensures k.readyL.elems == InsertByKey(old(k.readyL.elems), k.deadLine, x)
    ensures multiset(k.readyL.elems) == multiset(old(k.readyL.elems)) + multiset{x}
    ensures k.timerL.elems == old(k.timerL.elems)
    ensures unchanged(k`tc, k`nTCnt, k`deadLine)
  {
    ghost var w0 := k.waitingL.elems;
    var f := k.waitingL.First();
    x := f.id;
    WaitingToReadyInv(k.readyL.elems, w0, k.timerL.elems, k.deadLine, k.nTCnt, k.message, k.nextNode, 0);
    InsertByKeyContents(k.readyL.elems, k.deadLine, x);
    var e := k.waitingL.ExtractRef(x);
    assert IndexOf(w0, x) == 0;
    assert RemoveAt(w0, 0) == w0[1..];
    k.InsertRL(k.readyL, x);
    k.UpdateRunning();
  }

  /** How far a scan of a list o has got: the first n nodes of o have been
      moved, in order, from the scanned list T into the Ready list R (which
      started as r0), and the last of them was due at tick tc. */
  ghost predicate ScanProgress(o: seq<nat>, r0: seq<nat>, dl: map<nat, u32>, key: map<nat, u32>, tc: u32,
                               n: nat, T: seq<nat>, R: seq<nat>)
  {
    SortedBy(o, key) && Keyed(r0, dl) && Keyed(o, dl) &&
    n <= |o| && T == o[n..] && R == InsertAll(r0, dl, o[..n]) &&
    (n > 0 ==> key[o[n - 1]] <= tc)
  }

  /** Where the scan's cursor can be. It sits at chain position i - 1 of the
      list T, so its successor is at position i. The first due node is moved
      while the cursor is at the head; after that the cursor stands on the new
      first node, and only if the node after it is due as well is that first
      node moved too. A cursor that has passed the first node without a
      move has seen it not due, and one that has passed the second node of T
      after one move has seen the third node of o not due. */
  ghost predicate ScanCursor(o: seq<nat>, key: map<nat, u32>, tc: u32, n: nat, T: seq<nat>, cur: Ref, i: int)
  {
    0 <= i <= |T| + 1 && cur == At(T, i - 1) && n <= 1 &&
    (i == 0 ==> n == 0) && (n == 1 ==> i >= 1) &&
    (n == 0 && i > 0 ==> o != [] && o[0] in key && key[o[0]] > tc) &&
    (n == 1 && i >= 2 ==> |o| >= 3 && o[2] in key && key[o[2]] > tc)
  }

  /** A due successor is only met with the cursor at the head (nothing moved
      yet) or on the first node of the list after one move. */
  lemma DueCursor(o: seq<nat>, key: map<nat, u32>, tc: u32, n: nat, T: seq<nat>, cur: Ref, i: int)
    requires SortedBy(o, key) && n <= |o| && T == o[n..] && ScanCursor(o, key, tc, n, T, cur, i)
    requires i < |T| && key[T[i]] <= tc
    ensures n == i
  {
    SortedPair(o, key, if n == 0 then 0 else 2, n + i);
  }

  /** Two positions of a sorted list are in key order. */
  lemma SortedPair(s: seq<nat>, key: map<nat, u32>, i: int, j: int)
    requires SortedBy(s, key) && 0 <= i <= j < |s|
    ensures s[i] in key && s[j] in key && key[s[i]] <= key[s[j]]
  {
  }

  /** What a scan has moved: a prefix of o, now in the Ready list, with no
      node of any list lost or duplicated. */
  lemma ScanMoved(o: seq<nat>, r0: seq<nat>, dl: map<nat, u32>, key: map<nat, u32>, tc: u32,
                  n: nat, T: seq<nat>, R: seq<nat>)
    requires ScanProgress(o, r0, dl, key, tc, n, T, R)
    ensures o == o[..n] + T
    ensures multiset(R) == multiset(r0) + multiset(o[..n])
    ensures forall w {:trigger AllTasks(R, w, T)} :: AllTasks(R, w, T) == AllTasks(r0, w, o)
    ensures forall t {:trigger AllTasks(R, T, t)} :: AllTasks(R, T, t) == AllTasks(r0, o, t)
  {
    InsertAllContents(r0, dl, o[..n]);
    assert o == o[..n] + o[n..];
  }

  /** How many nodes a finished scan has moved: the first node of o exactly
      when it was due, the first two exactly when the third node was due as
      well, never more, and every one of them due. */
  lemma {:induction false} ScanCount(o: seq<nat>, r0: seq<nat>, dl: map<nat, u32>, key: map<nat, u32>, tc: u32,
                                     n: nat, T: seq<nat>, R: seq<nat>, cur: Ref, i: int)
    requires ScanProgress(o, r0, dl, key, tc, n, T, R)
    requires (n == 2 && |o| >= 3 && key[o[2]] <= tc) ||
             (ScanCursor(o, key, tc, n, T, cur, i) && At(T, i) == Tail)
    ensures forall x :: x in o[..n] ==> x in key && key[x] <= tc
    ensures n <= 2
    ensures n > 0 <==> o != [] && key[o[0]] <= tc
    ensures n == 2 <==> |o| >= 3 && key[o[2]] <= tc
  {
    forall x | x in o[..n] ensures x in key && key[x] <= tc {
      var j :| 0 <= j < n && o[j] == x;
      SortedPair(o, key, j, n - 1);
    }
    if n < 2 && |o| >= 3 && key[o[2]] <= tc {
      SortedPair(o, key, 0, 2);
    }
  }

  /** One due step of the Timer-list scan: the list's first node moves to the
      Ready list; then either the cursor was that node (the scan ends) or the
      cursor, at the head, steps to the new first node. */
  method TimerDueStep(k: Kernel, ghost o: seq<nat>, ghost r0: seq<nat>, ghost w0: seq<nat>, ghost n: nat,
                      cur: Ref, ghost i: int, succ: Ref)
    returns (ghost n': nat, cur': Ref, ghost i': int, succ': Ref, stop: bool)
    requires k.Valid() && k.waitingL.elems == w0
    requires ScanProgress(o, r0, k.deadLine, k.nTCnt, k.tc, n, k.timerL.elems, k.readyL.elems)
    requires ScanCursor(o, k.nTCnt, k.tc, n, k.timerL.elems, cur, i)
    requires succ == At(k.timerL.elems, i) && succ != Tail && k.nTCnt[succ.id] <= k.tc
    modifies k`running, k.readyL, k.timerL
    ensures k.Valid() && k.waitingL.elems == w0 && n' == n + 1
    ensures ScanProgress(o, r0, k.deadLine, k.nTCnt, k.tc, n', k.timerL.elems, k.readyL.elems)
    ensures stop ==> n' == 2 && |o| >= 3 && k.nTCnt[o[2]] <= k.tc
    ensures !stop ==> ScanCursor(o, k.nTCnt, k.tc, n', k.timerL.elems, cur', i')
    ensures !stop ==> succ' == At(k.timerL.elems, i') && |k.timerL.elems| + 1 - i' < old(|k.timerL.elems|) + 1 - i
  {
    DueCursor(o, k.nTCnt, k.tc, n, k.timerL.elems, cur, i);
    var x := TimerFrontToReady(k);
    assert o[..n + 1][..n] == o[..n];
    n' := n + 1;
    if cur == Elem(x) {
      cur', i', succ', stop := cur, i, succ, true;
    } else {
      cur' := k.timerL.Succ(cur, -1);
      i', stop := 1, false;
      succ' := k.timerL.Succ(cur', 0);
    }
  }

  /** One step of the Timer-list scan whose successor is not due: the cursor
      steps on. */
  method TimerSkipStep(k: Kernel, ghost o: seq<nat>, ghost n: nat, cur: Ref, ghost i: int, succ: Ref)
    returns (cur': Ref, ghost i': int, succ': Ref)
    requires k.Valid() && SortedBy(o, k.nTCnt) && n <= |o| && k.timerL.elems == o[n..]
    requires ScanCursor(o, k.nTCnt, k.tc, n, k.timerL.elems, cur, i)
    requires succ == At(k.timerL.elems, i) && succ != Tail && k.nTCnt[succ.id] > k.tc
    ensures ScanCursor(o, k.nTCnt, k.tc, n, k.timerL.elems, cur', i')
    ensures succ' == At(k.timerL.elems, i') && i' == i + 1
  {
    cur' := succ;
    i' := i + 1;
    succ' := k.timerL.Succ(cur', i);
  }

  /** The Timer-list half of TimerInt. A cursor starts at the head and, while
      its successor is not the tail, moves the list's FIRST node to the Ready
      list when the successor's wake tick is not after TC, then steps to its
      own successor. The scan stops once the cursor itself was the node just
      moved, whose successor is then a Ready-list node. So the first node is
      moved exactly when it is due, the second one as well exactly when the
      third one is due, and no other node is moved. */
  method ScanTimer(k: Kernel) returns (ghost moved: seq<nat>)
    requires k.Valid()
    modifies k`running, k.readyL, k.timerL
    ensures k.Valid() && k.Tasks() == old(k.Tasks())
    ensures old(k.timerL.elems) == moved + k.timerL.elems
    ensures k.readyL.elems == InsertAll(old(k.readyL.elems), k.deadLine, moved)
    ensures multiset(k.readyL.elems) == multiset(old(k.readyL.elems)) + multiset(moved)
    ensures forall x :: x in moved ==> x in k.nTCnt && k.nTCnt[x] <= k.tc
    ensures |moved| <= 2
    ensures moved != [] <==> (old(k.timerL.elems) != [] && k.nTCnt[old(k.timerL.elems)[0]] <= k.tc)
    ensures |moved| == 2 <==> (|old(k.timerL.elems)| >= 3 && k.nTCnt[old(k.timerL.elems)[2]] <= k.tc)
    ensures k.waitingL.elems == old(k.waitingL.elems)
    ensures unchanged(k`tc, k`nTCnt, k`deadLine)
  {
    ghost var o, r0 := k.timerL.elems, k.readyL.elems;
    ghost var n, cur, i := TimerScanLoop(k);
    ScanMoved(o, r0, k.deadLine, k.nTCnt, k.tc, n, k.timerL.elems, k.readyL.elems);
    ScanCount(o, r0, k.deadLine, k.nTCnt, k.tc, n, k.timerL.elems, k.readyL.elems, cur, i);
    moved := o[..n];
  }

  /** The loop of the Timer-list scan, ending with the scan finished: either
      it broke off after moving two nodes, or the cursor's successor is the
      tail. */
  method TimerScanLoop(k: Kernel) returns (ghost n: nat, ghost last: Ref, ghost i: int)
    requires k.Valid()
    modifies k`running, k.readyL, k.timerL
    ensures k.Valid() && k.waitingL.elems == old(k.waitingL.elems)
    ensures ScanProgress(old(k.timerL.elems), old(k.readyL.elems), k.deadLine, k.nTCnt, k.tc, n,
      k.timerL.elems, k.readyL.elems)
    ensures (n == 2 && |old(k.timerL.elems)| >= 3 && k.nTCnt[old(k.timerL.elems)[2]] <= k.tc) ||
      (ScanCursor(old(k.timerL.elems), k.nTCnt, k.tc, n, k.timerL.elems, last, i) &&
       At(k.timerL.elems, i) == Tail)
  {
    ghost var o, r0, w0 := k.timerL.elems, k.readyL.elems, k.waitingL.elems;
    n := 0;
    var cur := Head;
    i := 0;
    var succ := k.timerL.Succ(cur, -1);
    while succ != Tail
      invariant k.Valid() && k.waitingL.elems == w0
      invariant ScanProgress(o, r0, k.deadLine, k.nTCnt, k.tc, n, k.timerL.elems, k.readyL.elems)
      invariant ScanCursor(o, k.nTCnt, k.tc, n, k.timerL.elems, cur, i)
      invariant succ == At(k.timerL.elems, i)
      decreases |k.timerL.elems| + 1 - i
    {
      if k.nTCnt[succ.id] <= k.tc {
        var stop;
        n, cur, i, succ, stop := TimerDueStep(k, o, r0, w0, n, cur, i, succ);
        if stop {
          break;
        }
      } else {
        cur, i, succ := TimerSkipStep(k, o, n, cur, i, succ);
      }
    }
    last := cur;
  }
  /** One due step of the Waiting-list scan: the list's first node moves to the
      Ready list; then either the cursor was that node (the scan ends) or the
      cursor, at the head, steps to the new first node. */
  method WaitingDueStep(k: Kernel, ghost o: seq<nat>, ghost r0: seq<nat>, ghost t0: seq<nat>, ghost n: nat,
                      cur: Ref, ghost i: int, succ: Ref)
    returns (ghost n': nat, cur': Ref, ghost i': int, succ': Ref, stop: bool)
    requires k.Valid() && k.timerL.elems == t0
    requires ScanProgress(o, r0, k.deadLine, k.deadLine, k.tc, n, k.waitingL.elems, k.readyL.elems)
    requires ScanCursor(o, k.deadLine, k.tc, n, k.waitingL.elems, cur, i)
    requires succ == At(k.waitingL.elems, i) && succ != Tail && k.deadLine[succ.id] <= k.tc
    modifies k`running, k.readyL, k.waitingL
    ensures k.Valid() && k.timerL.elems == t0 && n' == n + 1
    ensures ScanProgress(o, r0, k.deadLine, k.deadLine, k.tc, n', k.waitingL.elems, k.readyL.elems)
    ensures stop ==> n' == 2 && |o| >= 3 && k.deadLine[o[2]] <= k.tc
    ensures !stop ==> ScanCursor(o, k.deadLine, k.tc, n', k.waitingL.elems, cur', i')
    ensures !stop ==> succ' == At(k.waitingL.elems, i') && |k.waitingL.elems| + 1 - i' < old(|k.waitingL.elems|) + 1 - i
  {
    DueCursor(o, k.deadLine, k.tc, n, k.waitingL.elems, cur, i);
    var x := WaitingFrontToReady(k);
    assert o[..n + 1][..n] == o[..n];
    n' := n + 1;
    if cur == Elem(x) {
      cur', i', succ', stop := cur, i, succ, true;
    } else {
      cur' := k.waitingL.Succ(cur, -1);
      i', stop := 1, false;
      succ' := k.waitingL.Succ(cur', 0);
    }
  }

  /** One step of the Waiting-list scan whose successor is not due: the cursor
      steps on. */
  method WaitingSkipStep(k: Kernel, ghost o: seq<nat>, ghost n: nat, cur: Ref, ghost i: int, succ: Ref)
    returns (cur': Ref, ghost i': int, succ': Ref)
    requires k.Valid() && SortedBy(o, k.deadLine) && n <= |o| && k.waitingL.elems == o[n..]
    requires ScanCursor(o, k.deadLine, k.tc, n, k.waitingL.elems, cur, i)
    requires succ == At(k.waitingL.elems, i) && succ != Tail && k.deadLine[succ.id] > k.tc
    ensures ScanCursor(o, k.deadLine, k.tc, n, k.waitingL.elems, cur', i')
    ensures succ' == At(k.waitingL.elems, i') && i' == i + 1
  {
    cur' := succ;
    i' := i + 1;
    succ' := k.waitingL.Succ(cur', i);
  }

  /** The Waiting-list half of TimerInt: the same scan as on the Timer list,
      with the task deadline in place of the wake tick. So the first waiting
      node is moved exactly when its deadline is not after TC, the second one
      as well exactly when the third one's deadline is not after TC either,
      and no other node is moved. The mailbox entries of the moved tasks are
      left as they are. */
  method ScanWaiting(k: Kernel) returns (ghost moved: seq<nat>)
    requires k.Valid()
    modifies k`running, k.readyL, k.waitingL
    ensures k.Valid() && k.Tasks() == old(k.Tasks())
    ensures old(k.waitingL.elems) == moved + k.waitingL.elems
    ensures k.readyL.elems == InsertAll(old(k.readyL.elems), k.deadLine, moved)
    ensures multiset(k.readyL.elems) == multiset(old(k.readyL.elems)) + multiset(moved)
    ensures forall x :: x in moved ==> x in k.deadLine && k.deadLine[x] <= k.tc
    ensures |moved| <= 2
    ensures moved != [] <==> (old(k.waitingL.elems) != [] && k.deadLine[old(k.waitingL.elems)[0]] <= k.tc)
    ensures |moved| == 2 <==> (|old(k.waitingL.elems)| >= 3 && k.deadLine[old(k.waitingL.elems)[2]] <= k.tc)
    ensures k.timerL.elems == old(k.timerL.elems)
    ensures unchanged(k`tc, k`nTCnt, k`deadLine)
  {
    ghost var o, r0 := k.waitingL.elems, k.readyL.elems;
    ghost var n, cur, i := WaitingScanLoop(k);
    ScanMoved(o, r0, k.deadLine, k.deadLine, k.tc, n, k.waitingL.elems, k.readyL.elems);
    ScanCount(o, r0, k.deadLine, k.deadLine, k.tc, n, k.waitingL.elems, k.readyL.elems, cur, i);
    moved := o[..n];
  }

  /** The loop of the Waiting-list scan, ending with the scan finished: either
      it broke off after moving two nodes, or the cursor's successor is the
      tail. */
  method WaitingScanLoop(k: Kernel) returns (ghost n: nat, ghost last: Ref, ghost i: int)
    requires k.Valid()
    modifies k`running, k.readyL, k.waitingL
    ensures k.Valid() && k.timerL.elems == old(k.timerL.elems)
    ensures ScanProgress(old(k.waitingL.elems), old(k.readyL.elems), k.deadLine, k.deadLine, k.tc, n,
      k.waitingL.elems, k.readyL.elems)
    ensures (n == 2 && |old(k.waitingL.elems)| >= 3 && k.deadLine[old(k.waitingL.elems)[2]] <= k.tc) ||
      (ScanCursor(old(k.waitingL.elems), k.deadLine, k.tc, n, k.waitingL.elems, last, i) &&
       At(k.waitingL.elems, i) == Tail)
  {
    ghost var o, r0, t0 := k.waitingL.elems, k.readyL.elems, k.timerL.elems;
    n := 0;
    var cur := Head;
    i := 0;
    var succ := k.waitingL.Succ(cur, -1);
    while succ != Tail
      invariant k.Valid() && k.timerL.elems == t0
      invariant ScanProgress(o, r0, k.deadLine, k.deadLine, k.tc, n, k.waitingL.elems, k.readyL.elems)
      invariant ScanCursor(o, k.deadLine, k.tc, n, k.waitingL.elems, cur, i)
      invariant succ == At(k.waitingL.elems, i)
      decreases |k.waitingL.elems| + 1 - i
    {
      if k.deadLine[succ.id] <= k.tc {
        var stop;
        n, cur, i, succ, stop := WaitingDueStep(k, o, r0, t0, n, cur, i, succ);
        if stop {
          break;
        }
      } else {
        cur, i, succ := WaitingSkipStep(k, o, n, cur, i, succ);
      }
    }
    last := cur;
  }
  /** TC++: the tick counter advances by one, wrapping as uint does. */
  method Tick(k: Kernel)
    requires k.Valid()
    modifies k`tc
    ensures k.Valid() && k.tc == AddU32(old(k.tc), 1)
  {
    k.tc := AddU32(k.tc, 1);
  }

  /** TimerInt: TC is incremented by one (wrapping as uint does), then the
      Timer list and the Waiting list are scanned against the new TC. Every
      node moved comes off the front of its list into the Ready list at its
      place by deadline, and no node is lost or duplicated. */
  method TimerInt(k: Kernel) returns (ghost movedT: seq<nat>, ghost movedW: seq<nat>)
    requires k.Valid()
    modifies k`tc, k`running, k.readyL, k.waitingL, k.timerL
    ensures k.Valid() && k.Tasks() == old(k.Tasks())
    ensures k.tc == AddU32(old(k.tc), 1)
    ensures old(k.timerL.elems) == movedT + k.timerL.elems
    ensures old(k.waitingL.elems) == movedW + k.waitingL.elems
    ensures k.readyL.elems == InsertAll(InsertAll(old(k.readyL.elems), k.deadLine, movedT), k.deadLine, movedW)
    ensures forall x :: x in movedT ==> x in k.nTCnt && k.nTCnt[x] <= k.tc
    ensures forall x :: x in movedW ==> x in k.deadLine && k.deadLine[x] <= k.tc
    ensures movedT != [] <==> (old(k.timerL.elems) != [] && k.nTCnt[old(k.timerL.elems)[0]] <= k.tc)
    ensures movedW != [] <==> (old(k.waitingL.elems) != [] && k.deadLine[old(k.waitingL.elems)[0]] <= k.tc)
  {
    Tick(k);
    movedT, movedW := Scan(k);
  }

  /** The two scans of TimerInt against the current TC. */
  method Scan(k: Kernel) returns (ghost movedT: seq<nat>, ghost movedW: seq<nat>)
    requires k.Valid()
    modifies k`running, k.readyL, k.waitingL, k.timerL
    ensures k.Valid() && k.Tasks() == old(k.Tasks())
    ensures old(k.timerL.elems) == movedT + k.timerL.elems
    ensures old(k.waitingL.elems) == movedW + k.waitingL.elems
    ensures k.readyL.elems == InsertAll(InsertAll(old(k.readyL.elems), k.deadLine, movedT), k.deadLine, movedW)
    ensures forall x :: x in movedT ==> x in k.nTCnt && k.nTCnt[x] <= k.tc
    ensures forall x :: x in movedW ==> x in k.deadLine && k.deadLine[x] <= k.tc
    ensures movedT != [] <==> (old(k.timerL.elems) != [] && k.nTCnt[old(k.timerL.elems)[0]] <= k.tc)
    ensures movedW != [] <==> (old(k.waitingL.elems) != [] && k.deadLine[old(k.waitingL.elems)[0]] <= k.tc)
    ensures unchanged(k`tc, k`nTCnt, k`deadLine)
  {
    ghost var w0 := k.waitingL.elems;
    movedT := ScanTimer(k);
    assert k.waitingL.elems == w0;
    movedW := ScanWaiting(k);
  }
}
