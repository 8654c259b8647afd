/** Inter-process communication (Communication.c): mailboxes and the four
    send/receive calls. A mailbox is a sentinel-headed list of message structs
    inserted at the front, with two signed counters: nMessages counts waiting
    send messages (+1 each) or waiting receive messages (-1 each), nBlockedMsg
    counts the entries whose task is blocked on them the same way.

    Each call is specified twice: as a function on values (a Box for the
    mailbox, a Sched for the kernel) that says what the call does, and as a
    method on the Mailbox and Kernel objects whose contract ties the new state
    to that function. The lemmas about the functions state what the calls
    promise. */
module Communication {
  import opened Types
  import opened Listor
  import opened TaskAdministration
  import opened TimerFunctions

  /** A message struct: its data pointer and pBlock, the list node of the task
      blocked on it (None for a send_no_wait message, whose pBlock is NULL). */
  datatype Msg = Msg(data: Addr, block: Option<nat>)

  /** The first pass of a blocking call either returns at once with a status
      or suspends the caller at a scheduling point; a suspended call gets its
      status when it resumes. */
  datatype Pass = Returned(st: Exception) | Suspended

  /** A mailbox as a value: its message list front first, the message structs
      it links (indexed by identity), nMessages, nBlockedMsg, nMaxMessages and
      the identity the next createMsg hands out. */
  datatype Box = Box(s: seq<nat>, msgs: map<nat, Msg>, nM: int, nB: int, cap: u32, nextMsg: nat)

  // ---------------------------------------------------------------------
  // Invariants
  // ---------------------------------------------------------------------

  /** Every entry of s is a send_no_wait message. */
  predicate AllBuffered(s: seq<nat>, msgs: map<nat, Msg>)
  {
    forall e :: e in s ==> e in msgs && msgs[e].block.None?
  }

  /** Every entry of s has a task blocked on it. */
  predicate AllBlocked(s: seq<nat>, msgs: map<nat, Msg>)
  {
    forall e :: e in s ==> e in msgs && msgs[e].block.Some?
  }

  /** The counters agree with the message list, which holds entries of one
      kind only: send_no_wait messages (nBlockedMsg 0, nMessages their number,
      at most the capacity), blocked senders (both counters their number, at
      most the capacity), or blocked receivers (both counters minus their
      number). An empty mailbox has both counters 0. */
  predicate Balanced(s: seq<nat>, msgs: map<nat, Msg>, nM: int, nB: int, cap: u32)
  {
    (nB == 0 && nM == |s| && |s| <= cap && AllBuffered(s, msgs)) ||
    (nB == nM && nM == |s| && 0 < |s| <= cap && AllBlocked(s, msgs)) ||
    (nB == nM && nM == -|s| && 0 < |s| && AllBlocked(s, msgs))
  }

  /** Identities are handed out in increasing order and insertMB links at the
      front, so the list runs from the newest message to the oldest. */
  predicate NewestFirst(s: seq<nat>)
  {
    forall i, j :: 0 <= i < j < |s| ==> s[i] > s[j]
  }

  /** The message structs are exactly the listed ones, all already handed
      out, and the list runs newest first. */
  predicate TidyBox(b: Box)
  {
    NewestFirst(b.s) &&
    (forall e :: e in b.s ==> e in b.msgs) &&
    (forall e :: e in b.msgs ==> e in b.s && e < b.nextMsg)
  }

  /** A consistent mailbox. */
  predicate WellBox(b: Box)
  {
    TidyBox(b) && Balanced(b.s, b.msgs, b.nM, b.nB, b.cap)
  }

  /** The mailbox agrees with the kernel: the task node a blocked entry names
      has its pMessage set, and while send messages wait their data can be
      read. */
  predicate Coherent(s: seq<nat>, msgs: map<nat, Msg>, nM: int,
                     taskMsg: map<nat, Option<nat>>, mem: map<Addr, Payload>)
  {
    forall e :: e in s && e in msgs ==>
      (msgs[e].block.Some? ==> msgs[e].block.value in taskMsg && taskMsg[msgs[e].block.value].Some?) &&
      (nM > 0 ==> msgs[e].data in mem)
  }

  /** The joint invariant of one mailbox and the kernel. */
  predicate Joint(b: Box, ks: Sched)
  {
    WellBox(b) && SchedInv(ks) && Coherent(b.s, b.msgs, b.nM, ks.taskMsg, ks.mem)
  }

  /** The test receive_wait and receive_no_wait use to tell a send_wait entry
      from a send_no_wait one: its task node's pMessage is set and blocked
      messages are counted. A send_no_wait entry has a NULL pBlock, which the
      code reads through; the model reads that case as "not a wait entry". */
  function IsWaitEntry(m: Msg, taskMsg: map<nat, Option<nat>>, nB: int): bool
  {
    m.block.Some? && m.block.value in taskMsg && taskMsg[m.block.value].Some? && nB != 0
  }

  // ---------------------------------------------------------------------
  // The steps the calls are made of
  // ---------------------------------------------------------------------

  /** createMsg and insertMB: a new message struct holding m is linked
      immediately after the head sentinel. */
  function Push(b: Box, m: Msg): Box
  {
    b.(s := [b.nextMsg] + b.s, msgs := b.msgs[b.nextMsg := m], nextMsg := b.nextMsg + 1)
  }

  /** remove_MBoxmsg(mBox->pHead->pNext): the front message struct is
      unlinked and released. */
  function PopFront(b: Box): Box
    requires b.s != []
  {
    b.(s := b.s[1..], msgs := b.msgs - {b.s[0]})
  }

  /** remove_OldMsg: the tail sentinel's predecessor is unlinked and released. */
  function PopOldest(b: Box): Box
    requires b.s != []
  {
    b.(s := b.s[..|b.s| - 1], msgs := b.msgs - {b.s[|b.s| - 1]})
  }

  /** The unlinking in remove_msgRL: message struct e is taken out of the
      list wherever it is. */
  function Drop(b: Box, e: nat): Box
    requires e in b.s
  {
    b.(s := RemoveAt(b.s, IndexOf(b.s, e)), msgs := b.msgs - {e})
  }

  /** nMessages += dM; nBlockedMsg += dB. */
  function Count(b: Box, dM: int, dB: int): Box
  {
    b.(nM := b.nM + dM, nB := b.nB + dB)
  }

  /** The message struct at the head's successor. */
  function Front(b: Box): Msg
    requires b.s != [] && b.s[0] in b.msgs
  {
    b.msgs[b.s[0]]
  }

  /** memcpy of one message: the payload at src is copied to dst. */
  function Copy(ks: Sched, dst: Addr, src: Addr): Sched
    requires src in ks.mem
  {
    ks.(mem := ks.mem[dst := ks.mem[src]])
  }

  /** pMessage of task node t becomes e. */
  function SetMsg(ks: Sched, t: nat, e: Option<nat>): Sched
  {
    ks.(taskMsg := ks.taskMsg[t := e])
  }

  // ---------------------------------------------------------------------
  // The calls
  // ---------------------------------------------------------------------

  /** The rendezvous of send_wait and send_no_wait with a waiting receiver:
      the sender's data is copied into the data area of the front (receive)
      entry, the entry is unlinked, both counters rise by one, and the
      receiving task moves from Waiting to its EDF place in Ready. */
  function Deliver(b: Box, ks: Sched, pData: Addr): (Box, Sched)
    requires Joint(b, ks) && b.nM < 0 && pData in ks.mem
  {
    FrontFacts(b, ks);
    var m := Front(b);
    (Count(PopFront(b), SENDER, SENDER), Release(Copy(ks, m.data, pData), m.block.value))
  }

  /** The blocking half of send_wait (d = SENDER) and receive_wait
      (d = RECEIVER): a new message struct holding the data pointer and the
      running task's node is linked at the front, the task's pMessage names
      it, both counters move by d, and the task moves from Ready to its EDF
      place in Waiting. */
  function Block(b: Box, ks: Sched, pData: Addr, d: int): (Box, Sched)
    requires WellSched(ks) && ks.r != []
  {
    var t := ks.r[0];
    (Count(Push(b, Msg(pData, Some(t))), d, d), Suspend(SetMsg(ks, t, Some(b.nextMsg))))
  }

  /** receive_wait and receive_no_wait while send messages wait: the front
      (newest) entry's data is copied to pData and the entry unlinked. For a
      send_wait entry both counters fall by one and the sender moves from
      Waiting to Ready; for a send_no_wait entry only nMessages falls. */
  function Receive(b: Box, ks: Sched, pData: Addr): (Box, Sched)
    requires Joint(b, ks) && b.nM > 0
  {
    FrontFacts(b, ks);
    var m := Front(b);
    var ks2 := Copy(ks, pData, m.data);
    if IsWaitEntry(m, ks.taskMsg, b.nB) then (Count(PopFront(b), RECEIVER, RECEIVER), Release(ks2, m.block.value))
    else (Count(PopFront(b), RECEIVER, 0), ks2)
  }

  /** send_no_wait without a waiting receiver: when the mailbox is full the
      oldest message is evicted and nMessages falls by one; then a message
      struct holding pData with a NULL pBlock is linked at the front and
      nMessages rises by one. */
  function Buffer(b: Box, pData: Addr): Box
    requires b.nM == b.cap ==> b.s != []
  {
    var b2 := if b.nM == b.cap then Count(PopOldest(b), -1, 0) else b;
    Count(Push(b2, Msg(pData, None)), 1, 0)
  }

  /** send_wait, first pass: a waiting receiver is served; otherwise FAIL when
      send_no_wait messages wait, when the mailbox is full or when no message
      struct can be allocated; otherwise the caller blocks. */
  function SendWaitStep(b: Box, ks: Sched, pData: Addr, allocOk: bool): (Pass, Box, Sched)
    requires Joint(b, ks) && pData in ks.mem && ks.r != []
  {
    if b.nM < 0 then
      var p := Deliver(b, ks, pData); (Suspended, p.0, p.1)
    else if b.nM > 0 && b.nB == 0 then (Returned(FAIL), b, ks)
    else if b.cap == b.nM then (Returned(FAIL), b, ks)
    else if !allocOk then (Returned(FAIL), b, ks)
    else
      var p := Block(b, ks, pData, SENDER); (Suspended, p.0, p.1)
  }

  /** receive_wait, first pass: a waiting send message is taken; otherwise the
      caller blocks, with no capacity check. */
  function ReceiveWaitStep(b: Box, ks: Sched, pData: Addr): (Box, Sched)
    requires Joint(b, ks) && ks.r != []
  {
    if b.nM > 0 then Receive(b, ks, pData) else Block(b, ks, pData, RECEIVER)
  }

  /** send_no_wait: a waiting receiver is served; otherwise FAIL when
      send_wait messages wait or no message struct can be allocated;
      otherwise the message is buffered. The result is OK in the other cases. */
  function SendNoWaitStep(b: Box, ks: Sched, pData: Addr, allocOk: bool): (Exception, Box, Sched)
    requires Joint(b, ks) && pData in ks.mem
    requires b.nB == 0 && b.nM == b.cap ==> b.s != []
  {
    if b.nB < 0 then
      ReceiversWaiting(b);
      var p := Deliver(b, ks, pData); (OK, p.0, p.1)
    else if b.nB > 0 then (FAIL, b, ks)
    else if !allocOk then (FAIL, b, ks)
    else (OK, Buffer(b, pData), ks)
  }

  /** receive_no_wait: a waiting send message is taken; otherwise nothing
      changes. */
  function ReceiveNoWaitStep(b: Box, ks: Sched, pData: Addr): (Box, Sched)
    requires Joint(b, ks)
  {
    if b.nM > 0 then Receive(b, ks, pData) else (b, ks)
  }

  /** remove_msgRL(readyL) for the running task t, as written: t's message
      struct is unlinked through its neighbours' links and t's pMessage is
      cleared. Only a listed struct has those links; once remove_MBoxmsg has
      released the struct (its links NULL) or pMessage is NULL the code
      dereferences NULL, which the model writes as None. */
  function RemoveMsgRL(b: Box, ks: Sched, t: nat): Option<(Box, Sched)>
  {
    var e := if t in ks.taskMsg then ks.taskMsg[t] else None;
    if e.Some? && e.value in b.s then Some((Drop(b, e.value), SetMsg(ks, t, None))) else None
  }

  /** The deadline branch of a resumed send_wait (d = RECEIVER) or
      receive_wait (d = SENDER) as written: remove_msgRL, then both counters
      move by d. */
  function ResumeAsWritten(b: Box, ks: Sched, t: nat, d: int): Option<(Box, Sched)>
  {
    var p := RemoveMsgRL(b, ks, t);
    if p.None? then None else Some((Count(p.value.0, d, d), p.value.1))
  }

  /** The deadline branch as evidently intended: when the caller's entry is
      still listed it is withdrawn as written; when a counterpart already
      took it, the mailbox is left alone and only pMessage is cleared. */
  function Resume(b: Box, ks: Sched, t: nat, d: int): (Box, Sched)
  {
    var p := ResumeAsWritten(b, ks, t, d);
    if p.Some? then p.value else (b, SetMsg(ks, t, None))
  }

  // ---------------------------------------------------------------------
  // Lemmas: the invariants
  // ---------------------------------------------------------------------

  /** In a consistent mailbox with entries, the front entry exists; it has a
      blocked task while receivers wait, its data is readable while send
      messages wait, and it passes the wait-entry test exactly when blocked
      messages are counted. */
  lemma FrontFacts(b: Box, ks: Sched)
    requires Joint(b, ks) && b.nM != 0
    ensures b.s != [] && b.s[0] in b.msgs
    ensures b.nM < 0 ==> b.msgs[b.s[0]].block.Some?
    ensures b.nM > 0 ==> b.msgs[b.s[0]].data in ks.mem
    ensures b.nM > 0 ==> (IsWaitEntry(b.msgs[b.s[0]], ks.taskMsg, b.nB) <==> b.nB != 0)
    ensures b.nM > 0 && b.nB != 0 ==> b.msgs[b.s[0]].block.Some?
  {
    assert b.s[0] in b.s;
  }

  /** A receiving task waits exactly when nMessages is negative, and exactly
      when nBlockedMsg is; the magnitude of nMessages is the number of
      listed entries. */
  lemma ReceiversWaiting(b: Box)
    requires WellBox(b)
    ensures b.nM < 0 <==> b.nB < 0
    ensures b.nB > 0 ==> b.nM == b.nB
    ensures (if b.nM < 0 then -b.nM else b.nM) == |b.s|
  {
  }

  /** The newest message is at the front and the oldest at the back. */
  lemma NewestAtFront(b: Box)
    requires TidyBox(b) && b.s != []
    ensures forall e :: e in b.msgs ==> b.s[|b.s| - 1] <= e <= b.s[0]
  {
    forall e | e in b.msgs
      ensures b.s[|b.s| - 1] <= e <= b.s[0]
    {
      var i :| 0 <= i < |b.s| && b.s[i] == e;
      assert i == 0 || b.s[0] > b.s[i];
      assert i == |b.s| - 1 || b.s[i] > b.s[|b.s| - 1];
    }
  }

  /** Linking a new struct at the front keeps the mailbox tidy. */
  lemma TidyPush(b: Box, m: Msg)
    requires TidyBox(b)
    ensures b.nextMsg !in b.s && TidyBox(Push(b, m))
  {
    var s2 := [b.nextMsg] + b.s;
    forall i, j | 0 <= i < j < |s2|
      ensures s2[i] > s2[j]
    {
      assert s2[j] == b.s[j - 1] && s2[j] in b.msgs;
      if i > 0 {
        assert s2[i] == b.s[i - 1];
      }
    }
  }

  /** Unlinking the front struct keeps the mailbox tidy. */
  lemma TidyPopFront(b: Box)
    requires TidyBox(b) && b.s != []
    ensures TidyBox(PopFront(b))
  {
    var s2 := b.s[1..];
    assert forall i :: 0 <= i < |s2| ==> s2[i] == b.s[i + 1];
    assert forall e :: e in s2 ==> e in b.s && e != b.s[0];
    assert forall e :: e in b.s ==> e == b.s[0] || e in s2;
  }

  /** Unlinking the back struct keeps the mailbox tidy. */
  lemma TidyPopOldest(b: Box)
    requires TidyBox(b) && b.s != []
    ensures TidyBox(PopOldest(b))
  {
    var n := |b.s| - 1;
    var s2 := b.s[..n];
    assert forall e :: e in s2 ==> e in b.s && e != b.s[n];
    assert b.s == s2 + [b.s[n]];
    assert forall e :: e in b.s ==> e == b.s[n] || e in s2;
  }

  /** Unlinking a struct anywhere keeps the mailbox tidy. */
  lemma TidyDrop(b: Box, e: nat)
    requires TidyBox(b) && e in b.s
    ensures TidyBox(Drop(b, e))
  {
    var i := IndexOf(b.s, e);
    var s2 := RemoveAt(b.s, i);
    RemoveAtIndex(b.s, i);
    RemoveAtContents(b.s, i);
    forall x | x in b.s
      ensures x == e || x in s2
    {
      var j := IndexOf(b.s, x);
      if j < i {
        assert s2[j] == x;
      } else if j > i {
        assert s2[j - 1] == x;
      }
    }
    forall a, c | 0 <= a < c < |s2|
      ensures s2[a] > s2[c]
    {
      var a' := if a < i then a else a + 1;
      var c' := if c < i then c else c + 1;
      assert s2[a] == b.s[a'] && s2[c] == b.s[c'];
    }
  }

  /** Unlinking the front entry keeps the counters balanced once they move one
      step toward zero (nBlockedMsg stays 0 for send_no_wait messages). */
  lemma PopBalanced(s: seq<nat>, msgs: map<nat, Msg>, nM: int, nB: int, cap: u32)
    requires Balanced(s, msgs, nM, nB, cap) && s != [] && Distinct(s)
    ensures var d := if nM < 0 then 1 else -1;
      Balanced(s[1..], msgs - {s[0]}, nM + d, if nB == 0 then 0 else nB + d, cap)
  {
    var r := s[1..];
    var msgs2 := msgs - {s[0]};
    TailProps(s, map[]);
    assert forall e :: e in r ==> e in s && e != s[0];
    if nB == 0 {
      assert AllBuffered(r, msgs2);
    } else {
      assert AllBlocked(r, msgs2);
    }
  }

  /** A send_wait entry linked at the front of an empty mailbox or of one
      holding blocked senders below capacity. */
  lemma PushSender(s: seq<nat>, msgs: map<nat, Msg>, nM: int, nB: int, cap: u32, id: nat, m: Msg)
    requires Balanced(s, msgs, nM, nB, cap) && nM >= 0 && !(nM > 0 && nB == 0) && nM != cap
    requires id !in s && m.block.Some?
    ensures Balanced([id] + s, msgs[id := m], nM + 1, nB + 1, cap)
  {
    var r := [id] + s;
    assert forall e :: e in r ==> e == id || e in s;
    assert AllBlocked(r, msgs[id := m]);
  }

  /** A receive_wait entry linked at the front of an empty mailbox or of one
      holding blocked receivers. */
  lemma PushReceiver(s: seq<nat>, msgs: map<nat, Msg>, nM: int, nB: int, cap: u32, id: nat, m: Msg)
    requires Balanced(s, msgs, nM, nB, cap) && nM <= 0
    requires id !in s && m.block.Some?
    ensures Balanced([id] + s, msgs[id := m], nM - 1, nB - 1, cap)
  {
    var r := [id] + s;
    assert forall e :: e in r ==> e == id || e in s;
    assert AllBlocked(r, msgs[id := m]);
  }

  /** A send_no_wait entry linked at the front of a mailbox of send_no_wait
      messages below capacity. */
  lemma PushBuffered(s: seq<nat>, msgs: map<nat, Msg>, nM: int, cap: u32, id: nat, m: Msg)
    requires Balanced(s, msgs, nM, 0, cap) && nM < cap
    requires id !in s && m.block.None?
    ensures Balanced([id] + s, msgs[id := m], nM + 1, 0, cap)
  {
    var r := [id] + s;
    assert forall e :: e in r ==> e == id || e in s;
    assert AllBuffered(r, msgs[id := m]);
  }

  /** Evicting the oldest message of a full mailbox of send_no_wait messages. */
  lemma EvictBalanced(s: seq<nat>, msgs: map<nat, Msg>, nM: int, cap: u32)
    requires Balanced(s, msgs, nM, 0, cap) && nM == cap && s != [] && Distinct(s)
    ensures Balanced(s[..|s| - 1], msgs - {s[|s| - 1]}, nM - 1, 0, cap)
  {
    var r := s[..|s| - 1];
    forall e | e in r
      ensures e in s && e != s[|s| - 1]
    {
      var j :| 0 <= j < |r| && r[j] == e;
      assert s[j] == e;
    }
    assert AllBuffered(r, msgs - {s[|s| - 1]});
  }

  /** Coherence carries over to a list with entries dropped (none added),
      a memory holding at least the same addresses, and a count that is
      positive only if it was before. */
  lemma CoherentSub(s: seq<nat>, msgs: map<nat, Msg>, nM: int, s2: seq<nat>, msgs2: map<nat, Msg>, nM2: int,
                    taskMsg: map<nat, Option<nat>>, mem: map<Addr, Payload>, mem2: map<Addr, Payload>)
    requires Coherent(s, msgs, nM, taskMsg, mem)
    requires forall e :: e in s2 && e in msgs2 ==> e in s && e in msgs && msgs2[e] == msgs[e]
    requires mem.Keys <= mem2.Keys && (nM2 > 0 ==> nM > 0)
    ensures Coherent(s2, msgs2, nM2, taskMsg, mem2)
  {
  }

  /** Coherence after an entry m is linked at the front: a blocked entry's
      task gets its pMessage set to it, and data must be readable once send
      messages are counted. */
  lemma CoherentPush(s: seq<nat>, msgs: map<nat, Msg>, nM: int, nM2: int,
                     taskMsg: map<nat, Option<nat>>, mem: map<Addr, Payload>, id: nat, m: Msg)
    requires Coherent(s, msgs, nM, taskMsg, mem) && id !in s
    requires m.block.Some? ==> m.block.value in taskMsg
    requires nM2 > 0 ==> m.data in mem && (s == [] || nM > 0)
    ensures var tm := if m.block.Some? then taskMsg[m.block.value := Some(id)] else taskMsg;
      Coherent([id] + s, msgs[id := m], nM2, tm, mem)
  {
    var s2 := [id] + s;
    assert forall e :: e in s2 ==> e == id || e in s;
  }

  /** A rendezvous with a waiting receiver keeps the joint invariant, and
      neither loses nor duplicates a task node. */
  lemma DeliverKeeps(b: Box, ks: Sched, pData: Addr)
    requires Joint(b, ks) && b.nM < 0 && pData in ks.mem
    ensures var p := Deliver(b, ks, pData);
      Joint(p.0, p.1) && multiset(p.1.r) + multiset(p.1.w) == multiset(ks.r) + multiset(ks.w)
  {
    FrontFacts(b, ks);
    ReceiversWaiting(b);
    var m := Front(b);
    var ks2 := Copy(ks, m.data, pData);
    TidyPopFront(b);
    PopBalanced(b.s, b.msgs, b.nM, b.nB, b.cap);
    TailProps(b.s, map[]);
    CoherentSub(b.s, b.msgs, b.nM, b.s[1..], b.msgs - {b.s[0]}, b.nM + 1, ks.taskMsg, ks.mem, ks2.mem);
    ReleaseKeepsTasks(ks2, m.block.value);
  }

  /** When the caller may block on the mailbox: a sender only on an empty
      mailbox or one of blocked senders below capacity, with readable data;
      a receiver only while no send message waits. */
  predicate CanBlock(b: Box, ks: Sched, pData: Addr, d: int)
  {
    (d == SENDER && pData in ks.mem && b.nM >= 0 && !(b.nM > 0 && b.nB == 0) && b.nM != b.cap) ||
    (d == RECEIVER && b.nM <= 0)
  }

  /** Blocking the caller where it may block keeps the joint invariant, and
      neither loses nor duplicates a task node. */
  lemma BlockKeeps(b: Box, ks: Sched, pData: Addr, d: int)
    requires Joint(b, ks) && ks.r != [] && CanBlock(b, ks, pData, d)
    ensures var p := Block(b, ks, pData, d);
      Joint(p.0, p.1) && multiset(p.1.r) + multiset(p.1.w) == multiset(ks.r) + multiset(ks.w)
  {
    var t := ks.r[0];
    var m := Msg(pData, Some(t));
    var id := b.nextMsg;
    TidyPush(b, m);
    if d == SENDER {
      PushSender(b.s, b.msgs, b.nM, b.nB, b.cap, id, m);
    } else {
      PushReceiver(b.s, b.msgs, b.nM, b.nB, b.cap, id, m);
    }
    CoherentPush(b.s, b.msgs, b.nM, b.nM + d, ks.taskMsg, ks.mem, id, m);
    SuspendKeepsTasks(SetMsg(ks, t, Some(id)));
  }

  /** Taking the front entry keeps the joint invariant, and neither loses
      nor duplicates a task node. */
  lemma ReceiveKeeps(b: Box, ks: Sched, pData: Addr)
    requires Joint(b, ks) && b.nM > 0
    ensures var p := Receive(b, ks, pData);
      Joint(p.0, p.1) && multiset(p.1.r) + multiset(p.1.w) == multiset(ks.r) + multiset(ks.w)
  {
    FrontFacts(b, ks);
    var m := Front(b);
    var ks2 := Copy(ks, pData, m.data);
    TidyPopFront(b);
    PopBalanced(b.s, b.msgs, b.nM, b.nB, b.cap);
    TailProps(b.s, map[]);
    CoherentSub(b.s, b.msgs, b.nM, b.s[1..], b.msgs - {b.s[0]}, b.nM - 1, ks.taskMsg, ks.mem, ks2.mem);
    if IsWaitEntry(m, ks.taskMsg, b.nB) {
      ReleaseKeepsTasks(ks2, m.block.value);
    }
  }

  /** Buffering a send_no_wait message keeps the joint invariant. */
  lemma BufferKeeps(b: Box, ks: Sched, pData: Addr)
    requires Joint(b, ks) && b.nB == 0 && pData in ks.mem && (b.nM == b.cap ==> b.s != [])
    ensures Joint(Buffer(b, pData), ks)
  {
    var b2 := if b.nM == b.cap then Count(PopOldest(b), -1, 0) else b;
    var m := Msg(pData, None);
    if b.nM == b.cap {
      TidyPopOldest(b);
      EvictBalanced(b.s, b.msgs, b.nM, b.cap);
      assert forall e :: e in b2.s ==> e in b.s;
      CoherentSub(b.s, b.msgs, b.nM, b2.s, b2.msgs, b2.nM, ks.taskMsg, ks.mem, ks.mem);
    }
    TidyPush(b2, m);
    PushBuffered(b2.s, b2.msgs, b2.nM, b2.cap, b2.nextMsg, m);
    CoherentPush(b2.s, b2.msgs, b2.nM, b2.nM + 1, ks.taskMsg, ks.mem, b2.nextMsg, m);
  }

  /** Every call's first pass keeps the joint invariant and neither loses nor
      duplicates a task node. */
  lemma SendWaitKeeps(b: Box, ks: Sched, pData: Addr, allocOk: bool)
    requires Joint(b, ks) && pData in ks.mem && ks.r != []
    ensures var p := SendWaitStep(b, ks, pData, allocOk);
      Joint(p.1, p.2) && multiset(p.2.r) + multiset(p.2.w) == multiset(ks.r) + multiset(ks.w)
  {
    if b.nM < 0 {
      DeliverKeeps(b, ks, pData);
    } else if !(b.nM > 0 && b.nB == 0) && b.cap != b.nM && allocOk {
      BlockKeeps(b, ks, pData, SENDER);
    }
  }

  lemma ReceiveWaitKeeps(b: Box, ks: Sched, pData: Addr)
    requires Joint(b, ks) && ks.r != []
    ensures var p := ReceiveWaitStep(b, ks, pData);
      Joint(p.0, p.1) && multiset(p.1.r) + multiset(p.1.w) == multiset(ks.r) + multiset(ks.w)
  {
    if b.nM > 0 {
      ReceiveKeeps(b, ks, pData);
    } else {
      BlockKeeps(b, ks, pData, RECEIVER);
    }
  }

  lemma SendNoWaitKeeps(b: Box, ks: Sched, pData: Addr, allocOk: bool)
    requires Joint(b, ks) && pData in ks.mem && (b.nB == 0 && b.nM == b.cap ==> b.s != [])
    ensures var p := SendNoWaitStep(b, ks, pData, allocOk);
      Joint(p.1, p.2) && multiset(p.2.r) + multiset(p.2.w) == multiset(ks.r) + multiset(ks.w)
  {
    if b.nB < 0 {
      ReceiversWaiting(b);
      DeliverKeeps(b, ks, pData);
    } else if b.nB == 0 && allocOk {
      BufferKeeps(b, ks, pData);
    }
  }

  lemma ReceiveNoWaitKeeps(b: Box, ks: Sched, pData: Addr)
    requires Joint(b, ks)
    ensures var p := ReceiveNoWaitStep(b, ks, pData);
      Joint(p.0, p.1) && multiset(p.1.r) + multiset(p.1.w) == multiset(ks.r) + multiset(ks.w)
  {
    if b.nM > 0 {
      ReceiveKeeps(b, ks, pData);
    }
  }

  /** The rendezvous with a waiting receiver: the newest entry is unlinked,
      both counters rise, the sender's data lands in the receiver's data area
      and the receiver, if waiting, becomes ready. */
  lemma DeliverOutcome(b: Box, ks: Sched, pData: Addr)
    requires Joint(b, ks) && b.nM < 0 && pData in ks.mem
    ensures b.s != [] && b.s[0] in b.msgs && b.msgs[b.s[0]].block.Some?
    ensures var m := b.msgs[b.s[0]];
      var p := Deliver(b, ks, pData);
      p.0.s == b.s[1..] && b.s[0] !in p.0.msgs && p.0.nM == b.nM + 1 && p.0.nB == b.nB + 1 &&
      p.1.mem == ks.mem[m.data := ks.mem[pData]] && p.1.taskMsg == ks.taskMsg &&
      (m.block.value in ks.w ==> m.block.value in p.1.r && m.block.value !in p.1.w)
  {
    FrontFacts(b, ks);
    var m := b.msgs[b.s[0]];
    ReleaseKeepsTasks(Copy(ks, m.data, pData), m.block.value);
  }

  /** Blocking the caller: it leaves Ready for Waiting, its pMessage names
      the new entry, which is the newest and blocks it, and both counters
      move by d. */
  lemma BlockOutcome(b: Box, ks: Sched, pData: Addr, d: int)
    requires Joint(b, ks) && ks.r != [] && CanBlock(b, ks, pData, d)
    ensures var t := ks.r[0];
      var p := Block(b, ks, pData, d);
      p.0.s != [] && p.0.s[0] == b.nextMsg && b.nextMsg !in b.s && p.0.s[1..] == b.s &&
      p.0.msgs[b.nextMsg] == Msg(pData, Some(t)) && p.0.nM == b.nM + d && p.0.nB == b.nB + d &&
      p.1.taskMsg[t] == Some(b.nextMsg) && t !in p.1.r && t in p.1.w
  {
    var t := ks.r[0];
    TidyPush(b, Msg(pData, Some(t)));
    SuspendKeepsTasks(SetMsg(ks, t, Some(b.nextMsg)));
  }

  /** Taking a send message: the newest entry is unlinked, its data lands in
      pData and nMessages falls; a send_wait entry also lowers nBlockedMsg
      and readies its sender, a send_no_wait entry leaves the task lists. */
  lemma ReceiveOutcome(b: Box, ks: Sched, pData: Addr)
    requires Joint(b, ks) && b.nM > 0
    ensures b.s != [] && b.s[0] in b.msgs && b.msgs[b.s[0]].data in ks.mem
    ensures b.nB != 0 ==> b.msgs[b.s[0]].block.Some?
    ensures var m := b.msgs[b.s[0]];
      var p := Receive(b, ks, pData);
      p.0.s == b.s[1..] && b.s[0] !in p.0.msgs && p.0.nM == b.nM - 1 &&
      p.1.mem == ks.mem[pData := ks.mem[m.data]]
    ensures var m := b.msgs[b.s[0]];
      var p := Receive(b, ks, pData);
      b.nB != 0 ==> p.0.nB == b.nB - 1 && (m.block.value in ks.w ==> m.block.value in p.1.r && m.block.value !in p.1.w)
    ensures var p := Receive(b, ks, pData);
      b.nB == 0 ==> p.0.nB == 0 && p.1.r == ks.r && p.1.w == ks.w
  {
    FrontFacts(b, ks);
    var m := b.msgs[b.s[0]];
    if b.nB != 0 {
      ReleaseKeepsTasks(Copy(ks, pData, m.data), m.block.value);
    }
  }

  /** send_no_wait: FAIL exactly when no receiver waits and send_wait
      messages wait or no struct is allocated, with nothing changed; a waiting
      receiver is served; otherwise the message becomes the newest entry,
      the oldest entry (the least identity) is evicted when the mailbox is
      full, and nMessages rises unless it was full. */
  lemma SendNoWaitOutcome(b: Box, ks: Sched, pData: Addr, allocOk: bool)
    requires Joint(b, ks) && pData in ks.mem && (b.nB == 0 && b.nM == b.cap ==> b.s != [])
    ensures var p := SendNoWaitStep(b, ks, pData, allocOk);
      (p.0 == OK || p.0 == FAIL) &&
      (p.0 == FAIL <==> b.nB >= 0 && (b.nB > 0 || !allocOk)) &&
      (p.0 == FAIL ==> p.1 == b && p.2 == ks) &&
      (b.nB < 0 ==> (p.1, p.2) == Deliver(b, ks, pData))
    ensures var p := SendNoWaitStep(b, ks, pData, allocOk);
      b.nB == 0 && allocOk ==>
        p.2 == ks && p.1.nB == 0 && p.1.s != [] && p.1.s[0] == b.nextMsg &&
        p.1.msgs[b.nextMsg] == Msg(pData, None) &&
        p.1.nM == (if b.nM == b.cap then b.nM else b.nM + 1) &&
        p.1.s[1..] == (if b.nM == b.cap then b.s[..|b.s| - 1] else b.s)
    ensures b.nB == 0 && allocOk && b.nM == b.cap ==>
      var p := SendNoWaitStep(b, ks, pData, allocOk);
      b.s[|b.s| - 1] !in p.1.msgs && (forall e :: e in b.msgs ==> b.s[|b.s| - 1] <= e)
  {
    if b.nB < 0 {
      ReceiversWaiting(b);
    } else if b.nB == 0 && allocOk && b.nM == b.cap {
      NewestAtFront(b);
      TidyPopOldest(b);
    }
  }

  /** Withdrawing a blocked entry from anywhere in the list keeps the counters
      balanced once both move one step toward zero. */
  lemma DropBalanced(s: seq<nat>, msgs: map<nat, Msg>, nM: int, nB: int, cap: u32, e: nat)
    requires Balanced(s, msgs, nM, nB, cap) && Distinct(s) && e in s && msgs[e].block.Some?
    ensures var d := if nM < 0 then SENDER else RECEIVER;
      Balanced(RemoveAt(s, IndexOf(s, e)), msgs - {e}, nM + d, nB + d, cap)
  {
    var i := IndexOf(s, e);
    var r := RemoveAt(s, i);
    RemoveAtIndex(s, i);
    RemoveAtProps(s, i, map[]);
    assert forall x :: x in r ==> x in s && x != e;
    assert AllBlocked(r, msgs - {e});
  }

  /** The resumed caller t may resume on this mailbox: every listed entry that
      blocks t is the one its pMessage names, and when that entry is still
      listed it blocks t and d undoes the kind of message it is. This is what
      holds when the mailbox is the one t blocked on. */
  predicate ResumeReady(b: Box, ks: Sched, t: nat, d: int)
  {
    t in ks.taskMsg &&
    (forall e :: e in b.s && e in b.msgs && b.msgs[e].block == Some(t) ==> ks.taskMsg[t] == Some(e)) &&
    (ks.taskMsg[t].Some? && ks.taskMsg[t].value in b.s ==>
       ks.taskMsg[t].value in b.msgs && b.msgs[ks.taskMsg[t].value].block == Some(t) &&
       d == (if b.nM < 0 then SENDER else RECEIVER))
  }

  /** Clearing the pMessage of a task no remaining entry blocks keeps the
      mailbox coherent with the kernel. */
  lemma CoherentClear(s: seq<nat>, msgs: map<nat, Msg>, nM: int, s2: seq<nat>, msgs2: map<nat, Msg>, nM2: int,
                      taskMsg: map<nat, Option<nat>>, mem: map<Addr, Payload>, t: nat)
    requires Coherent(s, msgs, nM, taskMsg, mem)
    requires forall e :: e in s2 && e in msgs2 ==> e in s && e in msgs && msgs2[e] == msgs[e]
    requires forall e :: e in s2 && e in msgs2 ==> msgs2[e].block != Some(t)
    requires nM2 > 0 ==> nM > 0
    ensures Coherent(s2, msgs2, nM2, taskMsg[t := None], mem)
  {
  }

  /** The corrected deadline branch when t's entry is still listed. */
  lemma ResumeListed(b: Box, ks: Sched, t: nat, d: int)
    requires Joint(b, ks) && ResumeReady(b, ks, t, d)
    requires ks.taskMsg[t].Some? && ks.taskMsg[t].value in b.s
    ensures Joint(Count(Drop(b, ks.taskMsg[t].value), d, d), SetMsg(ks, t, None))
  {
    var e := ks.taskMsg[t].value;
    var b2 := Count(Drop(b, e), d, d);
    TidyDrop(b, e);
    DropBalanced(b.s, b.msgs, b.nM, b.nB, b.cap, e);
    RemoveAtProps(b.s, IndexOf(b.s, e), map[]);
    assert forall x :: x in b2.s ==> x in b.s && x != e;
    CoherentClear(b.s, b.msgs, b.nM, b2.s, b2.msgs, b2.nM, ks.taskMsg, ks.mem, t);
  }

  /** The corrected deadline branch keeps the joint invariant and the task
      lists; it withdraws t's entry and moves both counters by d exactly when
      that entry is still listed, leaves the mailbox alone otherwise, and
      always clears t's pMessage. */
  lemma ResumeKeeps(b: Box, ks: Sched, t: nat, d: int)
    requires Joint(b, ks) && ResumeReady(b, ks, t, d)
    ensures var p := Resume(b, ks, t, d);
      Joint(p.0, p.1) && p.1 == SetMsg(ks, t, None)
    ensures var e := ks.taskMsg[t];
      Resume(b, ks, t, d).0 == if e.Some? && e.value in b.s then Count(Drop(b, e.value), d, d) else b
  {
    var e := ks.taskMsg[t];
    if e.Some? && e.value in b.s {
      ResumeListed(b, ks, t, d);
    } else {
      CoherentClear(b.s, b.msgs, b.nM, b.s, b.msgs, b.nM, ks.taskMsg, ks.mem, t);
    }
  }

  /** The corrected deadline branch agrees with the written one wherever the
      written one does not dereference NULL, and the written one does so
      exactly when the caller's pMessage names no listed entry. */
  lemma ResumeAgrees(b: Box, ks: Sched, t: nat, d: int)
    ensures ResumeAsWritten(b, ks, t, d).Some? ==> Resume(b, ks, t, d) == ResumeAsWritten(b, ks, t, d).value
    ensures ResumeAsWritten(b, ks, t, d).None? <==>
      !(t in ks.taskMsg && ks.taskMsg[t].Some? && ks.taskMsg[t].value in b.s)
  {
  }

  /** A rendezvous leaves the released receiver's pMessage naming the entry
      that was just unlinked, so the written deadline branch of that receiver
      dereferences NULL, while the corrected one only clears pMessage. */
  lemma DeliverLeavesStaleEntry(b: Box, ks: Sched, pData: Addr)
    requires Joint(b, ks) && b.nM < 0 && pData in ks.mem
    requires b.s != [] && b.s[0] in b.msgs && b.msgs[b.s[0]].block.Some?
    requires b.msgs[b.s[0]].block.value in ks.taskMsg && ks.taskMsg[b.msgs[b.s[0]].block.value] == Some(b.s[0])
    ensures var t := b.msgs[b.s[0]].block.value;
      var p := Deliver(b, ks, pData);
      ResumeAsWritten(p.0, p.1, t, SENDER).None? && Resume(p.0, p.1, t, SENDER) == (p.0, SetMsg(p.1, t, None))
  {
    var t := b.msgs[b.s[0]].block.value;
    var p := Deliver(b, ks, pData);
    assert p.0.s == b.s[1..];
    assert p.1.taskMsg[t] == Some(b.s[0]);
  }

  /** A concrete run: task 3 waits in receive_wait on data area 7; task 2,
      running, calls send_wait with data at 5; the data is delivered and task
      3, whose deadline is earlier, runs. If its deadline has passed the
      written deadline branch of receive_wait dereferences NULL. */
  lemma DeliveredReceiverFaults(v: Payload)
    ensures var b := Box([0], map[0 := Msg(7, Some(3))], -1, -1, 1, 1);
      var ks := Sched([2], [3], map[2 := 20, 3 := 10], map[2 := None, 3 := Some(0)], map[5 := v]);
      Joint(b, ks) &&
      var p := SendWaitStep(b, ks, 5, true);
      p.0 == Suspended && p.2.r == [3, 2] && p.1.s == [] && ResumeAsWritten(p.1, p.2, 3, SENDER).None?
  {
    var b := Box([0], map[0 := Msg(7, Some(3))], -1, -1, 1, 1);
    var ks := Sched([2], [3], map[2 := 20, 3 := 10], map[2 := None, 3 := Some(0)], map[5 := v]);
    assert AllBlocked(b.s, b.msgs);
    assert Joint(b, ks);
    DeliverLeavesStaleEntry(b, ks, 5);
    var p := Deliver(b, ks, 5);
    assert InsertByKey([2], ks.dl, 3) == [3, 2] by {
      assert FirstAbove([2], ks.dl, 10) == 0;
    }
  }

  // ---------------------------------------------------------------------
  // The objects
  // ---------------------------------------------------------------------

  /** A mailbox: its message list, the message structs it links (indexed by
      identity), the two counters, the capacity and the message size. */
  class Mailbox {
    const list: DList
    var msgs: map<nat, Msg>
    var nMessages: int
    var nBlockedMsg: int
    var nMaxMessages: u32
    var nDataSize: u32
    /** The next message identity createMsg hands out. */
    var nextMsg: nat

    /** The mailbox as a value. */
    ghost function State(): Box
      reads this, list
    {
      Box(list.elems, msgs, nMessages, nBlockedMsg, nMaxMessages, nextMsg)
    }

    /** A well-formed list whose message structs are exactly the listed ones. */
    ghost predicate Tidy()
      reads this, list
    {
      list.Valid() && TidyBox(State())
    }

    /** A well-formed mailbox whose counters agree with its list. */
    ghost predicate Valid()
      reads this, list
    {
      list.Valid() && WellBox(State())
    }

    /** create_mailB and create_mailbox: an empty list, both counters 0
        (calloc), the given capacity and message size. */
    constructor (nofMsg: u32, sizeOfMsg: u32)
      ensures Valid() && fresh(list) && nDataSize == sizeOfMsg
      ensures State() == Box([], map[], 0, 0, nofMsg, 0)
    {
      list := new DList();
      msgs := map[];
      nMessages := 0;
      nBlockedMsg := 0;
      nMaxMessages := nofMsg;
      nDataSize := sizeOfMsg;
      nextMsg := 0;
    }

    /** createMsg and insertMB: a new message struct holding m is linked
        immediately after the head sentinel. */
    method AddFront(m: Msg) returns (id: nat)
      requires Tidy()
      modifies this`msgs, this`nextMsg, list
      ensures Tidy() && id == old(nextMsg) && State() == Push(old(State()), m)
    {
      TidyPush(State(), m);
      id := nextMsg;
      list.InsertFront(id);
      msgs := msgs[id := m];
      nextMsg := nextMsg + 1;
    }

    /** remove_MBoxmsg(mBox->pHead->pNext): the front message struct is
        unlinked and released. */
    method RemoveFront()
      requires Tidy() && list.elems != []
      modifies this`msgs, list
      ensures Tidy() && State() == PopFront(old(State()))
    {
      TidyPopFront(State());
      ghost var s := list.elems;
      var f := list.First();
      assert IndexOf(s, f.id) == 0;
      list.Unlink(f.id);
      assert RemoveAt(s, 0) == s[1..];
      msgs := msgs - {f.id};
    }

    /** remove_OldMsg: the tail sentinel's predecessor, the earliest-inserted
        message, is unlinked and released. */
    method RemoveOldest()
      requires Tidy() && list.elems != []
      modifies this`msgs, list
      ensures Tidy() && State() == PopOldest(old(State()))
    {
      TidyPopOldest(State());
      var id := list.RemoveLast();
      msgs := msgs - {id};
    }

    /** The unlinking done by remove_msgRL: message struct e is taken out of
        the list wherever it is. */
    method RemoveEntry(e: nat)
      requires Tidy() && e in msgs
      modifies this`msgs, list
      ensures Tidy() && e in old(list.elems) && State() == Drop(old(State()), e)
    {
      TidyDrop(State(), e);
      list.Unlink(e);
      msgs := msgs - {e};
    }

    /** nMessages += dM; nBlockedMsg += dB. */
    method Recount(dM: int, dB: int)
      requires Tidy()
      modifies this`nMessages, this`nBlockedMsg
      ensures Tidy() && State() == Count(old(State()), dM, dB)
    {
      nMessages := nMessages + dM;
      nBlockedMsg := nBlockedMsg + dB;
    }

    /** no_messages: nMessages, whose magnitude is the number of listed
        entries and whose sign says whether receivers wait. */
    function NoMessages(): (n: int)
      reads this, list
      requires Valid()
      ensures (if n < 0 then -n else n) == |list.elems|
      ensures n < 0 <==> nBlockedMsg < 0
      ensures n == 0 <==> list.elems == []
    {
      ReceiversWaiting(State());
      nMessages
    }
  }

  /** The mailbox's message list is not one of the kernel's task lists. */
  ghost predicate Separate(mb: Mailbox, k: Kernel)
    reads mb, k
  {
    mb.list != k.readyL && mb.list != k.waitingL && mb.list != k.timerL
  }

  /** The joint invariant of the kernel and one mailbox, on the objects. */
  ghost predicate Linked(mb: Mailbox, k: Kernel)
    reads mb, mb.list, k, k.readyL, k.waitingL, k.timerL
  {
    k.Valid() && mb.list.Valid() && Separate(mb, k) && Joint(mb.State(), k.View())
  }

  /** The kernel invariant implies its restriction to Ready and Waiting. */
  lemma ValidView(k: Kernel)
    requires k.Valid()
    ensures SchedInv(k.View())
  {
  }

  /** readyL->pHead->pNext->pMessage = msg_Obj, and the clearing of pMessage
      in remove_msgRL. */
  method SetTaskMessage(k: Kernel, t: nat, e: Option<nat>)
    requires k.Valid() && t in k.message
    modifies k`message
    ensures k.Valid() && k.View() == SetMsg(old(k.View()), t, e)
  {
    var msg2 := k.message[t := e];
    WiderAllocated(k.readyL.elems, k.deadLine, k.nTCnt, k.message, k.nextNode, k.deadLine, k.nTCnt, msg2, k.nextNode);
    WiderAllocated(k.waitingL.elems, k.deadLine, k.nTCnt, k.message, k.nextNode, k.deadLine, k.nTCnt, msg2, k.nextNode);
    WiderAllocated(k.timerL.elems, k.deadLine, k.nTCnt, k.message, k.nextNode, k.deadLine, k.nTCnt, msg2, k.nextNode);
    k.message := msg2;
  }

  /** memcpy of one message: the payload at src is copied to dst. */
  method CopyData(k: Kernel, dst: Addr, src: Addr)
    requires k.Valid() && src in k.mem
    modifies k`mem
    ensures k.Valid() && k.View() == Copy(old(k.View()), dst, src)
  {
    k.mem := k.mem[dst := k.mem[src]];
  }

  /** The rendezvous of send_wait and send_no_wait with a waiting receiver. */
  method DeliverToReceiver(mb: Mailbox, k: Kernel, pData: Addr)
    requires Linked(mb, k) && mb.nMessages < 0 && pData in k.mem
    modifies mb`msgs, mb`nMessages, mb`nBlockedMsg, mb.list, k`running, k`mem, k.readyL, k.waitingL
    ensures Linked(mb, k)
    ensures (mb.State(), k.View()) == Deliver(old(mb.State()), old(k.View()), pData)
  {
    FrontFacts(mb.State(), k.View());
    DeliverKeeps(mb.State(), k.View(), pData);
    ghost var p := Deliver(mb.State(), k.View(), pData);
    var f := mb.list.First();
    var m := mb.msgs[f.id];
    CopyData(k, m.data, pData);
    mb.RemoveFront();
    mb.Recount(SENDER, SENDER);
    k.MoveWaitingToReady(m.block.value);
    assert mb.State() == p.0 && k.View() == p.1;
  }

  /** The blocking half of send_wait (d = SENDER) and receive_wait
      (d = RECEIVER). */
  method BlockCaller(mb: Mailbox, k: Kernel, pData: Addr, d: int)
    requires Linked(mb, k) && k.running.Some? && CanBlock(mb.State(), k.View(), pData, d)
    modifies mb`msgs, mb`nextMsg, mb`nMessages, mb`nBlockedMsg, mb.list,
      k`running, k`message, k.readyL, k.waitingL
    ensures Linked(mb, k)
    ensures (mb.State(), k.View()) == Block(old(mb.State()), old(k.View()), pData, d)
  {
    ValidView(k);
    BlockKeeps(mb.State(), k.View(), pData, d);
    ghost var p := Block(mb.State(), k.View(), pData, d);
    var t := k.running.value;
    var id := mb.AddFront(Msg(pData, Some(t)));
    mb.Recount(d, d);
    SetTaskMessage(k, t, Some(id));
    k.MoveRunningToWaiting();
    assert mb.State() == p.0 && k.View() == p.1;
  }

  /** The front entry of the mailbox passes the wait-entry test. */
  ghost predicate WaitFront(b: Box, ks: Sched)
  {
    b.s != [] && b.s[0] in b.msgs && IsWaitEntry(b.msgs[b.s[0]], ks.taskMsg, b.nB)
  }

  /** The collecting half of receive_wait and receive_no_wait: the newest
      send message's data is copied to pData and its struct removed; a
      send_wait sender is moved to Ready and both counters fall, a
      send_no_wait message only lowers nMessages. */
  method ReceiveFront(mb: Mailbox, k: Kernel, pData: Addr)
    requires Linked(mb, k) && mb.nMessages > 0
    modifies mb`msgs, mb`nMessages, mb`nBlockedMsg, mb.list, k`running, k`mem, k.readyL, k.waitingL
    ensures Linked(mb, k)
    ensures (mb.State(), k.View()) == Receive(old(mb.State()), old(k.View()), pData)
  {
    FrontFacts(mb.State(), k.View());
    var f := mb.list.First();
    if IsWaitEntry(mb.msgs[f.id], k.message, mb.nBlockedMsg) {
      ReceiveFromSender(mb, k, pData);
    } else {
      ReceiveBuffered(mb, k, pData);
    }
  }

  /** ReceiveFront on a send_wait entry. */
  method ReceiveFromSender(mb: Mailbox, k: Kernel, pData: Addr)
    requires Linked(mb, k) && mb.nMessages > 0 && WaitFront(mb.State(), k.View())
    modifies mb`msgs, mb`nMessages, mb`nBlockedMsg, mb.list, k`running, k`mem, k.readyL, k.waitingL
    ensures Linked(mb, k)
    ensures (mb.State(), k.View()) == Receive(old(mb.State()), old(k.View()), pData)
  {
    FrontFacts(mb.State(), k.View());
    ReceiveKeeps(mb.State(), k.View(), pData);
    ghost var p := Receive(mb.State(), k.View(), pData);
    var f := mb.list.First();
    var m := mb.msgs[f.id];
    CopyData(k, pData, m.data);
    mb.Recount(RECEIVER, RECEIVER);
    k.MoveWaitingToReady(m.block.value);
    mb.RemoveFront();
    assert mb.State() == p.0 && k.View() == p.1;
  }

  /** ReceiveFront on a send_no_wait entry. */
  method ReceiveBuffered(mb: Mailbox, k: Kernel, pData: Addr)
    requires Linked(mb, k) && mb.nMessages > 0 && !WaitFront(mb.State(), k.View())
    modifies mb`msgs, mb`nMessages, mb`nBlockedMsg, mb.list, k`mem
    ensures Linked(mb, k)
    ensures (mb.State(), k.View()) == Receive(old(mb.State()), old(k.View()), pData)
  {
    FrontFacts(mb.State(), k.View());
    ReceiveKeeps(mb.State(), k.View(), pData);
    ghost var p := Receive(mb.State(), k.View(), pData);
    var f := mb.list.First();
    var m := mb.msgs[f.id];
    CopyData(k, pData, m.data);
    mb.RemoveFront();
    mb.Recount(RECEIVER, 0);
    assert mb.State() == p.0 && k.View() == p.1;
  }

  /** The buffering half of send_no_wait: a full mailbox first loses its
      oldest message, then a message with pData and no blocked task is
      linked at the front. */
  method BufferMessage(mb: Mailbox, pData: Addr)
    requires mb.Tidy() && (mb.nMessages == mb.nMaxMessages as int ==> mb.list.elems != [])
    modifies mb`msgs, mb`nextMsg, mb`nMessages, mb`nBlockedMsg, mb.list
    ensures mb.Tidy() && mb.State() == Buffer(old(mb.State()), pData)
  {
    if mb.nMessages == mb.nMaxMessages as int {
      mb.RemoveOldest();
      mb.Recount(-1, 0);
    }
    var id := mb.AddFront(Msg(pData, None));
    mb.Recount(1, 0);
  }

  // ---------------------------------------------------------------------
  // The calls
  // ---------------------------------------------------------------------

  /** send_wait, first execution, with allocOk standing for the success of
      createMsg. */
  method SendWait(mb: Mailbox, k: Kernel, pData: Addr, allocOk: bool) returns (p: Pass)
    requires Linked(mb, k) && k.running.Some? && pData in k.mem
    modifies mb`msgs, mb`nextMsg, mb`nMessages, mb`nBlockedMsg, mb.list,
      k`running, k`message, k`mem, k.readyL, k.waitingL
    ensures Linked(mb, k)
    ensures (p, mb.State(), k.View()) == SendWaitStep(old(mb.State()), old(k.View()), pData, allocOk)
  {
    if mb.nMessages < 0 {
      DeliverToReceiver(mb, k, pData);
      p := Suspended;
    } else if mb.nMessages > 0 && mb.nBlockedMsg == 0 {
      p := Returned(FAIL);
    } else if mb.nMaxMessages as int == mb.nMessages {
      p := Returned(FAIL);
    } else if !allocOk {
      p := Returned(FAIL);
    } else {
      BlockCaller(mb, k, pData, SENDER);
      p := Suspended;
    }
  }

  /** receive_wait, first execution; the message struct is assumed to be
      allocated, since the code does not check createMsg here. */
  method ReceiveWait(mb: Mailbox, k: Kernel, pData: Addr)
    requires Linked(mb, k) && k.running.Some?
    modifies mb`msgs, mb`nextMsg, mb`nMessages, mb`nBlockedMsg, mb.list,
      k`running, k`message, k`mem, k.readyL, k.waitingL
    ensures Linked(mb, k)
    ensures (mb.State(), k.View()) == ReceiveWaitStep(old(mb.State()), old(k.View()), pData)
  {
    if mb.nMessages > 0 {
      ReceiveFront(mb, k, pData);
    } else {
      BlockCaller(mb, k, pData, RECEIVER);
    }
  }

  /** send_no_wait, with allocOk standing for the success of createMsg. */
  method SendNoWait(mb: Mailbox, k: Kernel, pData: Addr, allocOk: bool) returns (st: Exception)
    requires Linked(mb, k) && pData in k.mem
    requires mb.nBlockedMsg == 0 && mb.nMessages == mb.nMaxMessages as int ==> mb.list.elems != []
    modifies mb`msgs, mb`nextMsg, mb`nMessages, mb`nBlockedMsg, mb.list,
      k`running, k`mem, k.readyL, k.waitingL
    ensures Linked(mb, k)
    ensures (st, mb.State(), k.View()) == SendNoWaitStep(old(mb.State()), old(k.View()), pData, allocOk)
  {
    if mb.nBlockedMsg < 0 {
      ReceiversWaiting(mb.State());
      DeliverToReceiver(mb, k, pData);
      st := OK;
    } else if mb.nBlockedMsg > 0 {
      st := FAIL;
    } else if !allocOk {
      st := FAIL;
    } else {
      BufferKeeps(mb.State(), k.View(), pData);
      BufferMessage(mb, pData);
      st := OK;
    }
  }

  /** receive_no_wait: the status is OK whether or not a message was taken. */
  method ReceiveNoWait(mb: Mailbox, k: Kernel, pData: Addr) returns (st: Exception)
    requires Linked(mb, k)
    modifies mb`msgs, mb`nMessages, mb`nBlockedMsg, mb.list, k`running, k`mem, k.readyL, k.waitingL
    ensures Linked(mb, k) && st == OK
    ensures (mb.State(), k.View()) == ReceiveNoWaitStep(old(mb.State()), old(k.View()), pData)
  {
    if mb.nMessages > 0 {
      ReceiveFront(mb, k, pData);
    }
    st := OK;
  }

  /** create_mailbox, with allocOk standing for the success of create_mailB:
      NULL when allocation fails, otherwise an empty mailbox of the given
      capacity and message size. */
  method CreateMailbox(nofMsg: u32, sizeOfMsg: u32, allocOk: bool) returns (r: Option<Mailbox>)
    ensures r.Some? <==> allocOk
    ensures r.Some? ==> fresh(r.value) && fresh(r.value.list) && r.value.Valid()
    ensures r.Some? ==> r.value.nDataSize == sizeOfMsg && r.value.State() == Box([], map[], 0, 0, nofMsg, 0)
  {
    if !allocOk {
      return None;
    }
    var mb := new Mailbox(nofMsg, sizeOfMsg);
    r := Some(mb);
  }

  /** remove_mailbox: OK when the head's successor is the tail, otherwise
      NOT_EMPTY and nothing happens. */
  method RemoveMailbox(mb: Mailbox) returns (st: Exception)
    requires mb.list.Valid()
    ensures st == OK <==> mb.list.elems == []
    ensures st == OK || st == NOT_EMPTY
  {
    if mb.list.First() == Tail {
      st := OK;
    } else {
      st := NOT_EMPTY;
    }
  }

  /** The corrected deadline branch on the objects: t's entry, when still
      listed, is unlinked and both counters move by d; t's pMessage is
      cleared either way. */
  method DropCallerEntry(mb: Mailbox, k: Kernel, t: nat, d: int)
    requires Linked(mb, k) && ResumeReady(mb.State(), k.View(), t, d)
    modifies mb`msgs, mb`nMessages, mb`nBlockedMsg, mb.list, k`message
    ensures Linked(mb, k)
    ensures (mb.State(), k.View()) == Resume(old(mb.State()), old(k.View()), t, d)
  {
    ResumeKeeps(mb.State(), k.View(), t, d);
    ghost var p := Resume(mb.State(), k.View(), t, d);
    var e := k.message[t];
    if e.Some? && e.value in mb.msgs {
      mb.RemoveEntry(e.value);
      mb.Recount(d, d);
    }
    SetTaskMessage(k, t, None);
    assert mb.State() == p.0 && k.View() == p.1;
  }

  /** The second execution of a blocking call for the running task t: OK
      before its deadline with nothing changed, DEADLINE_REACHED once the
      deadline has passed, after the corrected deadline branch. */
  method ResumeCall(mb: Mailbox, k: Kernel, d: int) returns (st: Exception)
    requires Linked(mb, k) && k.running.Some? && ResumeReady(mb.State(), k.View(), k.running.value, d)
    modifies mb`msgs, mb`nMessages, mb`nBlockedMsg, mb.list, k`message
    ensures Linked(mb, k)
    ensures st == DeadlineStatus(k.deadLine[k.running.value], k.tc)
    ensures st == OK ==> mb.State() == old(mb.State()) && k.View() == old(k.View())
    ensures st == DEADLINE_REACHED ==>
      (mb.State(), k.View()) == Resume(old(mb.State()), old(k.View()), k.running.value, d)
  {
    st := WaitResume(k);
    if st == DEADLINE_REACHED {
      DropCallerEntry(mb, k, k.running.value, d);
    }
  }

  /** send_wait, second execution: the deadline branch withdraws a send
      message, so both counters fall. */
  method SendWaitResume(mb: Mailbox, k: Kernel) returns (st: Exception)
    requires Linked(mb, k) && k.running.Some? && ResumeReady(mb.State(), k.View(), k.running.value, RECEIVER)
    modifies mb`msgs, mb`nMessages, mb`nBlockedMsg, mb.list, k`message
    ensures Linked(mb, k)
    ensures st == DeadlineStatus(k.deadLine[k.running.value], k.tc)
    ensures st == OK ==> mb.State() == old(mb.State()) && k.View() == old(k.View())
    ensures st == DEADLINE_REACHED ==>
      (mb.State(), k.View()) == Resume(old(mb.State()), old(k.View()), k.running.value, RECEIVER)
  {
    st := ResumeCall(mb, k, RECEIVER);
  }

  /** receive_wait, second execution: the deadline branch withdraws a receive
      message, so both counters rise. */
  method ReceiveWaitResume(mb: Mailbox, k: Kernel) returns (st: Exception)
    requires Linked(mb, k) && k.running.Some? && ResumeReady(mb.State(), k.View(), k.running.value, SENDER)
    modifies mb`msgs, mb`nMessages, mb`nBlockedMsg, mb.list, k`message
    ensures Linked(mb, k)
    ensures st == DeadlineStatus(k.deadLine[k.running.value], k.tc)
    ensures st == OK ==> mb.State() == old(mb.State()) && k.View() == old(k.View())
    ensures st == DEADLINE_REACHED ==>
      (mb.State(), k.View()) == Resume(old(mb.State()), old(k.View()), k.running.value, SENDER)
  {
    st := ResumeCall(mb, k, SENDER);
  }
}
