/** The list engine of Listor.c: circular doubly linked lists with a head and
    a tail sentinel. A list object keeps its pNext and pPrevious pointers as two
    maps over references (the sentinels and the node identities it links) and a
    ghost sequence, elems, that is the list read from head to tail. */
module Listor {
  import opened Types

  /** A list position: one of the two sentinels, or the node with a given identity. */
  datatype Ref = Head | Tail | Elem(id: nat)

  /** The reference at position k of the chain Head, s[0], ..., s[|s| - 1], Tail:
      Head is at -1 and Tail at |s|. */
  function At(s: seq<nat>, k: int): Ref
  {
    if k < 0 then Head else if k >= |s| then Tail else Elem(s[k])
  }

  predicate Distinct(s: seq<nat>)
  {
    forall i, j :: 0 <= i < j < |s| ==> s[i] != s[j]
  }

  predicate Disjoint(a: seq<nat>, b: seq<nat>)
  {
    forall x :: x in a ==> x !in b
  }

  /** Every node of s has a key. */
  predicate Keyed(s: seq<nat>, key: map<nat, int>)
  {
    forall x :: x in s ==> x in key
  }

  /** s is ordered ascending by key. */
  predicate SortedBy(s: seq<nat>, key: map<nat, int>)
  {
    Keyed(s, key) && forall i, j :: 0 <= i < j < |s| ==> key[s[i]] <= key[s[j]]
  }

  /** The index of the first node of s whose key is strictly greater than k
      (|s| when there is none). */
  function FirstAbove(s: seq<nat>, key: map<nat, int>, k: int): (p: nat)
    requires Keyed(s, key)
    ensures p <= |s|
    ensures forall j :: 0 <= j < p ==> key[s[j]] <= k
    ensures p < |s| ==> key[s[p]] > k
  {
    if s == [] || key[s[0]] > k then 0 else 1 + FirstAbove(s[1..], key, k)
  }

  /** s with x placed immediately before the first node whose key is strictly
      greater than x's: nodes with an equal key stay in front of x. */
  function InsertByKey(s: seq<nat>, key: map<nat, int>, x: nat): seq<nat>
    requires Keyed(s, key) && x in key
  {
    var p := FirstAbove(s, key, key[x]);
    s[..p] + [x] + s[p..]
  }

  /** s without its element at index i. */
  function RemoveAt(s: seq<nat>, i: nat): seq<nat>
    requires i < |s|
  {
    s[..i] + s[i + 1..]
  }

  /** The index of the first occurrence of x in s. */
  function IndexOf(s: seq<nat>, x: nat): (i: nat)
    requires x in s
    ensures i < |s| && s[i] == x
    ensures forall j :: 0 <= j < i ==> s[j] != x
  {
    if s[0] == x then 0 else 1 + IndexOf(s[1..], x)
  }

  /** The two conditions of FirstAbove's contract determine its result. */
  lemma {:induction false} FirstAboveUnique(s: seq<nat>, key: map<nat, int>, k: int, p: nat)
    requires Keyed(s, key) && p <= |s|
    requires forall j :: 0 <= j < p ==> key[s[j]] <= k
    requires p < |s| ==> key[s[p]] > k
    ensures FirstAbove(s, key, k) == p
  {
    if s != [] && key[s[0]] <= k {
      assert p > 0;
      FirstAboveUnique(s[1..], key, k, p - 1);
    }
  }

  /** Inserting by key keeps a sorted list sorted. */
  lemma InsertByKeySorted(s: seq<nat>, key: map<nat, int>, x: nat)
    requires SortedBy(s, key) && x in key
    ensures SortedBy(InsertByKey(s, key, x), key)
  {
    var p := FirstAbove(s, key, key[x]);
    var r := InsertByKey(s, key, x);
    assert |r| == |s| + 1;
    assert forall i :: 0 <= i < p ==> r[i] == s[i];
    assert r[p] == x;
    assert forall i :: p < i < |r| ==> r[i] == s[i - 1];
    forall i, j | 0 <= i < j < |r|
      ensures r[i] in key && r[j] in key && key[r[i]] <= key[r[j]]
    {
      if j < p {
      } else if j == p {
        assert key[s[i]] <= key[x];
      } else if i < p {
        assert key[s[i]] <= key[s[p]];
      } else if i == p {
        assert key[x] < key[s[p]];
        assert p == j - 1 || key[s[p]] <= key[s[j - 1]];
      } else {
        assert key[s[i - 1]] <= key[s[j - 1]];
      }
    }
  }

  /** Inserting by key adds exactly x: nothing is lost or duplicated. */
  lemma InsertByKeyContents(s: seq<nat>, key: map<nat, int>, x: nat)
    requires Keyed(s, key) && x in key
    ensures multiset(InsertByKey(s, key, x)) == multiset(s) + multiset{x}
    ensures forall y :: y in InsertByKey(s, key, x) <==> y in s || y == x
    ensures |InsertByKey(s, key, x)| == |s| + 1
  {
    var p := FirstAbove(s, key, key[x]);
    assert s == s[..p] + s[p..];
    assert multiset(s) == multiset(s[..p]) + multiset(s[p..]);
    assert forall y :: y in InsertByKey(s, key, x) <==> y in multiset(InsertByKey(s, key, x));
  }

  /** r with the nodes of m inserted by key one after another, first to last
      (the effect of a sequence of insertRL calls). */
  function InsertAll(r: seq<nat>, key: map<nat, int>, m: seq<nat>): (s: seq<nat>)
    requires Keyed(r, key) && Keyed(m, key)
    ensures Keyed(s, key)
  {
    if m == [] then r else
      var s0 := InsertAll(r, key, m[..|m| - 1]);
      InsertByKeyContents(s0, key, m[|m| - 1]);
      InsertByKey(s0, key, m[|m| - 1])
  }

  /** A run of insertions adds exactly the inserted nodes. */
  lemma {:induction false} InsertAllContents(r: seq<nat>, key: map<nat, int>, m: seq<nat>)
    requires Keyed(r, key) && Keyed(m, key)
    ensures multiset(InsertAll(r, key, m)) == multiset(r) + multiset(m)
  {
    if m != [] {
      var m0 := m[..|m| - 1];
      InsertAllContents(r, key, m0);
      InsertByKeyContents(InsertAll(r, key, m0), key, m[|m| - 1]);
      assert m == m0 + [m[|m| - 1]];
    }
  }

  /** Inserting a node that is not yet in a list of distinct nodes keeps them distinct. */
  lemma InsertAtDistinct(s: seq<nat>, i: nat, x: nat)
    requires Distinct(s) && x !in s && i <= |s|
    ensures Distinct(s[..i] + [x] + s[i..])
  {
    var r := s[..i] + [x] + s[i..];
    forall a, b | 0 <= a < b < |r| ensures r[a] != r[b] {
      if a < i && b > i {
        assert r[b] == s[b - 1];
      } else if a > i {
        assert r[a] == s[a - 1] && r[b] == s[b - 1];
      }
    }
  }

  /** Removing an element keeps the rest distinct, ordered, with their keys. */
  lemma RemoveAtProps(s: seq<nat>, i: nat, key: map<nat, int>)
    requires i < |s|
    ensures multiset(RemoveAt(s, i)) == multiset(s) - multiset{s[i]}
    ensures forall y :: y in RemoveAt(s, i) ==> y in s
    ensures Distinct(s) ==> Distinct(RemoveAt(s, i)) && s[i] !in RemoveAt(s, i)
    ensures SortedBy(s, key) ==> SortedBy(RemoveAt(s, i), key)
  {
    RemoveAtContents(s, i);
    if Distinct(s) {
      RemoveAtDistinct(s, i);
    }
    if SortedBy(s, key) {
      RemoveAtSorted(s, i, key);
    }
  }

  /** The elements left after a removal keep their order: those before i
      stay put, those after it move down by one. */
  lemma RemoveAtIndex(s: seq<nat>, i: nat)
    requires i < |s|
    ensures |RemoveAt(s, i)| == |s| - 1
    ensures forall j :: 0 <= j < i ==> RemoveAt(s, i)[j] == s[j]
    ensures forall j :: i <= j < |s| - 1 ==> RemoveAt(s, i)[j] == s[j + 1]
  {
  }

  /** A removal takes away exactly the element at i. */
  lemma RemoveAtContents(s: seq<nat>, i: nat)
    requires i < |s|
    ensures multiset(RemoveAt(s, i)) == multiset(s) - multiset{s[i]}
    ensures forall y :: y in RemoveAt(s, i) ==> y in s
  {
    var r := RemoveAt(s, i);
    assert s == s[..i] + [s[i]] + s[i + 1..];
    assert multiset(s) == multiset(s[..i]) + multiset{s[i]} + multiset(s[i + 1..]);
    assert forall y :: y in r ==> y in multiset(r);
  }

  lemma RemoveAtDistinct(s: seq<nat>, i: nat)
    requires i < |s| && Distinct(s)
    ensures Distinct(RemoveAt(s, i)) && s[i] !in RemoveAt(s, i)
  {
    var r := RemoveAt(s, i);
    RemoveAtIndex(s, i);
    forall a, b | 0 <= a < b < |r| ensures r[a] != r[b] {
      if a < i && b >= i {
        assert r[b] == s[b + 1];
      }
    }
    forall j | 0 <= j < |r| ensures r[j] != s[i] {
      if j >= i { assert r[j] == s[j + 1]; }
    }
  }

  lemma RemoveAtSorted(s: seq<nat>, i: nat, key: map<nat, int>)
    requires i < |s| && SortedBy(s, key)
    ensures SortedBy(RemoveAt(s, i), key)
  {
    var r := RemoveAt(s, i);
    RemoveAtIndex(s, i);
    RemoveAtContents(s, i);
    forall a, b | 0 <= a < b < |r| ensures key[r[a]] <= key[r[b]] {
      var a' := if a < i then a else a + 1;
      var b' := if b < i then b else b + 1;
      assert r[a] == s[a'] && r[b] == s[b'];
    }
  }

  /** A sorted list stays sorted when a node outside it changes key. */
  lemma SortedByUpdate(s: seq<nat>, key: map<nat, int>, x: nat, v: int)
    requires SortedBy(s, key) && x !in s
    ensures SortedBy(s, key[x := v])
  {
    assert forall y :: y in s ==> key[x := v][y] == key[y];
  }

  /** Two nodes' distinctness makes At injective on the chain. */
  lemma AtInjective(s: seq<nat>, a: int, b: int)
    requires Distinct(s) && -1 <= a <= |s| && -1 <= b <= |s| && a != b
    ensures At(s, a) != At(s, b)
  {
  }

  /** Positions in s[..i] + [x] + s[i..] in terms of positions in s. */
  lemma AtInsert(s: seq<nat>, i: nat, x: nat, k: int)
    requires i <= |s| && -1 <= k <= |s| + 1
    ensures var r := s[..i] + [x] + s[i..];
      (k < i ==> At(r, k) == At(s, k)) &&
      (k == i ==> At(r, k) == Elem(x)) &&
      (k > i ==> At(r, k) == At(s, k - 1))
  {
  }

  /** Positions in RemoveAt(s, i) in terms of positions in s. */
  lemma AtRemove(s: seq<nat>, i: nat, k: int)
    requires i < |s| && -1 <= k <= |s| - 1
    ensures k < i ==> At(RemoveAt(s, i), k) == At(s, k)
    ensures k >= i ==> At(RemoveAt(s, i), k) == At(s, k + 1)
  {
  }

  /** next links every position of the chain Head, s..., Tail to the following one. */
  predicate NextChain(s: seq<nat>, next: map<Ref, Ref>)
  {
    forall k {:trigger At(s, k)} :: -1 <= k < |s| ==>
      At(s, k) in next && next[At(s, k)] == (if k + 1 >= |s| then Tail else Elem(s[k + 1]))
  }

  /** prev links every position of the chain Head, s..., Tail to the preceding one. */
  predicate PrevChain(s: seq<nat>, prev: map<Ref, Ref>)
  {
    forall k {:trigger At(s, k)} :: 0 <= k <= |s| ==>
      At(s, k) in prev && prev[At(s, k)] == (if k - 1 < 0 then Head else Elem(s[k - 1]))
  }

  /** Linking x after position i - 1 rewires two successor links. */
  lemma LinkNext(s: seq<nat>, i: nat, x: nat, next: map<Ref, Ref>)
    requires Distinct(s) && x !in s && i <= |s| && NextChain(s, next)
    ensures NextChain(s[..i] + [x] + s[i..], next[Elem(x) := At(s, i)][At(s, i - 1) := Elem(x)])
  {
    var r := s[..i] + [x] + s[i..];
    var next' := next[Elem(x) := At(s, i)][At(s, i - 1) := Elem(x)];
    forall k | -1 <= k < |r|
      ensures At(r, k) in next' && next'[At(r, k)] == (if k + 1 >= |r| then Tail else Elem(r[k + 1]))
    {
      AtInsert(s, i, x, k);
      AtInsert(s, i, x, k + 1);
      if k < i - 1 {
        AtInjective(s, k, i - 1);
        assert next[At(s, k)] == At(s, k + 1);
      } else if k > i {
        AtInjective(s, k - 1, i - 1);
        assert next[At(s, k - 1)] == At(s, k);
      }
    }
  }

  /** Linking x after position i - 1 rewires two predecessor links. */
  lemma LinkPrev(s: seq<nat>, i: nat, x: nat, prev: map<Ref, Ref>)
    requires Distinct(s) && x !in s && i <= |s| && PrevChain(s, prev)
    ensures PrevChain(s[..i] + [x] + s[i..], prev[Elem(x) := At(s, i - 1)][At(s, i) := Elem(x)])
  {
    var r := s[..i] + [x] + s[i..];
    var prev' := prev[Elem(x) := At(s, i - 1)][At(s, i) := Elem(x)];
    forall k | 0 <= k <= |r|
      ensures At(r, k) in prev' && prev'[At(r, k)] == (if k - 1 < 0 then Head else Elem(r[k - 1]))
    {
      AtInsert(s, i, x, k);
      AtInsert(s, i, x, k - 1);
      if k < i {
        AtInjective(s, k, i);
        assert prev[At(s, k)] == At(s, k - 1);
      } else if k > i + 1 {
        AtInjective(s, k - 1, i);
        assert prev[At(s, k - 1)] == At(s, k - 2);
      }
    }
  }

  /** Unlinking the node at index i joins its neighbours' successor links. */
  lemma UnlinkNext(s: seq<nat>, i: nat, next: map<Ref, Ref>)
    requires Distinct(s) && i < |s| && NextChain(s, next)
    ensures NextChain(RemoveAt(s, i), (next - {Elem(s[i])})[At(s, i - 1) := At(s, i + 1)])
  {
    var r := RemoveAt(s, i);
    var next' := (next - {Elem(s[i])})[At(s, i - 1) := At(s, i + 1)];
    assert |r| == |s| - 1;
    forall k | -1 <= k < |r|
      ensures At(r, k) in next' && next'[At(r, k)] == (if k + 1 >= |r| then Tail else Elem(r[k + 1]))
    {
      AtRemove(s, i, k);
      AtRemove(s, i, k + 1);
      if k < i - 1 {
        AtInjective(s, k, i - 1);
        AtInjective(s, k, i);
        assert next[At(s, k)] == At(s, k + 1);
      } else if k >= i {
        AtInjective(s, k + 1, i - 1);
        AtInjective(s, k + 1, i);
        assert next[At(s, k + 1)] == At(s, k + 2);
      }
    }
  }

  /** Unlinking the node at index i joins its neighbours' predecessor links. */
  lemma UnlinkPrev(s: seq<nat>, i: nat, prev: map<Ref, Ref>)
    requires Distinct(s) && i < |s| && PrevChain(s, prev)
    ensures PrevChain(RemoveAt(s, i), (prev - {Elem(s[i])})[At(s, i + 1) := At(s, i - 1)])
  {
    var r := RemoveAt(s, i);
    var prev' := (prev - {Elem(s[i])})[At(s, i + 1) := At(s, i - 1)];
    assert |r| == |s| - 1;
    forall k | 0 <= k <= |r|
      ensures At(r, k) in prev' && prev'[At(r, k)] == (if k - 1 < 0 then Head else Elem(r[k - 1]))
    {
      AtRemove(s, i, k);
      AtRemove(s, i, k - 1);
      if k < i {
        AtInjective(s, k, i + 1);
        AtInjective(s, k, i);
        assert prev[At(s, k)] == At(s, k - 1);
      } else if k > i {
        AtInjective(s, k + 1, i + 1);
        AtInjective(s, k + 1, i);
        assert prev[At(s, k + 1)] == At(s, k);
      }
    }
  }

  /** A sentinel-headed doubly linked list (Listor.c's list and the message
      list of a mailbox). */
  class DList {
    var next: map<Ref, Ref>
    var prev: map<Ref, Ref>
    ghost var elems: seq<nat>

    /** The links are exactly those of the chain Head, elems..., Tail, and the
        sentinels point to themselves at the open ends. */
    ghost predicate Valid()
      reads this
    {
      Distinct(elems) && NextChain(elems, next) && PrevChain(elems, prev) &&
      Tail in next && next[Tail] == Tail && Head in prev && prev[Head] == Head
    }

    /** create_list / create_mailB: the head's successor is the tail and the
        tail's predecessor is the head. */
    constructor ()
      ensures Valid() && elems == []
    {
      new;
      Clear();
    }

    /** create_list: an empty list, the head's successor the tail and the
        tail's predecessor the head. */
    method Clear()
      modifies this
      ensures Valid() && elems == []
      ensures next == map[Head := Tail, Tail := Tail] && prev == map[Head := Head, Tail := Head]
    {
      next := map[Head := Tail, Tail := Tail];
      prev := map[Head := Head, Tail := Head];
      elems := [];
    }

    /** The head's successor: the tail exactly when the list is empty. */
    function First(): (r: Ref)
      reads this
      requires Valid()
      ensures r == Tail <==> elems == []
      ensures elems != [] ==> r == Elem(elems[0])
    {
      assert next[At(elems, -1)] == At(elems, 0);
      next[Head]
    }

    /** The tail's predecessor: the head exactly when the list is empty. */
    function Last(): (r: Ref)
      reads this
      requires Valid()
      ensures r == Head <==> elems == []
      ensures elems != [] ==> r == Elem(elems[|elems| - 1])
    {
      assert prev[At(elems, |elems|)] == At(elems, |elems| - 1);
      prev[Tail]
    }

    /** The successor link of the reference at chain position i (the tail's
        successor is the tail itself). */
    function Succ(cur: Ref, ghost i: int): (s: Ref)
      reads this
      requires Valid() && -1 <= i <= |elems| && cur == At(elems, i)
      ensures s == At(elems, i + 1)
    {
      assert i < |elems| ==> next[At(elems, i)] == At(elems, i + 1);
      next[cur]
    }

    /** Links obj between cur (at position i - 1) and its successor. */
    method LinkAfter(cur: Ref, ghost i: int, obj: nat)
      requires Valid() && 0 <= i <= |elems| && cur == At(elems, i - 1) && obj !in elems
      modifies this
      ensures Valid() && elems == old(elems)[..i] + [obj] + old(elems)[i..]
    {
      ghost var s := elems;
      assert next[At(s, i - 1)] == At(s, i);
      var succ := next[cur];
      LinkNext(s, i, obj, next);
      LinkPrev(s, i, obj, prev);
      InsertAtDistinct(s, i, obj);
      AtInjective(s, i, -1);
      AtInjective(s, i - 1, |s|);
      next := next[Elem(obj) := succ][cur := Elem(obj)];
      prev := prev[Elem(obj) := cur][succ := Elem(obj)];
      elems := s[..i] + [obj] + s[i..];
    }

    /** remove_MBoxmsg: the node's predecessor and successor are linked to
        each other and the node's own links are cleared. */
    method Unlink(x: nat)
      requires Valid() && x in elems
      modifies this
      ensures Valid() && elems == RemoveAt(old(elems), IndexOf(old(elems), x))
      ensures Elem(x) !in next && Elem(x) !in prev
    {
      ghost var s := elems;
      ghost var i: int := IndexOf(s, x);
      assert next[At(s, i)] == At(s, i + 1) && prev[At(s, i)] == At(s, i - 1);
      var p := prev[Elem(x)];
      var n := next[Elem(x)];
      UnlinkNext(s, i, next);
      UnlinkPrev(s, i, prev);
      RemoveAtProps(s, i, map[]);
      AtInjective(s, i, -1);
      AtInjective(s, i, |s|);
      next := (next - {Elem(x)})[p := n];
      prev := (prev - {Elem(x)})[n := p];
      elems := RemoveAt(s, i);
    }

    /** insertRL / insertTL: a cursor walks from the head while its successor's
        key is not greater than obj's, and obj is linked after the cursor. */
    method Insert(obj: nat, key: map<nat, int>)
      requires Valid() && obj !in elems && Keyed(elems, key) && obj in key
      modifies this
      ensures Valid() && elems == InsertByKey(old(elems), key, obj)
    {
      var cur := Head;
      ghost var i: nat := 0;
      while next[cur] != Tail
        invariant Valid() && elems == old(elems)
        invariant i <= |elems| && cur == At(elems, i - 1)
        invariant forall j :: 0 <= j < i ==> key[elems[j]] <= key[obj]
        decreases |elems| - i
      {
        assert next[At(elems, i - 1)] == At(elems, i);
        if key[next[cur].id] > key[obj] {
          break;
        }
        cur := next[cur];
        i := i + 1;
      }
      assert next[At(elems, i - 1)] == At(elems, i);
      FirstAboveUnique(elems, key, key[obj], i);
      LinkAfter(cur, i, obj);
    }

    /** extractRL: removes and returns the head's successor; on an empty list
        it returns the tail sentinel and changes nothing. */
    method ExtractFront() returns (r: Ref)
      requires Valid()
      modifies this
      ensures Valid()
      ensures old(elems) == [] ==> r == Tail && elems == [] && next == old(next) && prev == old(prev)
      ensures old(elems) != [] ==> r == Elem(old(elems)[0]) && elems == old(elems)[1..]
      ensures old(elems) != [] ==> r !in next && r !in prev
    {
      r := First();
      if r != Tail {
        Unlink(r.id);
        assert RemoveAt(old(elems), 0) == old(elems)[1..];
      }
    }

    /** extractWL: a cursor walks from the head until it meets pBlock or the
        tail; a node that was found is unlinked and returned. */
    method ExtractRef(pBlock: nat) returns (r: Option<nat>)
      requires Valid()
      modifies this
      ensures Valid()
      ensures pBlock in old(elems) ==>
        r == Some(pBlock) && elems == RemoveAt(old(elems), IndexOf(old(elems), pBlock))
      ensures pBlock !in old(elems) ==> r == None && elems == old(elems)
    {
      var found := false;
      var cur := Head;
      ghost var i: nat := 0;
      while next[cur] != Tail && !found
        invariant Valid() && elems == old(elems)
        invariant i <= |elems| && cur == At(elems, i - 1)
        invariant found <==> i > 0 && elems[i - 1] == pBlock
        invariant forall j :: 0 <= j < i - 1 ==> elems[j] != pBlock
        invariant !found ==> forall j :: 0 <= j < i ==> elems[j] != pBlock
        decreases |elems| - i
      {
        assert next[At(elems, i - 1)] == At(elems, i);
        cur := next[cur];
        i := i + 1;
        if cur == Elem(pBlock) {
          found := true;
        }
      }
      assert next[At(elems, i - 1)] == At(elems, i);
      if found {
        assert IndexOf(elems, pBlock) == i - 1;
        Unlink(pBlock);
        r := Some(pBlock);
      } else {
        r := None;
      }
    }

    /** insertMB: obj is linked immediately after the head sentinel. */
    method InsertFront(obj: nat)
      requires Valid() && obj !in elems
      modifies this
      ensures Valid() && elems == [obj] + old(elems)
    {
      LinkAfter(Head, 0, obj);
    }

    /** remove_OldMsg: the tail's predecessor, the earliest-inserted node of a
        front-inserted list, is unlinked. */
    method RemoveLast() returns (x: nat)
      requires Valid() && elems != []
      modifies this
      ensures Valid()
      ensures x == old(elems)[|old(elems)| - 1] && elems == old(elems)[..|old(elems)| - 1]
    {
      var last := Last();
      x := last.id;
      assert IndexOf(elems, x) == |elems| - 1;
      Unlink(x);
    }
  }
}
