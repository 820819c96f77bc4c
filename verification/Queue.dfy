/**
 The intrusive LIST and TAILQ macros of include/queue.h. Elements are indices of the array
 that holds them (pages[] or envs[]); an element's `prev` is not the previous element but the
 address of the pointer that points at it: the head's first pointer or another element's
 `next`. Given well-formed links, each macro acts on the sequence of elements as its name
 says and leaves well-formed links.
 */
module Queue {
  import opened Wrappers

  /** The address of a pointer to an element; an element never queued carries a null one. */
  datatype Slot = First | NextOf(e: nat) | Null

  datatype Links = Links(first: Option<nat>, next: seq<Option<nat>>, prev: seq<Slot>)

  /** The element at position `k` of the queue, and the pointer that leads to position `k`. */
  function ItemAt(q: seq<nat>, k: nat): Option<nat> { if k < |q| then Some(q[k]) else None }

  function SlotAt(q: seq<nat>, k: nat): Slot
    requires k <= |q|
  {
    if k == 0 then First else NextOf(q[k - 1])
  }

  predicate SlotOk(l: Links, slot: Slot) { slot.NextOf? ==> slot.e < |l.next| }

  /** `*slot = v`; through a null slot the kernel stores to address 0 and panics. */
  function Assign(l: Links, slot: Slot, v: Option<nat>): Links
    requires SlotOk(l, slot) && slot != Null
  {
    match slot
    case First => l.(first := v)
    case NextOf(e) => l.(next := l.next[e := v])
  }

  ghost predicate Linked(l: Links, q: seq<nat>) {
    && |l.prev| == |l.next|
    && (forall i, j :: 0 <= i < j < |q| ==> q[i] != q[j])
    && l.first == ItemAt(q, 0)
    && (forall i :: 0 <= i < |q| ==> LinkOk(l, q, i))
  }

  ghost predicate LinkOk(l: Links, q: seq<nat>, i: nat)
    requires i < |q|
  {
    && q[i] < |l.next| == |l.prev|
    && l.next[q[i]] == ItemAt(q, i + 1)
    && l.prev[q[i]] == SlotAt(q, i)
  }

  function Insert(q: seq<nat>, k: nat, x: nat): seq<nat>
    requires k <= |q|
  {
    q[..k] + [x] + q[k..]
  }

  function Delete(q: seq<nat>, k: nat): seq<nat>
    requires k < |q|
  {
    q[..k] + q[k + 1..]
  }

  /** Links in which the pointer to position `k` leads to `x`, and `x` to the old item there. */
  ghost predicate SplicedIn(l: Links, l': Links, q: seq<nat>, k: nat, x: nat) {
    && k <= |q| && x < |l.next| == |l'.next| == |l.prev| == |l'.prev|
    && l'.first == (if k == 0 then Some(x) else l.first)
    && l'.next[x] == ItemAt(q, k) && l'.prev[x] == SlotAt(q, k)
    && (forall y :: 0 <= y < |l.next| && y != x ==>
          l'.next[y] == if k > 0 && y == q[k - 1] then Some(x) else l.next[y])
    && (forall y :: 0 <= y < |l.next| && y != x ==>
          l'.prev[y] == if k < |q| && y == q[k] then NextOf(x) else l.prev[y])
  }

  lemma InsertIndex(q: seq<nat>, k: nat, x: nat)
    requires k <= |q|
    ensures |Insert(q, k, x)| == |q| + 1
    ensures forall i :: 0 <= i <= |q| ==> Insert(q, k, x)[i] == if i < k then q[i] else if i == k then x else q[i - 1]
  {
  }

  lemma SplicedInAt(l: Links, l': Links, q: seq<nat>, k: nat, x: nat, i: nat)
    requires Linked(l, q) && x !in q && SplicedIn(l, l', q, k, x) && i <= |q|
    ensures |Insert(q, k, x)| == |q| + 1 && LinkOk(l', Insert(q, k, x), i)
  {
    InsertIndex(q, k, x);
    if i < k {
      LinksAt(l, q, i);
      assert q[i] in q;
    } else if i > k {
      LinksAt(l, q, i - 1);
      assert q[i - 1] in q;
    }
  }

  lemma SplicedInLinked(l: Links, l': Links, q: seq<nat>, k: nat, x: nat)
    requires Linked(l, q) && x !in q && SplicedIn(l, l', q, k, x)
    ensures Linked(l', Insert(q, k, x))
  {
    InsertIndex(q, k, x);
    var q' := Insert(q, k, x);
    forall i | 0 <= i < |q'|
      ensures LinkOk(l', q', i)
    {
      SplicedInAt(l, l', q, k, x, i);
    }
    forall i, j | 0 <= i < j < |q'|
      ensures q'[i] != q'[j]
    {
      assert i < k ==> q[i] in q;
      assert j > k ==> q[j - 1] in q;
    }
    LinksHead(l, q);
  }

  /** Links in which the pointer to position `k` skips the element there. */
  ghost predicate SplicedOut(l: Links, l': Links, q: seq<nat>, k: nat) {
    && k < |q| && |l.next| == |l'.next| == |l.prev| == |l'.prev|
    && l'.first == (if k == 0 then ItemAt(q, 1) else l.first)
    && (forall y :: 0 <= y < |l.next| ==>
          l'.next[y] == if k > 0 && y == q[k - 1] then ItemAt(q, k + 1) else l.next[y])
    && (forall y :: 0 <= y < |l.next| ==>
          l'.prev[y] == if k + 1 < |q| && y == q[k + 1] then SlotAt(q, k) else l.prev[y])
  }

  lemma DeleteIndex(q: seq<nat>, k: nat)
    requires k < |q|
    ensures |Delete(q, k)| == |q| - 1
    ensures forall i :: 0 <= i < |q| - 1 ==> Delete(q, k)[i] == if i < k then q[i] else q[i + 1]
  {
  }

  lemma SplicedOutAt(l: Links, l': Links, q: seq<nat>, k: nat, i: nat)
    requires Linked(l, q) && SplicedOut(l, l', q, k) && i < |q| - 1
    ensures |Delete(q, k)| == |q| - 1 && LinkOk(l', Delete(q, k), i)
  {
    DeleteIndex(q, k);
    LinksAt(l, q, if i < k then i else i + 1);
  }

  lemma SplicedOutLinked(l: Links, l': Links, q: seq<nat>, k: nat)
    requires Linked(l, q) && SplicedOut(l, l', q, k)
    ensures Linked(l', Delete(q, k))
  {
    DeleteIndex(q, k);
    var q' := Delete(q, k);
    forall i | 0 <= i < |q'|
      ensures LinkOk(l', q', i)
    {
      SplicedOutAt(l, l', q, k, i);
    }
    LinksHead(l, q);
  }

  lemma LinksHead(l: Links, q: seq<nat>)
    requires Linked(l, q)
    ensures l.first == ItemAt(q, 0) && |l.prev| == |l.next|
    ensures q != [] ==> q[0] < |l.next|
  {
    assert q != [] ==> LinkOk(l, q, 0);
  }

  /** What the links say about the element at position `i`. */
  lemma LinksAt(l: Links, q: seq<nat>, i: nat)
    requires Linked(l, q) && i < |q|
    ensures q[i] < |l.next| && l.next[q[i]] == ItemAt(q, i + 1) && l.prev[q[i]] == SlotAt(q, i)
    ensures i + 1 < |q| ==> q[i + 1] < |l.next| && q[i + 1] != q[i]
    ensures i > 0 ==> q[i - 1] < |l.next| && q[i - 1] != q[i]
  {
    assert LinkOk(l, q, i);
    assert i + 1 < |q| ==> LinkOk(l, q, i + 1);
    assert i > 0 ==> LinkOk(l, q, i - 1);
  }

  // ---- removing an element that is not in the queue ----

  /** The links of a tail queue and its last pointer stand for the sequence `q`. */
  ghost predicate Queued(l: Links, last: Slot, q: seq<nat>) {
    Linked(l, q) && last == SlotAt(q, |q|)
  }

  /** The element's own links lead to places that exist, or nowhere. */
  predicate LinksInRange(l: Links, x: nat) {
    && x < |l.next| == |l.prev| && SlotOk(l, l.prev[x])
    && (l.next[x].Some? ==> l.next[x].value < |l.next|)
  }

  /** What the two statements of TAILQ_REMOVE leave, whatever links the element carries; None is the panic. */
  function Unlinked(l: Links, x: nat): Option<Links>
    requires LinksInRange(l, x)
  {
    if l.prev[x] == Null then None else Some(Assign(Bypassed(l, x), l.prev[x], l.next[x]))
  }

  /** The first statement, where there is a next element. */
  function Bypassed(l: Links, x: nat): (l1: Links)
    requires LinksInRange(l, x)
    ensures |l1.next| == |l.next| && |l1.prev| == |l.prev|
  {
    if l.next[x].Some? then l.(prev := l.prev[l.next[x].value := l.prev[x]]) else l
  }

  function UnlinkedLast(l: Links, last: Slot, x: nat): Slot
    requires x < |l.next| == |l.prev|
  {
    if l.next[x].None? then l.prev[x] else last
  }

  /** The removal of `x` does not panic, and everything it would write into the queue is there already. */
  predicate WritesNothingNew(l: Links, last: Slot, q: seq<nat>, x: nat)
    requires LinksInRange(l, x)
  {
    && l.prev[x] != Null
    && (l.next[x].None? ==> l.prev[x] == last)
    && (l.next[x].Some? && l.next[x].value in q ==> l.prev[l.next[x].value] == l.prev[x])
    && (l.prev[x] == First ==> l.first == l.next[x])
    && (l.prev[x].NextOf? && l.prev[x].e in q ==> l.next[l.prev[x].e] == l.next[x])
  }

  /** The removal of `x` leaves the links of the sequence `q`. */
  ghost predicate UnlinksTo(l: Links, last: Slot, x: nat, q: seq<nat>)
    requires LinksInRange(l, x)
  {
    Unlinked(l, x).Some? && Queued(Unlinked(l, x).value, UnlinkedLast(l, last, x), q)
  }

  /**
   TAILQ_REMOVE of an element that is not in the queue, as env_free does with an env that is
   not runnable: the queue survives if and only if the removal does not panic and writes
   nothing new into it.
   */
  lemma StaleUnlinkExact(l: Links, last: Slot, q: seq<nat>, x: nat)
    requires Queued(l, last, q) && x !in q && LinksInRange(l, x)
    ensures UnlinksTo(l, last, x, q) <==> WritesNothingNew(l, last, q, x)
  {
    if WritesNothingNew(l, last, q, x) {
      var l' := Unlinked(l, x).value;
      forall i | 0 <= i < |q|
        ensures LinkOk(l', q, i)
      {
        LinksAt(l, q, i);
        assert q[i] in q;
      }
    } else if UnlinksTo(l, last, x, q) {
      var l' := Unlinked(l, x).value;
      if l.next[x].Some? && l.next[x].value in q && l.prev[l.next[x].value] != l.prev[x] {
        var i :| 0 <= i < |q| && q[i] == l.next[x].value;
        LinksAt(l, q, i);
        LinksAt(l', q, i);
      } else if l.prev[x].NextOf? && l.prev[x].e in q && l.next[l.prev[x].e] != l.next[x] {
        var i :| 0 <= i < |q| && q[i] == l.prev[x].e;
        LinksAt(l, q, i);
        LinksAt(l', q, i);
      }
    }
  }

  // ---- after such a removal no other sequence fits ----

  /** The same next pointers from equal elements on lead to equal tails. */
  lemma {:induction false} SameTail(l: Links, q: seq<nat>, a: nat, l': Links, q': seq<nat>, b: nat)
    requires Linked(l, q) && Linked(l', q') && a <= |q| && b <= |q'| && ItemAt(q, a) == ItemAt(q', b)
    requires forall k :: a <= k < |q| ==> q[k] < |l.next| && q[k] < |l'.next| && l'.next[q[k]] == l.next[q[k]]
    ensures q[a..] == q'[b..]
    decreases |q| - a
  {
    if a < |q| {
      LinksAt(l, q, a);
      LinksAt(l', q', b);
      SameTail(l, q, a + 1, l', q', b + 1);
      assert q[a..] == [q[a]] + q[a + 1..] && q'[b..] == [q'[b]] + q'[b + 1..];
    }
  }

  /** Up to the element whose next pointer was written, both sequences agree. */
  lemma {:induction false} SameHead(l: Links, q: seq<nat>, l': Links, q': seq<nat>, i: nat)
    requires Linked(l, q) && Linked(l', q') && i < |q| && l'.first == l.first
    requires forall k :: 0 <= k < i ==> q[k] < |l.next| && q[k] < |l'.next| && l'.next[q[k]] == l.next[q[k]]
    ensures i < |q'| && q'[..i + 1] == q[..i + 1]
  {
    if i == 0 {
      LinksHead(l, q);
      LinksHead(l', q');
    } else {
      SameHead(l, q, l', q', i - 1);
      LinksAt(l, q, i - 1);
      LinksAt(l', q', i - 1);
      assert q'[i - 1] == q'[..i][i - 1] == q[..i][i - 1] == q[i - 1];
      assert q'[..i + 1] == q'[..i] + [q'[i]] && q[..i + 1] == q[..i] + [q[i]];
    }
  }

  /**
   Two sequences of the same elements whose links differ in one pointer at most, the one to
   position `p`, are equal.
   */
  lemma OnePointerSame(l: Links, q: seq<nat>, l': Links, q': seq<nat>, p: nat)
    requires Linked(l, q) && Linked(l', q') && p <= |q| == |q'| && |l'.next| == |l.next|
    requires forall x :: x in q' ==> x in q
    requires p > 0 ==> l'.first == l.first
    requires forall k :: 0 <= k < |q| && k + 1 != p ==> q[k] < |l.next| && l'.next[q[k]] == l.next[q[k]]
    ensures q' == q
  {
    hide Linked;
    if p > 0 { SameHead(l, q, l', q', p - 1); }
    if p == |q| {
      assert q'[..p] == q' && q[..p] == q;
    } else {
      var j := IndexOf(q, q'[p]);
      NotBefore(l', q, q', p, j);
      SameTail(l, q, j, l', q', p);
      GlueTails(q, q', p, j);
    }
  }

  lemma IndexOf(q: seq<nat>, x: nat) returns (j: nat)
    requires x in q
    ensures j < |q| && q[j] == x
  {
    j :| j < |q| && q[j] == x;
  }

  lemma NotBefore(l: Links, q: seq<nat>, q': seq<nat>, p: nat, j: nat)
    requires Linked(l, q') && p < |q'| == |q| && j < |q| && q[j] == q'[p] && q'[..p] == q[..p]
    ensures p <= j
  {
  }

  lemma GlueTails(q: seq<nat>, q': seq<nat>, p: nat, j: nat)
    requires p <= j < |q| == |q'| && q[j..] == q'[p..] && q[..p] == q'[..p]
    ensures q == q'
  {
    assert |q[j..]| == |q'[p..]|;
    assert q == q[..p] + q[p..] && q' == q'[..p] + q'[p..];
  }

  /** Whatever sequence of the same elements the removal leaves, it is the one there was. */
  lemma UnlinkedOrder(l: Links, last: Slot, q: seq<nat>, x: nat, q': seq<nat>)
    requires Queued(l, last, q) && x !in q && LinksInRange(l, x) && UnlinksTo(l, last, x, q')
    requires |q'| == |q| && forall y :: y in q' ==> y in q
    ensures q' == q
  {
    var l' := Unlinked(l, x).value;
    forall k | 0 <= k < |q|
      ensures q[k] < |l.next|
    {
      LinksAt(l, q, k);
    }
    if l.prev[x] == First {
      OnePointerSame(l, q, l', q', 0);
    } else if l.prev[x].e in q {
      var i :| 0 <= i < |q| && q[i] == l.prev[x].e;
      OnePointerSame(l, q, l', q', i + 1);
    } else {
      OnePointerSame(l, q, l', q', |q|);
    }
  }

  // ---- the macros as functions of the links ----

  /** TAILQ_REMOVE of an element of the queue. */
  lemma UnlinkQueued(l: Links, last: Slot, q: seq<nat>, i: nat)
    requires Queued(l, last, q) && i < |q|
    ensures LinksInRange(l, q[i]) && l.prev[q[i]] != Null && UnlinksTo(l, last, q[i], Delete(q, i))
  {
    hide Linked;
    LinksHead(l, q);
    LinksAt(l, q, i);
    SplicedOutLinked(l, Unlinked(l, q[i]).value, q, i);
  }

  /** A second removal straight after the first does no harm. */
  lemma SecondUnlinkHarmless(l: Links, last: Slot, q: seq<nat>, i: nat)
    requires Queued(l, last, q) && i < |q| && LinksInRange(l, q[i]) && Unlinked(l, q[i]).Some?
    ensures var x, l' := q[i], Unlinked(l, q[i]).value;
      && LinksInRange(l', x) && x !in Delete(q, i)
      && WritesNothingNew(l', UnlinkedLast(l, last, x), Delete(q, i), x)
  {
    LinksHead(l, q);
    LinksAt(l, q, i);
    DeleteIndex(q, i);
    if i + 1 < |q| { LinksAt(l, q, i + 1); }
    if i > 0 { LinksAt(l, q, i - 1); }
  }

  /** TAILQ_INSERT_TAIL; the last pointer becomes the address of the new element's next. */
  function Appended(l: Links, last: Slot, x: nat): Links
    requires x < |l.next| == |l.prev| && SlotOk(l, last) && last != Null
  {
    Assign(l.(next := l.next[x := None], prev := l.prev[x := last]), last, Some(x))
  }

  lemma AppendQueued(l: Links, last: Slot, q: seq<nat>, x: nat)
    requires Queued(l, last, q) && x !in q && x < |l.next|
    ensures |l.next| == |l.prev| && SlotOk(l, last) && last != Null
    ensures Queued(Appended(l, last, x), NextOf(x), q + [x])
  {
    hide Linked;
    LinksHead(l, q);
    if q != [] { LinksAt(l, q, |q| - 1); }
    SplicedInLinked(l, Appended(l, last, x), q, |q|, x);
    assert Insert(q, |q|, x) == q + [x];
  }

  /** TAILQ_INSERT_HEAD. */
  function Pushed(l: Links, x: nat): Links
    requires x < |l.next| == |l.prev| && (l.first.Some? ==> l.first.value < |l.prev|)
  {
    var l1 := l.(next := l.next[x := l.first]);
    var l2 := if l.first.Some? then l1.(prev := l1.prev[l.first.value := NextOf(x)]) else l1;
    l2.(first := Some(x), prev := l2.prev[x := First])
  }

  function PushedLast(l: Links, last: Slot, x: nat): Slot { if l.first.None? then NextOf(x) else last }

  lemma PushQueued(l: Links, last: Slot, q: seq<nat>, x: nat)
    requires Queued(l, last, q) && x !in q && x < |l.next|
    ensures |l.next| == |l.prev| && (l.first.Some? ==> l.first.value < |l.prev|)
    ensures Queued(Pushed(l, x), PushedLast(l, last, x), [x] + q)
  {
    hide Linked;
    LinksHead(l, q);
    if q != [] { LinksAt(l, q, 0); }
    SplicedInLinked(l, Pushed(l, x), q, 0, x);
    assert Insert(q, 0, x) == [x] + q;
  }

  /** Every element's links lead somewhere, queued or not. */
  ghost predicate Ranged(l: Links) {
    |l.next| == |l.prev| && forall x :: 0 <= x < |l.next| ==> LinksInRange(l, x)
  }

  lemma RangedAssign(l: Links, slot: Slot, v: Option<nat>)
    requires Ranged(l) && SlotOk(l, slot) && slot != Null && (v.Some? ==> v.value < |l.next|)
    ensures Ranged(Assign(l, slot, v))
  {
    forall x | 0 <= x < |l.next|
      ensures LinksInRange(Assign(l, slot, v), x)
    {
      assert LinksInRange(l, x);
    }
  }

  lemma RangedLinks(l: Links, x: nat, n: Option<nat>, slot: Slot)
    requires Ranged(l) && x < |l.next| && SlotOk(l, slot) && (n.Some? ==> n.value < |l.next|)
    ensures Ranged(l.(next := l.next[x := n])) && Ranged(l.(prev := l.prev[x := slot]))
  {
    var a, b := l.(next := l.next[x := n]), l.(prev := l.prev[x := slot]);
    forall y | 0 <= y < |a.next|
      ensures LinksInRange(a, y)
    {
      assert LinksInRange(l, y);
    }
    forall y | 0 <= y < |b.next|
      ensures LinksInRange(b, y)
    {
      assert LinksInRange(l, y);
    }
  }

  lemma RangedUnlinked(l: Links, x: nat)
    requires Ranged(l) && x < |l.next|
    ensures LinksInRange(l, x)
    ensures Unlinked(l, x).Some? ==> Ranged(Unlinked(l, x).value) && |Unlinked(l, x).value.next| == |l.next|
  {
    assert LinksInRange(l, x);
    if l.prev[x] != Null {
      if l.next[x].Some? { RangedLinks(l, l.next[x].value, None, l.prev[x]); }
      hide LinksInRange, Ranged;
      RangedAssign(Bypassed(l, x), l.prev[x], l.next[x]);
    }
  }

  lemma RangedAppended(l: Links, last: Slot, x: nat)
    requires Ranged(l) && x < |l.next| && SlotOk(l, last) && last != Null
    ensures Ranged(Appended(l, last, x)) && |Appended(l, last, x).next| == |l.next|
  {
    RangedLinks(l, x, None, last);
    RangedLinks(l.(next := l.next[x := None]), x, None, last);
    RangedAssign(l.(next := l.next[x := None], prev := l.prev[x := last]), last, Some(x));
  }

  lemma RangedPushed(l: Links, x: nat)
    requires Ranged(l) && x < |l.next| && (l.first.Some? ==> l.first.value < |l.next|)
    ensures Ranged(Pushed(l, x)) && |Pushed(l, x).next| == |l.next|
  {
    forall y | 0 <= y < |l.next|
      ensures LinksInRange(Pushed(l, x), y)
    {
      assert LinksInRange(l, y);
    }
  }

  /** LIST_HEAD with the links of its elements. */
  class List {
    var l: Links
    ghost var elems: seq<nat>

    ghost predicate Valid()
      reads this
    {
      Linked(l, elems)
    }

    /** LIST_INIT; the links in the elements are whatever they were. */
    constructor (next: seq<Option<nat>>, prev: seq<Slot>)
      requires |next| == |prev|
      ensures Valid() && elems == [] && l == Links(None, next, prev)
    {
      l := Links(None, next, prev);
      elems := [];
    }

    method InsertHead(x: nat)
      requires Valid() && x !in elems && x < |l.next|
      modifies this
      ensures Valid() && elems == Insert(old(elems), 0, x)
    {
      hide Linked;
      LinksHead(l, elems);
      ghost var l0 := l;
      l := l.(next := l.next[x := l.first]);
      if l.next[x].Some? {
        LinksAt(l0, elems, 0);
        l := l.(prev := l.prev[l.first.value := NextOf(x)]);
      }
      l := l.(first := Some(x));
      l := l.(prev := l.prev[x := First]);
      SplicedInLinked(l0, l, elems, 0, x);
      elems := Insert(elems, 0, x);
    }

    method InsertAfter(y: nat, x: nat, ghost i: nat)
      requires Valid() && i < |elems| && elems[i] == y && x !in elems && x < |l.next|
      modifies this
      ensures Valid() && elems == Insert(old(elems), i + 1, x)
    {
      hide Linked;
      LinksHead(l, elems);
      ghost var l0 := l;
      LinksAt(l0, elems, i);
      l := l.(next := l.next[x := l.next[y]]);
      if l.next[y].Some? {
        l := l.(prev := l.prev[l.next[y].value := NextOf(x)]);
      }
      l := l.(next := l.next[y := Some(x)]);
      l := l.(prev := l.prev[x := NextOf(y)]);
      SplicedInLinked(l0, l, elems, i + 1, x);
      elems := Insert(elems, i + 1, x);
    }

    method InsertBefore(y: nat, x: nat, ghost i: nat)
      requires Valid() && i < |elems| && elems[i] == y && x !in elems && x < |l.next|
      modifies this
      ensures Valid() && elems == Insert(old(elems), i, x)
    {
      hide Linked;
      LinksHead(l, elems);
      ghost var l0 := l;
      LinksAt(l0, elems, i);
      l := l.(prev := l.prev[x := l.prev[y]]);
      l := l.(next := l.next[x := Some(y)]);
      l := Assign(l, l.prev[y], Some(x));
      l := l.(prev := l.prev[y := NextOf(x)]);
      SplicedInLinked(l0, l, elems, i, x);
      elems := Insert(elems, i, x);
    }

    method Remove(x: nat, ghost i: nat)
      requires Valid() && i < |elems| && elems[i] == x
      modifies this
      ensures Valid() && elems == Delete(old(elems), i)
    {
      hide Linked;
      LinksHead(l, elems);
      ghost var l0 := l;
      LinksAt(l0, elems, i);
      if l.next[x].Some? {
        l := l.(prev := l.prev[l.next[x].value := l.prev[x]]);
      }
      l := Assign(l, l.prev[x], l.next[x]);
      SplicedOutLinked(l0, l, elems, i);
      elems := Delete(elems, i);
    }
  }

  /** TAILQ_HEAD: also the address of the last next pointer. */
  class TailQ {
    var l: Links
    var last: Slot
    ghost var elems: seq<nat>

    ghost predicate Valid()
      reads this
    {
      Queued(l, last, elems)
    }

    /** TAILQ_INIT. */
    constructor (next: seq<Option<nat>>, prev: seq<Slot>)
      requires |next| == |prev|
      ensures Valid() && elems == [] && l == Links(None, next, prev)
    {
      l := Links(None, next, prev);
      last := First;
      elems := [];
    }

    method InsertHead(x: nat)
      requires Valid() && x !in elems && x < |l.next|
      modifies this
      ensures Valid() && elems == Insert(old(elems), 0, x)
    {
      hide Linked;
      LinksHead(l, elems);
      ghost var l0 := l;
      l := l.(next := l.next[x := l.first]);
      if l.next[x].Some? {
        LinksAt(l0, elems, 0);
        l := l.(prev := l.prev[l.first.value := NextOf(x)]);
      } else {
        last := NextOf(x);
      }
      l := l.(first := Some(x));
      l := l.(prev := l.prev[x := First]);
      SplicedInLinked(l0, l, elems, 0, x);
      elems := Insert(elems, 0, x);
    }

    method InsertTail(x: nat)
      requires Valid() && x !in elems && x < |l.next|
      modifies this
      ensures Valid() && elems == old(elems) + [x] && |l.next| == old(|l.next|) && |l.prev| == |l.next|
      ensures forall y :: 0 <= y < |l.next| && y != x && old(last) != NextOf(y) ==>
                l.next[y] == old(l.next)[y] && l.prev[y] == old(l.prev)[y]
    {
      hide Linked;
      LinksHead(l, elems);
      ghost var l0 := l;
      if elems != [] { LinksAt(l0, elems, |elems| - 1); }
      l := l.(next := l.next[x := None]);
      l := l.(prev := l.prev[x := last]);
      l := Assign(l, last, Some(x));
      last := NextOf(x);
      SplicedInLinked(l0, l, elems, |elems|, x);
      assert Insert(elems, |elems|, x) == elems + [x];
      elems := elems + [x];
    }

    method InsertAfter(y: nat, x: nat, ghost i: nat)
      requires Valid() && i < |elems| && elems[i] == y && x !in elems && x < |l.next|
      modifies this
      ensures Valid() && elems == Insert(old(elems), i + 1, x)
    {
      hide Linked;
      LinksHead(l, elems);
      ghost var l0 := l;
      LinksAt(l0, elems, i);
      l := l.(next := l.next[x := l.next[y]]);
      if l.next[x].Some? {
        l := l.(prev := l.prev[l.next[x].value := NextOf(x)]);
      } else {
        last := NextOf(x);
      }
      l := l.(next := l.next[y := Some(x)]);
      l := l.(prev := l.prev[x := NextOf(y)]);
      SplicedInLinked(l0, l, elems, i + 1, x);
      elems := Insert(elems, i + 1, x);
    }

    method InsertBefore(y: nat, x: nat, ghost i: nat)
      requires Valid() && i < |elems| && elems[i] == y && x !in elems && x < |l.next|
      modifies this
      ensures Valid() && elems == Insert(old(elems), i, x)
    {
      hide Linked;
      LinksHead(l, elems);
      ghost var l0 := l;
      LinksAt(l0, elems, i);
      l := l.(prev := l.prev[x := l.prev[y]]);
      l := l.(next := l.next[x := Some(y)]);
      l := Assign(l, l.prev[y], Some(x));
      l := l.(prev := l.prev[y := NextOf(x)]);
      SplicedInLinked(l0, l, elems, i, x);
      elems := Insert(elems, i, x);
    }

    method Remove(x: nat, ghost i: nat)
      requires Valid() && i < |elems| && elems[i] == x
      modifies this
      ensures Valid() && elems == Delete(old(elems), i)
      ensures x < |l.next| == |l.prev| == old(|l.next|) && x < old(|l.prev|)
      ensures l.next[x] == old(l.next[x]) && l.prev[x] == old(l.prev[x])
      ensures LinksInRange(old(l), x) && Unlinked(old(l), x) == Some(l) && last == UnlinkedLast(old(l), old(last), x)
    {
      hide Linked;
      LinksHead(l, elems);
      ghost var l0 := l;
      LinksAt(l0, elems, i);
      var _ := Unlink(x);
      SplicedOutLinked(l0, l, elems, i);
      elems := Delete(elems, i);
    }

    /**
     The statements of TAILQ_REMOVE, on whatever links the element carries; the result is false
     where the kernel panics. For an element that is not in the queue, `elems` stays, and the
     exact condition says whether it is still right.
     */
    method Unlink(x: nat) returns (ok: bool)
      requires LinksInRange(l, x)
      modifies this`l, this`last
      ensures last == UnlinkedLast(old(l), old(last), x)
      ensures ok <==> old(l.prev[x]) != Null
      ensures if ok then Unlinked(old(l), x) == Some(l) else l == Bypassed(old(l), x)
      ensures old(Valid()) && x !in elems ==> (ok && Valid() <==> WritesNothingNew(old(l), old(last), elems, x))
    {
      if Queued(l, last, elems) && x !in elems { StaleUnlinkExact(l, last, elems, x); }
      if l.next[x].Some? {
        l := l.(prev := l.prev[l.next[x].value := l.prev[x]]);
      } else {
        last := l.prev[x];
      }
      if l.prev[x] == Null {
        return false;
      }
      l := Assign(l, l.prev[x], l.next[x]);
      return true;
    }
  }

  /** Moving the head to the tail, as schedule does with a runnable current env. */
  method Rotate(q: TailQ)
    requires q.Valid() && q.elems != []
    modifies q
    ensures q.Valid() && q.elems == old(q.elems)[1..] + [old(q.elems)[0]]
  {
    LinksAt(q.l, q.elems, 0);
    var e := q.l.first.value;
    q.Remove(e, 0);
    assert q.elems == old(q.elems)[1..];
    q.InsertTail(e);
  }

  /** TAILQ_REMOVE twice in a row, as destroying an env that has just blocked. */
  method RemoveTwice(q: TailQ, x: nat, ghost i: nat)
    requires q.Valid() && i < |q.elems| && q.elems[i] == x && LinksInRange(q.l, x)
    modifies q
    ensures q.Valid() && q.elems == Delete(old(q.elems), i)
  {
    UnlinkQueued(q.l, q.last, q.elems, i);
    SecondUnlinkHarmless(q.l, q.last, q.elems, i);
    q.Remove(x, i);
    var _ := q.Unlink(x);
  }

  /**
   The harm: once another element has been queued, the links of an element that was removed
   are stale, and removing it again empties the queue of the other.
   */
  method StaleRemoveLosesQueue(q: TailQ, a: nat, b: nat)
    requires q.Valid() && q.elems == [a] && a != b && b < |q.l.next|
    modifies q
    ensures q.elems == [b] && q.l.first == None && !q.Valid()
  {
    LinksAt(q.l, q.elems, 0);
    q.Remove(a, 0);
    assert q.elems == [] && q.l.next[a] == None && q.l.prev[a] == First;
    q.InsertTail(b);
    var _ := q.Unlink(a);
    assert q.l.first != ItemAt(q.elems, 0);
  }
}
