/**
 The intrusive, circular, doubly linked lists in which the BSS table keeps its entries. Links are
 maps from addresses; an address without a link is a null pointer or freed memory. The operations
 change links one at a time, and are proved to do what the sequences of BssModel say.
 */
module DlList {
  import opened BssModel
  import opened BssInvariant

  type Links = map<Ptr, Ptr>

  /** The address after position i, going round. */
  function After(c: seq<Ptr>, i: nat): Ptr
    requires i < |c|
  {
    if i + 1 < |c| then c[i + 1] else c[0]
  }

  ghost predicate LinkedAt(next: Links, prev: Links, c: seq<Ptr>, i: nat)
    requires i < |c|
  {
    c[i] in next && c[i] in prev && next[c[i]] == After(c, i) && After(c, i) in prev && prev[After(c, i)] == c[i]
  }

  /** The links go round c in both directions. */
  ghost predicate Ring(next: Links, prev: Links, c: seq<Ptr>) {
    && |c| > 0 && NoDup(c)
    && forall i {:trigger c[i]} {:trigger LinkedAt(next, prev, c, i)} | 0 <= i < |c| :: LinkedAt(next, prev, c, i)
  }

  lemma RingBefore(next: Links, prev: Links, c: seq<Ptr>, i: nat)
    requires Ring(next, prev, c) && i < |c|
    ensures c[i] in prev && prev[c[i]] == if i == 0 then c[|c| - 1] else c[i - 1]
  {
    var k := if i == 0 then |c| - 1 else i - 1;
    assert LinkedAt(next, prev, c, k) && After(c, k) == c[i];
  }

  lemma RingLinks(next: Links, prev: Links, c: seq<Ptr>, i: nat)
    requires Ring(next, prev, c) && i < |c|
    ensures c[i] in next && next[c[i]] == After(c, i) && c[i] in prev && After(c, i) in prev && After(c, i) in next
  {
    assert LinkedAt(next, prev, c, i);
    assert LinkedAt(next, prev, c, if i + 1 < |c| then i + 1 else 0);
  }

  lemma InsertedAt(c: seq<Ptr>, i: nat, x: Ptr, k: nat)
    requires i < |c| && k <= |c|
    ensures
      var d := c[..i + 1] + [x] + c[i + 1..];
      |d| == |c| + 1 && d[k] == if k <= i then c[k] else if k == i + 1 then x else c[k - 1]
  {
  }

  lemma InsertedNoDup(c: seq<Ptr>, i: nat, x: Ptr)
    requires NoDup(c) && i < |c| && x !in c
    ensures NoDup(c[..i + 1] + [x] + c[i + 1..])
  {
    var d := c[..i + 1] + [x] + c[i + 1..];
    forall k, l | 0 <= k < l < |d|
      ensures d[k] != d[l]
    {
      InsertedAt(c, i, x, k);
      InsertedAt(c, i, x, l);
    }
  }

  lemma InsertedLinkAt(next: Links, prev: Links, c: seq<Ptr>, i: nat, x: Ptr, k: nat)
    requires Ring(next, prev, c) && i < |c| && x !in c && k <= |c|
    ensures
      var after := After(c, i);
      LinkedAt(next[x := after][c[i] := x], prev[x := c[i]][after := x], c[..i + 1] + [x] + c[i + 1..], k)
  {
    var d := c[..i + 1] + [x] + c[i + 1..];
    InsertedAt(c, i, x, k);
    InsertedAt(c, i, x, if k < |c| then k + 1 else 0);
    var k' := if k <= i then k else k - 1;
    assert LinkedAt(next, prev, c, i) && LinkedAt(next, prev, c, k');
    assert After(d, k) == if k == i then x else After(c, k');
  }

  lemma InsertedRing(next: Links, prev: Links, c: seq<Ptr>, i: nat, x: Ptr)
    requires Ring(next, prev, c) && i < |c| && x !in c
    ensures
      var after := After(c, i);
      Ring(next[x := after][c[i] := x], prev[x := c[i]][after := x], c[..i + 1] + [x] + c[i + 1..])
  {
    hide LinkedAt, NoDup;
    var after := After(c, i);
    var next', prev', d := next[x := after][c[i] := x], prev[x := c[i]][after := x], c[..i + 1] + [x] + c[i + 1..];
    InsertedNoDup(c, i, x);
    forall k | 0 <= k < |d|
      ensures LinkedAt(next', prev', d, k)
    {
      InsertedLinkAt(next, prev, c, i, x, k);
    }
  }

  lemma RemovedLinkAt(next: Links, prev: Links, c: seq<Ptr>, i: nat, k: nat)
    requires Ring(next, prev, c) && 0 < i < |c| && k + 1 < |c|
    ensures
      var before, after := c[i - 1], After(c, i);
      LinkedAt(next[before := after] - {c[i]}, prev[after := before] - {c[i]}, c[..i] + c[i + 1..], k)
  {
    var d, k' := c[..i] + c[i + 1..], if k < i then k else k + 1;
    assert LinkedAt(next, prev, c, k') && LinkedAt(next, prev, c, i) && LinkedAt(next, prev, c, i - 1);
    assert d[k] == c[k'] != c[i];
    if k == i - 1 {
      assert After(d, k) == After(c, i);
    } else {
      assert After(d, k) == After(c, k') != c[i];
      assert After(c, k') != After(c, i);
    }
  }

  lemma DroppedNoDup(c: seq<Ptr>, i: nat)
    requires NoDup(c) && i < |c|
    ensures NoDup(c[..i] + c[i + 1..])
  {
    var d := c[..i] + c[i + 1..];
    forall x, y | 0 <= x < y < |d|
      ensures d[x] != d[y]
    {
      GapIndex(c, i, x);
      GapIndex(c, i, y);
    }
  }

  lemma RingWithoutItem(next: Links, prev: Links, c: seq<Ptr>, i: nat)
    requires Ring(next, prev, c) && 0 < i < |c|
    ensures
      var before, after := c[i - 1], After(c, i);
      Ring(next[before := after] - {c[i]}, prev[after := before] - {c[i]}, c[..i] + c[i + 1..])
  {
    hide LinkedAt;
    var before, after, d := c[i - 1], After(c, i), c[..i] + c[i + 1..];
    var next', prev' := next[before := after] - {c[i]}, prev[after := before] - {c[i]};
    DroppedNoDup(c, i);
    forall k | 0 <= k < |d|
      ensures LinkedAt(next', prev', d, k)
    {
      RemovedLinkAt(next, prev, c, i, k);
    }
  }

  /** Dropping a node from the ring is dropping it from the list. */
  lemma DroppedIsWithout(head: Ptr, s: seq<Ptr>, item: Ptr)
    requires item in s
    ensures
      var i, c := IndexOf(s, item), [head] + s;
      i < |s| && c[i + 1] == item && c[..i + 1] + c[i + 2..] == [head] + Without(s, item)
  {
    var i := IndexOf(s, item);
    assert i < |s|;
    ConsSlices(head, s, i);
  }

  lemma ConsSlices(head: Ptr, s: seq<Ptr>, i: nat)
    requires i < |s|
    ensures
      var c := [head] + s;
      c[i + 1] == s[i] && c[..i + 1] + c[i + 2..] == [head] + (s[..i] + s[i + 1..])
  {
    var c := [head] + s;
    assert c[..i + 1] == [head] + s[..i];
    assert c[i + 2..] == s[i + 1..];
  }

  lemma RemovedRing(next: Links, prev: Links, head: Ptr, s: seq<Ptr>, item: Ptr)
    requires Ring(next, prev, [head] + s) && item in s
    ensures item in next && item in prev && prev[item] in next && next[item] in prev
    ensures prev[item] == ([head] + s)[IndexOf(s, item)]
    ensures Ring(next[prev[item] := next[item]] - {item}, prev[next[item] := prev[item]] - {item},
                 [head] + Without(s, item))
  {
    hide Ring, IndexOf, Without;
    var i, c := IndexOf(s, item), [head] + s;
    DroppedIsWithout(head, s, item);
    RingWithoutItem(next, prev, c, i + 1);
    RingLinks(next, prev, c, i + 1);
    RingLinks(next, prev, c, i);
    RingBefore(next, prev, c, i + 1);
  }

  /** Where a node was dropped, another in its place makes the replaced list. */
  lemma PutBackIsReplaced(s: seq<Ptr>, p: Ptr, q: Ptr)
    requires p in s
    ensures
      var i, t := IndexOf(s, p), Without(s, p);
      i <= |t| < |s| && t[..i] + [q] + t[i..] == Replaced(s, p, q) && t[..i] == s[..i]
  {
    var i, t := IndexOf(s, p), Without(s, p);
    assert i < |s|;
    SplitAtGap(s[..i], s[i + 1..]);
    PutAt(s, i, q);
  }

  lemma SplitAtGap(a: seq<Ptr>, b: seq<Ptr>)
    ensures (a + b)[..|a|] == a && (a + b)[|a|..] == b
  {
  }

  lemma PutAt(s: seq<Ptr>, i: nat, q: Ptr)
    requires i < |s|
    ensures s[..i] + [q] + s[i + 1..] == s[i := q]
  {
  }

  // ---- Deleting while iterating ----

  /** What the body of a loop over a list does with a node: leave it, delete and free it, or end the loop. */
  datatype Visit = Keep | Drop | Stop

  /** One more node visited. */
  function Visited(kept: seq<Ptr>, item: Ptr, visit: Ptr -> Visit): seq<Ptr> {
    if visit(item) == Drop then kept else kept + [item]
  }

  /** The nodes of s that are not dropped, in order. */
  function Kept(s: seq<Ptr>, visit: Ptr -> Visit): seq<Ptr> {
    if |s| == 0 then [] else Visited(Kept(s[..|s| - 1], visit), s[|s| - 1], visit)
  }

  /** The loop has met the front of s and kept k of it; rest is still to come. */
  ghost predicate Progress(s: seq<Ptr>, met: seq<Ptr>, k: seq<Ptr>, rest: seq<Ptr>, visit: Ptr -> Visit) {
    s == met + rest && k == Kept(met, visit) && forall p | p in met :: visit(p) != Stop
  }

  lemma ProgressStep(s: seq<Ptr>, met: seq<Ptr>, k: seq<Ptr>, rest: seq<Ptr>, visit: Ptr -> Visit)
    requires Progress(s, met, k, rest, visit) && rest != [] && visit(rest[0]) != Stop
    ensures Progress(s, met + [rest[0]], Visited(k, rest[0], visit), rest[1..], visit)
  {
    var met' := met + [rest[0]];
    assert met'[..|met|] == met;
    assert met + rest == met' + rest[1..];
  }

  lemma {:induction false} ProgressEnds(s: seq<Ptr>, met: seq<Ptr>, k: seq<Ptr>, rest: seq<Ptr>, visit: Ptr -> Visit)
    requires Progress(s, met, k, rest, visit)
    ensures met <= s && rest == s[|met|..] && k == Kept(met, visit) && forall p | p in met :: visit(p) != Stop
    ensures |met| < |s| ==> rest != [] && rest[0] == s[|met|]
  {
  }

  lemma {:induction false} ProgressStarts(s: seq<Ptr>, visit: Ptr -> Visit)
    ensures Progress(s, [], [], s, visit)
  {
  }

  lemma WithoutMiddle(head: Ptr, next: Links, prev: Links, k: seq<Ptr>, x: Ptr, t: seq<Ptr>)
    requires Ring(next, prev, [head] + (k + ([x] + t)))
    ensures Without(k + ([x] + t), x) == k + t
  {
    var s := k + ([x] + t);
    TailNoDup(head, s);
    assert s[|k|] == x;
    assert IndexOf(s, x) == |k|;
    assert s[..|k|] == k && s[|k| + 1..] == t;
  }

  lemma FirstNode(next: Links, prev: Links, head: Ptr, s: seq<Ptr>)
    requires Ring(next, prev, [head] + s)
    ensures head in next && next[head] in next && next[head] == Current(head, s)
  {
    RingLinks(next, prev, [head] + s, 0);
    HeadIsLast(head, s, 0);
  }

  /** The head when the loop is through, else the node to visit. */
  function Current(head: Ptr, rest: seq<Ptr>): Ptr {
    if rest == [] then head else rest[0]
  }

  lemma CurrentIsLinked(next: Links, prev: Links, head: Ptr, k: seq<Ptr>, rest: seq<Ptr>)
    requires Ring(next, prev, [head] + (k + rest))
    ensures Current(head, rest) in next
    ensures rest != [] ==> next[rest[0]] == Current(head, rest[1..]) && rest[0] in k + rest
    ensures Current(head, rest) == head <==> rest == []
  {
    var c := [head] + (k + rest);
    if rest == [] {
      RingLinks(next, prev, c, 0);
    } else {
      assert c[|k| + 1] == rest[0] == (k + rest)[|k|];
      RingLinks(next, prev, c, |k| + 1);
      HeadIsLast(head, k + rest, |k| + 1);
      TailNoDup(head, k + rest);
    }
  }

  /** A list head and the nodes behind it. */
  class List {
    const head: Ptr
    var next: Links
    var prev: Links

    ghost predicate Holds(s: seq<Ptr>)
      reads this
    {
      Ring(next, prev, [head] + s)
    }

    /** dl_list_init */
    constructor (head: Ptr)
      ensures this.head == head && Holds([])
    {
      this.head := head;
      next, prev := map[head := head], map[head := head];
    }

    /** dl_list_add: puts an item behind a node of the list. */
    method Add(at: Ptr, item: Ptr, ghost s: seq<Ptr>, ghost i: nat)
      requires Holds(s) && i <= |s| && ([head] + s)[i] == at && item !in [head] + s
      modifies this`next, this`prev
      ensures Holds(s[..i] + [item] + s[i..])
    {
      hide Ring;
      ghost var c := [head] + s;
      RingLinks(next, prev, c, i);
      InsertedRing(next, prev, c, i, item);
      assert c[..i + 1] + [item] + c[i + 1..] == [head] + (s[..i] + [item] + s[i..]);
      var after := next[at];
      next := next[item := after];
      prev := prev[item := at];
      prev := prev[after := item];
      next := next[at := item];
    }

    /** dl_list_add_tail */
    method AddTail(item: Ptr, ghost s: seq<Ptr>)
      requires Holds(s) && item !in [head] + s
      modifies this`next, this`prev
      ensures Holds(s + [item])
    {
      RingBefore(next, prev, [head] + s, 0);
      Add(prev[head], item, s, |s|);
      assert s[..|s|] + [item] + s[|s|..] == s + [item];
    }

    /** dl_list_del: the item, and no other node, loses its links. */
    method Del(item: Ptr, ghost s: seq<Ptr>)
      requires Holds(s) && item in s
      modifies this`next, this`prev
      ensures Holds(Without(s, item))
      ensures next.Keys == old(next).Keys - {item} && prev.Keys == old(prev).Keys - {item}
    {
      hide Ring, Without;
      RemovedRing(next, prev, head, s, item);
      var after, before := next[item], prev[item];
      prev := prev[after := before];
      next := next[before := after];
      next := next - {item};
      prev := prev - {item};
    }

    /**
     A growing entry in the id list: unlinked before its memory is reallocated, and linked again
     behind the node that was in front of it, at its old or its new address.
     */
    method Relocate(p: Ptr, q: Ptr, ghost s: seq<Ptr>)
      requires Holds(s) && p in s && (q == p || q !in [head] + s)
      modifies this`next, this`prev
      ensures Holds(Replaced(s, p, q))
    {
      hide Ring, IndexOf, Without, Replaced;
      ghost var i := IndexOf(s, p);
      ghost var t := Without(s, p);
      RemovedRing(next, prev, head, s, p);
      OthersStay(s, p);
      PutBackIsReplaced(s, p, q);
      var before := prev[p];
      assert ([head] + t)[..i + 1] == [head] + t[..i] == [head] + s[..i] == ([head] + s)[..i + 1];
      assert ([head] + t)[i] == ([head] + s)[i] == before;
      Del(p, s);
      Add(before, q, t, i);
    }

    lemma OthersStay(s: seq<Ptr>, p: Ptr)
      requires Ring(next, prev, [head] + s) && p in s
      ensures p !in [head] + Without(s, p) && forall x | x in Without(s, p) :: x in s
    {
      TailNoDup(head, s);
      WithoutFacts(s, p);
    }

    /** dl_list_for_each: the nodes met when following the links from the head. */
    method Elements(ghost s: seq<Ptr>) returns (r: seq<Ptr>)
      requires Holds(s)
      ensures r == s
    {
      r := [];
      ghost var c := [head] + s;
      RingLinks(next, prev, c, 0);
      var item := next[head];
      while item != head
        invariant |r| <= |s| && r == s[..|r|]
        invariant item == After(c, |r|)
        decreases |s| - |r|
      {
        HeadIsLast(head, s, |r|);
        RingLinks(next, prev, c, |r| + 1);
        r := r + [item];
        item := next[item];
      }
      HeadIsLast(head, s, |r|);
    }

    /**
     dl_list_for_each_safe with a body that may delete and free the current node: the next one was
     saved before and is still linked, so the loop meets every node of the old list once, in order,
     up to the first that ends it. Reading a link of a deleted node would be an error here.
     */
    method ForEachSafe(visit: Ptr -> Visit, ghost s: seq<Ptr>) returns (met: seq<Ptr>)
      requires Holds(s)
      modifies `next, `prev
      ensures met <= s && (forall p | p in met :: visit(p) != Stop)
      ensures |met| < |s| ==> visit(s[|met|]) == Stop
      ensures Holds(Kept(met, visit) + s[|met|..])
      ensures forall p | p in met && visit(p) == Drop :: p !in next && p !in prev
    {
      hide Ring, Progress, Kept;
      met := [];
      ghost var k, rest := [], s;
      ProgressStarts(s, visit);
      assert k + rest == s;
      FirstNode(next, prev, head, s);
      var item := next[head];
      var n := next[item];
      while item != head && visit(item) != Stop
        invariant Progress(s, met, k, rest, visit) && Holds(k + rest)
        invariant item == Current(head, rest) && item in next && n == next[item]
        invariant forall p | p in met && visit(p) == Drop :: p !in next && p !in prev
        decreases |rest|
      {
        CurrentIsLinked(next, prev, head, k, rest);
        ProgressStep(s, met, k, rest, visit);
        VisitNode(item, visit, k, rest);
        met, rest, k := met + [item], rest[1..], Visited(k, item, visit);
        CurrentIsLinked(next, prev, head, k, rest);
        item := n;
        n := next[n];
      }
      CurrentIsLinked(next, prev, head, k, rest);
      ProgressEnds(s, met, k, rest, visit);
    }

    /** Body of such a loop for a node that does not end it. */
    method VisitNode(item: Ptr, visit: Ptr -> Visit, ghost k: seq<Ptr>, ghost rest: seq<Ptr>)
      requires rest != [] && item == rest[0] && Holds(k + rest)
      modifies `next, `prev
      ensures Holds(Visited(k, item, visit) + rest[1..])
      ensures next.Keys == old(next).Keys - (if visit(item) == Drop then {item} else {})
      ensures prev.Keys == old(prev).Keys - (if visit(item) == Drop then {item} else {})
    {
      hide Ring, Without;
      assert rest == [item] + rest[1..];
      if visit(item) == Drop {
        WithoutMiddle(head, next, prev, k, item, rest[1..]);
        Del(item, k + rest);
      } else {
        assert (k + [item]) + rest[1..] == k + rest;
      }
    }
  }

  lemma TailNoDup(head: Ptr, s: seq<Ptr>)
    requires NoDup([head] + s)
    ensures NoDup(s) && head !in s
  {
    var c := [head] + s;
    assert forall i | 0 <= i < |s| :: s[i] == c[i + 1];
    assert c[0] == head;
  }

  /** Following a link leads back to the head only from the last node. */
  lemma HeadIsLast(head: Ptr, s: seq<Ptr>, i: nat)
    requires NoDup([head] + s) && i <= |s|
    ensures After([head] + s, i) == head <==> i == |s|
    ensures i < |s| ==> After([head] + s, i) == s[i]
  {
    TailNoDup(head, s);
  }

  // ---- Why the entry is unlinked first ----

  /** Links after moving the memory of p, with its links, to q. */
  function MovedMemory(links: Links, p: Ptr, q: Ptr): Links
    requires p in links
  {
    (links - {p})[q := links[p]]
  }

  lemma {:induction false} SamePrefix(next: Links, prev: Links, c: seq<Ptr>, next': Links, prev': Links, d: seq<Ptr>,
                                      i: nat, k: nat)
    requires Ring(next, prev, c) && Ring(next', prev', d) && c[0] == d[0] && k <= i < |c|
    requires forall x | 0 <= x < i :: c[x] in next' && next'[c[x]] == next[c[x]]
    ensures k < |d| && d[k] == c[k]
  {
    if k > 0 {
      SamePrefix(next, prev, c, next', prev', d, i, k - 1);
      assert next[c[k - 1]] == After(c, k - 1) == c[k];
      assert next'[d[k - 1]] == After(d, k - 1);
    }
  }

  /** If the memory of a linked node moved, the links from the head would form no list at all. */
  lemma MovingLinkedNodeBreaksList(next: Links, prev: Links, head: Ptr, s: seq<Ptr>, p: Ptr, q: Ptr, r: seq<Ptr>)
    requires Ring(next, prev, [head] + s) && p in s && q !in [head] + s
    ensures p in next && p in prev && !Ring(MovedMemory(next, p, q), MovedMemory(prev, p, q), [head] + r)
  {
    var c, d := [head] + s, [head] + r;
    var i :| 0 <= i < |s| && s[i] == p;
    assert next[c[i]] == After(c, i) == p;
    var next', prev' := MovedMemory(next, p, q), MovedMemory(prev, p, q);
    if Ring(next', prev', d) {
      SamePrefix(next, prev, c, next', prev', d, i, i);
      assert false;
    }
  }
}
