/**
  The free lists of the buddy allocator: doubly linked lists threaded through
  the first two words of the free blocks themselves. `next[f]` and `prev[f]`
  are the first and second word of frame f, and `lists[o]` is the sequence of
  frames on `free_area[o]`.
 */
module FreeLists {
  import opened Counting
  import opened Layout

  type Lists = seq<seq<nat>>

  function LinkTo(l: seq<nat>, k: nat): nat {
    if k < |l| then FrameToAddr(l[k]) else NULL
  }

  function LinkBack(l: seq<nat>, k: nat): nat
    requires k < |l|
  {
    if k == 0 then NULL else FrameToAddr(l[k - 1])
  }

  ghost predicate IsLink(p: int) {
    p == NULL || exists f: nat :: f < FRAME_COUNT && p == FrameToAddr(f)
  }

  ghost predicate NodeAt(next: seq<int>, prev: seq<int>, l: seq<nat>, k: nat)
    requires |next| == |prev| == FRAME_COUNT && k < |l|
  {
    l[k] < FRAME_COUNT && next[l[k]] == LinkTo(l, k + 1) && prev[l[k]] == LinkBack(l, k)
  }

  // `head` begins a doubly linked list of exactly the frames l, in that order.
  ghost predicate ListAt(next: seq<int>, prev: seq<int>, head: int, l: seq<nat>)
    requires |next| == |prev| == FRAME_COUNT
  {
    && head == LinkTo(l, 0)
    && Distinct(l)
    && forall k | 0 <= k < |l| :: NodeAt(next, prev, l, k)
  }

  ghost predicate Disjoint(l: seq<nat>, n: seq<nat>) {
    forall f | f in l :: f !in n
  }

  // No frame is on two lists.
  ghost predicate NoSharing(lists: Lists) {
    forall o, p | 0 <= o < p < |lists| :: Disjoint(lists[o], lists[p])
  }

  ghost predicate Linked(next: seq<int>, prev: seq<int>, area: seq<int>, lists: Lists) {
    && |next| == |prev| == FRAME_COUNT
    && |area| == |lists|
    && (forall o | 0 <= o < |lists| :: ListAt(next, prev, area[o], lists[o]))
    && NoSharing(lists)
  }

  ghost predicate OnSome(lists: Lists, f: nat) {
    exists o :: 0 <= o < |lists| && f in lists[o]
  }

  // Memory differs only in links of frames on the lists.
  ghost predicate OnlyLinks(before: seq<int>, after: seq<int>, lists: Lists) {
    && |before| == |after|
    && forall f | 0 <= f < |before| :: before[f] != after[f] ==> OnSome(lists, f)
  }

  // ---- adding at the front ----

  function Pushed(lists: Lists, o: nat, x: nat): Lists
    requires o < |lists|
  {
    lists[o := [x] + lists[o]]
  }

  function AddNext(next: seq<int>, head: int, x: nat): seq<int>
    requires x < |next|
  {
    next[x := head]
  }

  function AddPrev(prev: seq<int>, l: seq<nat>, x: nat): seq<int>
    requires x < |prev| && (l != [] ==> l[0] < |prev|)
  {
    if l == [] then prev[x := NULL] else prev[x := NULL][l[0] := FrameToAddr(x)]
  }

  lemma AddAtFront(next: seq<int>, prev: seq<int>, head: int, l: seq<nat>, x: nat)
    requires |next| == |prev| == FRAME_COUNT
    requires ListAt(next, prev, head, l) && x < FRAME_COUNT && x !in l
    requires l != [] ==> l[0] < FRAME_COUNT
    ensures ListAt(AddNext(next, head, x), AddPrev(prev, l, x), FrameToAddr(x), [x] + l)
  {
    var n := [x] + l;
    var next', prev' := AddNext(next, head, x), AddPrev(prev, l, x);
    forall k | 0 <= k < |n| ensures NodeAt(next', prev', n, k) {
      if k > 0 { assert NodeAt(next, prev, l, k - 1) && n[k] == l[k - 1]; }
    }
  }

  lemma AddKeepsOther(next: seq<int>, prev: seq<int>, head: int, l: seq<nat>, x: nat, head2: int, l2: seq<nat>)
    requires |next| == |prev| == FRAME_COUNT
    requires x < FRAME_COUNT && x !in l2 && (l != [] ==> l[0] < FRAME_COUNT && l[0] !in l2)
    requires ListAt(next, prev, head2, l2)
    ensures ListAt(AddNext(next, head, x), AddPrev(prev, l, x), head2, l2)
  {
    forall k | 0 <= k < |l2| ensures NodeAt(AddNext(next, head, x), AddPrev(prev, l, x), l2, k) {
      assert NodeAt(next, prev, l2, k);
    }
  }

  lemma PushedApart(lists: Lists, o: nat, x: nat)
    requires NoSharing(lists) && o < |lists| && !OnSome(lists, x)
    ensures NoSharing(Pushed(lists, o, x))
  {
    var n := Pushed(lists, o, x);
    forall p, q | 0 <= p < q < |n| ensures Disjoint(n[p], n[q]) {
      assert Disjoint(lists[p], lists[q]);
      assert x !in lists[p] && x !in lists[q];
    }
  }

  lemma FirstIsFrame(next: seq<int>, prev: seq<int>, area: seq<int>, lists: Lists, o: nat)
    requires Linked(next, prev, area, lists) && o < |lists| && lists[o] != []
    ensures lists[o][0] < FRAME_COUNT && area[o] == FrameToAddr(lists[o][0])
  {
    assert ListAt(next, prev, area[o], lists[o]);
    assert NodeAt(next, prev, lists[o], 0);
  }

  lemma AddLinked(next: seq<int>, prev: seq<int>, area: seq<int>, lists: Lists, o: nat, x: nat)
    requires Linked(next, prev, area, lists) && o < |lists| && x < FRAME_COUNT && !OnSome(lists, x)
    ensures lists[o] != [] ==> lists[o][0] < FRAME_COUNT
    ensures Linked(AddNext(next, area[o], x), AddPrev(prev, lists[o], x), area[o := FrameToAddr(x)], Pushed(lists, o,
                   x))
    ensures OnlyLinks(next, AddNext(next, area[o], x), Pushed(lists, o, x))
    ensures OnlyLinks(prev, AddPrev(prev, lists[o], x), Pushed(lists, o, x))
  {
    var l := lists[o];
    var n := Pushed(lists, o, x);
    if l != [] { FirstIsFrame(next, prev, area, lists, o); }
    var next', prev' := AddNext(next, area[o], x), AddPrev(prev, l, x);
    forall p | 0 <= p < |n| ensures ListAt(next', prev', area[o := FrameToAddr(x)][p], n[p]) {
      assert ListAt(next, prev, area[p], lists[p]);
      assert x !in lists[p];
      if p != o {
        assert p < o ==> Disjoint(lists[p], l);
        assert o < p ==> Disjoint(l, lists[p]);
        AddKeepsOther(next, prev, area[o], l, x, area[p], lists[p]);
      } else {
        AddAtFront(next, prev, area[o], l, x);
      }
    }
    PushedApart(lists, o, x);
    assert x in n[o] && (l != [] ==> l[0] in n[o]);
  }

  // ---- removing anywhere ----

  function Without(l: seq<nat>, k: nat): seq<nat>
    requires k < |l|
  {
    l[..k] + l[k + 1..]
  }

  ghost predicate AllFrames(l: seq<nat>) {
    forall i | 0 <= i < |l| :: l[i] < FRAME_COUNT
  }

  function RemoveNext(next: seq<int>, l: seq<nat>, k: nat): seq<int>
    requires |next| == FRAME_COUNT && k < |l| && AllFrames(l)
  {
    if k == 0 then next else next[l[k - 1] := next[l[k]]]
  }

  function RemovePrev(prev: seq<int>, l: seq<nat>, k: nat): seq<int>
    requires |prev| == FRAME_COUNT && k < |l| && AllFrames(l)
  {
    if k + 1 == |l| then prev else prev[l[k + 1] := prev[l[k]]]
  }

  function RemoveHead(next: seq<int>, head: int, l: seq<nat>, k: nat): int
    requires |next| == FRAME_COUNT && k < |l| && AllFrames(l)
  {
    if k == 0 then next[l[0]] else head
  }

  lemma WithoutDistinct(l: seq<nat>, k: nat)
    requires Distinct(l) && k < |l|
    ensures Distinct(Without(l, k)) && l[k] !in Without(l, k)
    ensures forall f :: f in l <==> f in Without(l, k) || f == l[k]
  {
    var n := Without(l, k);
    assert forall i | 0 <= i < |n| :: n[i] == l[if i < k then i else i + 1];
    assert forall i | 0 <= i < |l| && i != k :: l[i] == n[if i < k then i else i - 1];
  }

  lemma ListFrames(next: seq<int>, prev: seq<int>, head: int, l: seq<nat>)
    requires |next| == |prev| == FRAME_COUNT && ListAt(next, prev, head, l)
    ensures AllFrames(l)
  {
    forall k | 0 <= k < |l| ensures l[k] < FRAME_COUNT { assert NodeAt(next, prev, l, k); }
  }

  lemma RemoveAt(next: seq<int>, prev: seq<int>, head: int, l: seq<nat>, k: nat)
    requires |next| == |prev| == FRAME_COUNT && AllFrames(l)
    requires ListAt(next, prev, head, l) && k < |l|
    ensures ListAt(RemoveNext(next, l, k), RemovePrev(prev, l, k), RemoveHead(next, head, l, k), Without(l, k))
  {
    var n := Without(l, k);
    var next', prev' := RemoveNext(next, l, k), RemovePrev(prev, l, k);
    assert NodeAt(next, prev, l, k);
    WithoutDistinct(l, k);
    forall i | 0 <= i < |n| ensures NodeAt(next', prev', n, i) {
      var j := if i < k then i else i + 1;
      assert n[i] == l[j] && NodeAt(next, prev, l, j);
      assert i + 1 < |n| ==> n[i + 1] == l[if i + 1 < k then i + 1 else i + 2];
      assert i > 0 ==> n[i - 1] == l[if i - 1 < k then i - 1 else i];
    }
  }

  lemma RemoveKeepsOther(next: seq<int>, prev: seq<int>, l: seq<nat>, k: nat, head2: int, l2: seq<nat>)
    requires |next| == |prev| == FRAME_COUNT
    requires k < |l| && AllFrames(l) && Disjoint(l, l2)
    requires ListAt(next, prev, head2, l2)
    ensures ListAt(RemoveNext(next, l, k), RemovePrev(prev, l, k), head2, l2)
  {
    forall i | 0 <= i < |l2| ensures NodeAt(RemoveNext(next, l, k), RemovePrev(prev, l, k), l2, i) {
      assert NodeAt(next, prev, l2, i);
      assert l2[i] !in l;
    }
  }

  lemma RemoveLinked(next: seq<int>, prev: seq<int>, area: seq<int>, lists: Lists, o: nat, k: nat)
    requires Linked(next, prev, area, lists) && o < |lists| && k < |lists[o]|
    ensures AllFrames(lists[o])
    ensures Linked(RemoveNext(next, lists[o], k), RemovePrev(prev, lists[o], k),
                   area[o := RemoveHead(next, area[o], lists[o], k)], lists[o := Without(lists[o], k)])
    ensures !OnSome(lists[o := Without(lists[o], k)], lists[o][k])
  {
    var l := lists[o];
    assert ListAt(next, prev, area[o], l);
    ListFrames(next, prev, area[o], l);
    var n := lists[o := Without(l, k)];
    var area' := area[o := RemoveHead(next, area[o], l, k)];
    var next', prev' := RemoveNext(next, l, k), RemovePrev(prev, l, k);
    WithoutDistinct(l, k);
    forall p | 0 <= p < |lists| ensures ListAt(next', prev', area'[p], n[p]) && l[k] !in n[p] {
      assert ListAt(next, prev, area[p], lists[p]);
      if p != o {
        assert p < o ==> Disjoint(lists[p], l);
        assert o < p ==> Disjoint(l, lists[p]);
        RemoveKeepsOther(next, prev, l, k, area[p], lists[p]);
      } else {
        RemoveAt(next, prev, area[o], l, k);
      }
    }
    forall p, q | 0 <= p < q < |n| ensures Disjoint(n[p], n[q]) {
      assert Disjoint(lists[p], lists[q]);
    }
  }

  lemma RemoveOnlyLinks(next: seq<int>, prev: seq<int>, lists: Lists, o: nat, k: nat)
    requires |next| == |prev| == FRAME_COUNT && o < |lists| && k < |lists[o]| && AllFrames(lists[o])
    ensures OnlyLinks(next, RemoveNext(next, lists[o], k), lists[o := Without(lists[o], k)])
    ensures OnlyLinks(prev, RemovePrev(prev, lists[o], k), lists[o := Without(lists[o], k)])
  {
    var l := lists[o];
    var n := lists[o := Without(l, k)];
    if k > 0 { assert n[o][k - 1] == l[k - 1]; assert OnSome(n, l[k - 1]); }
    if k + 1 < |l| { assert n[o][k] == l[k + 1]; assert OnSome(n, l[k + 1]); }
  }

  // What the two links of a listed frame say.
  lemma Neighbours(next: seq<int>, prev: seq<int>, head: int, l: seq<nat>, k: nat)
    requires |next| == |prev| == FRAME_COUNT && ListAt(next, prev, head, l) && k < |l|
    ensures AllFrames(l)
    ensures if k == 0 then prev[l[k]] == NULL
            else prev[l[k]] > 0 && AddrToFrame(prev[l[k]]) == l[k - 1] && l[k - 1] != l[k]
    ensures if k + 1 == |l| then next[l[k]] == NULL
            else next[l[k]] > 0 && AddrToFrame(next[l[k]]) == l[k + 1] && l[k + 1] != l[k]
  {
    ListFrames(next, prev, head, l);
    assert NodeAt(next, prev, l, k);
    if k > 0 { AddrRoundTrip(l[k - 1]); }
    if k + 1 < |l| { AddrRoundTrip(l[k + 1]); }
  }

  // A store into a frame that is on no list.
  lemma StoreElsewhere(next: seq<int>, prev: seq<int>, area: seq<int>, lists: Lists, f: nat, v: int)
    requires Linked(next, prev, area, lists) && f < FRAME_COUNT && !OnSome(lists, f)
    ensures Linked(next[f := v], prev, area, lists) && Linked(next, prev[f := v], area, lists)
  {
    var n, p := next[f := v], prev[f := v];
    forall o | 0 <= o < |lists|
      ensures ListAt(n, prev, area[o], lists[o]) && ListAt(next, p, area[o], lists[o])
    {
      var l := lists[o];
      assert ListAt(next, prev, area[o], l);
      forall k | 0 <= k < |l| ensures NodeAt(n, prev, l, k) && NodeAt(next, p, l, k) {
        assert NodeAt(next, prev, l, k);
        assert l[k] in l;
      }
    }
  }
}
