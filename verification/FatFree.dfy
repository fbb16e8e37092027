/**
  The loop of fat32_rmdir that frees a directory's clusters. It follows table
  entries and clears them as it goes, on any table: chains may meet or run in
  circles, as long as no link leads out of the table.
 */
module FatFree {
  import opened Fat
  import opened FatTable
  import opened FatDriver

  ghost predicate IsPath(t: Table, p: seq<nat>) {
    p != [] && Follows(t, p[0], p)
  }

  // c can be reached from s along the links of t.
  ghost predicate Reaches(t: Table, s: nat, c: nat) {
    exists p :: IsPath(t, p) && p[0] == s && p[|p| - 1] == c
  }

  // Wherever the links lead from s, they stop there or lead to a cluster.
  ghost predicate StaysIn(t: Table, s: nat) {
    forall c: nat | Reaches(t, s, c) && Inside(t, c) :: Stops(t[c]) || Inside(t, t[c])
  }

  ghost function NonZero(t: Table): set<nat> {
    set c | 2 <= c < |t| && t[c] != 0
  }

  lemma ReachesSelf(t: Table, s: nat)
    requires Inside(t, s)
    ensures Reaches(t, s, s)
  {
    assert IsPath(t, [s]);
  }

  lemma ReachesNext(t: Table, s: nat, c: nat)
    requires Reaches(t, s, c) && Inside(t, c) && Inside(t, t[c])
    ensures Reaches(t, s, t[c])
  {
    var p :| IsPath(t, p) && p[0] == s && p[|p| - 1] == c;
    assert IsPath(t, p + [t[c]]);
  }

  // A set that holds s and is closed under the links holds all that s reaches.
  lemma {:induction false} ClosedHoldsAll(t: Table, s: nat, v: set<nat>, p: seq<nat>)
    requires IsPath(t, p) && p[0] == s && s in v
    requires forall c | c in v && Inside(t, c) && Inside(t, t[c]) :: t[c] in v
    ensures p[|p| - 1] in v
    decreases |p|
  {
    if |p| > 1 {
      var q := p[..|p| - 1];
      assert IsPath(t, q);
      ClosedHoldsAll(t, s, v, q);
      assert t[q[|q| - 1]] == p[|p| - 1];
    }
  }

  // The table with the entries in v cleared.
  ghost predicate Cleared(t: Table, t': Table, v: set<nat>) {
    |t'| == |t| && forall c | 0 <= c < |t| :: t'[c] == if c in v then 0 else t[c]
  }

  // v is what the loop has cleared so far and cl where it goes on, if it does.
  ghost predicate Clearing(t: Table, s: nat, v: set<nat>, cl: nat, more: bool) {
    && (forall c | c in v :: Inside(t, c) && Reaches(t, s, c))
    && (more ==> Reaches(t, s, cl) && Inside(t, cl))
    && (s in v || (more && cl == s))
    && (forall c | c in v && Inside(t, c) && Inside(t, t[c]) :: t[c] in v || (more && t[c] == cl))
  }

  lemma ClearStep(t: Table, t': Table, s: nat, v: set<nat>, cl: nat)
    requires StaysIn(t, s) && Cleared(t, t', v) && Clearing(t, s, v, cl, true)
    ensures cl < |t'| && (Stops(t'[cl]) || Inside(t, t'[cl]))
    ensures Clearing(t, s, v + {cl}, t'[cl], 2 <= t'[cl] < EOC_MIN)
    ensures t'[cl] != 0 ==> NonZero(t'[cl := 0]) < NonZero(t')
    ensures NonZero(t'[cl := 0]) <= NonZero(t') && Cleared(t, t'[cl := 0], v + {cl})
  {
    if cl !in v && Inside(t, t[cl]) { ReachesNext(t, s, cl); }
    if t'[cl] != 0 { assert cl in NonZero(t') && cl !in NonZero(t'[cl := 0]); }
  }

  lemma ClearedAll(t: Table, s: nat, v: set<nat>, cl: nat, c: nat)
    requires Clearing(t, s, v, cl, false)
    ensures c in v <==> Reaches(t, s, c)
  {
    if Reaches(t, s, c) {
      var p :| IsPath(t, p) && p[0] == s && p[|p| - 1] == c;
      ClosedHoldsAll(t, s, v, p);
    }
  }

  // Clears exactly the entries reachable from start.
  method FreeChain(vol: Volume, start: nat)
    requires vol.Valid() && Inside(vol.Table(), start) && StaysIn(vol.Table(), start)
    modifies vol.disk
    ensures vol.Valid()
    ensures forall c: nat | c < |vol.Table()| ::
      vol.Table()[c] == if Reaches(old(vol.Table()), start, c) then 0 else old(vol.Table())[c]
    ensures SameData(vol.g, old(vol.disk[..]), vol.disk[..]) && SameReserved(vol.g, old(vol.disk[..]), vol.disk[..])
  {
    hide Clearing, Cleared, StaysIn, Reaches, SameData, SameReserved, DiskOk, NonZero;
    ghost var d0, t := vol.disk[..], vol.Table();
    ghost var v: set<nat> := {};
    var cl: nat, more: bool := start, true;
    StartClear(t, start);
    SameSelf(vol.g, d0);
    while more
      invariant vol.Valid() && Cleared(t, vol.Table(), v) && Clearing(t, start, v, cl, more)
      invariant more ==> cl < |t|
      invariant SameData(vol.g, d0, vol.disk[..]) && SameReserved(vol.g, d0, vol.disk[..])
      decreases NonZero(vol.Table()), more
    {
      ghost var d, t' := vol.disk[..], vol.Table();
      ClearStep(t, t', start, v, cl);
      var next := vol.ReadEntry(cl);
      var ok := vol.WriteEntry(cl, 0);
      assert vol.Table() == t'[cl := 0];
      SameTrans(vol.g, d0, d, vol.disk[..]);
      v := v + {cl};
      cl := next;
      more := 2 <= cl < EOC_MIN;
    }
    EndClear(t, vol.Table(), start, v, cl);
  }

  lemma EndClear(t: Table, t': Table, s: nat, v: set<nat>, cl: nat)
    requires Cleared(t, t', v) && Clearing(t, s, v, cl, false)
    ensures |t'| == |t| && forall c: nat | c < |t| :: t'[c] == if Reaches(t, s, c) then 0 else t[c]
  {
    hide Clearing, Reaches;
    forall c: nat | c < |t| ensures t'[c] == if Reaches(t, s, c) then 0 else t[c] { ClearedAll(t, s, v, cl, c); }
  }

  lemma StartClear(t: Table, s: nat)
    requires Inside(t, s)
    ensures Clearing(t, s, {}, s, true) && Cleared(t, t, {})
  {
    ReachesSelf(t, s);
  }

  // From the head of a whole chain exactly its clusters are reached.
  lemma {:induction false} ChainReaches(t: Table, ch: seq<nat>, c: nat)
    requires IsChain(t, ch)
    ensures Reaches(t, ch[0], c) <==> c in ch
    decreases |ch|
  {
    if c in ch {
      var i :| 0 <= i < |ch| && ch[i] == c;
      assert IsPath(t, ch[..i + 1]);
    }
    forall p | IsPath(t, p) && p[0] == ch[0] ensures p[|p| - 1] in ch {
      PathInChain(t, ch, p);
    }
  }

  lemma {:induction false} PathInChain(t: Table, ch: seq<nat>, p: seq<nat>)
    requires IsChain(t, ch) && IsPath(t, p) && p[0] == ch[0]
    ensures |p| <= |ch| && p[|p| - 1] == ch[|p| - 1]
    decreases |p|
  {
    if |p| > 1 {
      var q := p[..|p| - 1];
      assert IsPath(t, q);
      PathInChain(t, ch, q);
      assert t[q[|q| - 1]] == p[|p| - 1];
      assert t[ch[|ch| - 1]] >= EOC_MIN;
    }
  }

  // So a whole chain can be freed.
  lemma ChainStaysIn(t: Table, ch: seq<nat>)
    requires IsChain(t, ch)
    ensures Inside(t, ch[0]) && StaysIn(t, ch[0])
  {
    hide Reaches;
    forall c: nat | Reaches(t, ch[0], c) && Inside(t, c) ensures Stops(t[c]) || Inside(t, t[c]) {
      ChainReaches(t, ch, c);
      var i :| 0 <= i < |ch| && ch[i] == c;
      assert i + 1 < |ch| ==> Inside(t, ch[i + 1]);
    }
  }
}
