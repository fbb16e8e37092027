/**
  Chains in the file allocation table, seen as the sequence t of its 28-bit
  entries: t[c] is the cluster after c, 0 when c is free, and at least EOC_MIN
  at the end of a chain. Clusters are numbered from 2.
 */
module FatTable {
  import opened Counting

  const EOC_MIN: nat := 0x0FFFFFF8
  const EOC: nat := 0x0FFFFFFF

  type Table = t: seq<nat> | 2 <= |t| < EOC_MIN witness [0, 0]

  ghost predicate Inside(t: Table, c: nat) {
    2 <= c < |t|
  }

  ghost predicate IsFree(t: Table, c: nat) {
    Inside(t, c) && t[c] == 0
  }

  ghost function FreeClusters(t: Table): set<nat> {
    set c | 2 <= c < |t| && t[c] == 0
  }

  // ch is a whole chain: distinct clusters, each naming the next, the last an end mark.
  ghost predicate IsChain(t: Table, ch: seq<nat>) {
    && ch != [] && Distinct(ch)
    && (forall i | 0 <= i < |ch| :: Inside(t, ch[i]))
    && (forall i | 0 <= i < |ch| - 1 :: t[ch[i]] == ch[i + 1])
    && t[ch[|ch| - 1]] >= EOC_MIN
  }

  function Last(ch: seq<nat>): nat
    requires ch != []
  {
    ch[|ch| - 1]
  }

  // The loops that follow the links stop at such a number.
  predicate Stops(c: nat) {
    c < 2 || c >= EOC_MIN
  }

  // p is what a loop that follows the links from s meets first.
  ghost predicate Follows(t: Table, s: nat, p: seq<nat>) {
    && (forall i | 0 <= i < |p| :: Inside(t, p[i]))
    && (p != [] ==> p[0] == s)
    && (forall i | 0 <= i < |p| - 1 :: t[p[i]] == p[i + 1])
  }

  // Where the loop goes on from there.
  ghost function After(t: Table, s: nat, p: seq<nat>): nat
    requires Follows(t, s, p)
  {
    if p == [] then s else t[p[|p| - 1]]
  }

  lemma ChainTrail(t: Table, ch: seq<nat>)
    requires IsChain(t, ch)
    ensures ch != [] && Follows(t, ch[0], ch) && Stops(After(t, ch[0], ch))
  {
  }

  lemma ChainNotFree(t: Table, ch: seq<nat>, c: nat)
    requires IsChain(t, ch) && c in ch
    ensures Inside(t, c) && t[c] >= 2
  {
    var i :| 0 <= i < |ch| && ch[i] == c;
    if i < |ch| - 1 { assert Inside(t, ch[i + 1]); }
  }

  // A chain is determined by where it begins.
  lemma {:induction false} ChainUnique(t: Table, ch: seq<nat>, ch': seq<nat>)
    requires IsChain(t, ch) && IsChain(t, ch') && ch[0] == ch'[0]
    ensures ch == ch'
    decreases |ch|
  {
    if |ch| == 1 || |ch'| == 1 {
      assert |ch| > 1 ==> Inside(t, ch[1]);
      assert |ch'| > 1 ==> Inside(t, ch'[1]);
    } else {
      TailIsChain(t, ch);
      TailIsChain(t, ch');
      ChainUnique(t, ch[1..], ch'[1..]);
      assert ch == [ch[0]] + ch[1..];
    }
  }

  lemma TailIsChain(t: Table, ch: seq<nat>)
    requires IsChain(t, ch) && |ch| > 1
    ensures IsChain(t, ch[1..])
  {
  }

  // ---- an end that is no end mark ----

  // write_chain takes a last entry of 0 for the end too: t with an end mark there.
  function Whole(t: Table, ch: seq<nat>): Table
    requires ch != [] && Last(ch) < |t|
  {
    if t[Last(ch)] == 0 then t[Last(ch) := EOC] else t
  }

  // ch is a chain but that its last entry may be 0.
  ghost predicate Ended(t: Table, ch: seq<nat>) {
    ch != [] && Last(ch) < |t| && IsChain(Whole(t, ch), ch)
  }

  lemma WholeSame(t: Table, ch: seq<nat>)
    requires IsChain(t, ch)
    ensures Ended(t, ch) && Whole(t, ch) == t
  {
  }

  // Only the last entry can differ.
  lemma WholeEntry(t: Table, ch: seq<nat>, i: nat)
    requires Ended(t, ch) && i < |ch|
    ensures ch[i] < |t|
    ensures i + 1 < |ch| ==> Whole(t, ch)[ch[i]] == t[ch[i]]
    ensures i + 1 == |ch| ==> ch[i] == Last(ch) && (t[ch[i]] == 0 || (t[ch[i]] >= EOC_MIN && Whole(t, ch) == t))
  {
  }

  lemma WholeFree(t: Table, ch: seq<nat>, f: nat)
    requires Ended(t, ch) && LeastFree(t, f) && f != Last(ch)
    ensures LeastFree(Whole(t, ch), f) && Append(t, Last(ch), f) == Append(Whole(t, ch), Last(ch), f)
  {
    forall c | IsFree(Whole(t, ch), c) ensures f <= c { assert IsFree(t, c); }
  }

  lemma NoneLeast(t: Table, f: nat)
    requires FreeClusters(t) == {}
    ensures !LeastFree(t, f)
  {
    assert f in FreeClusters(t) <==> IsFree(t, f);
  }

  lemma OneLeast(t: Table, f: nat, c: nat)
    requires LeastFree(t, f)
    ensures 2 <= f < |t| && t[f] == 0 && (LeastFree(t, c) <==> c == f)
  {
  }

  lemma NoneFree(t: Table, ch: seq<nat>)
    requires Ended(t, ch) && FreeClusters(t) == {}
    ensures Whole(t, ch) == t
  {
    assert Last(ch) in FreeClusters(t) <==> IsFree(t, Last(ch));
  }

  lemma GrownEnded(t: Table, t': Table, ch: seq<nat>, ch': seq<nat>)
    requires Grown(t, t', ch, ch')
    ensures Ended(t', ch') && Whole(t', ch') == t'
  {
    WholeSame(t', ch');
  }

  // ---- growing a chain ----

  function Append(t: Table, last: nat, f: nat): Table
    requires last < |t| && f < |t|
  {
    t[last := f][f := EOC]
  }

  lemma AppendIsChain(t: Table, ch: seq<nat>, f: nat)
    requires IsChain(t, ch) && IsFree(t, f)
    ensures Inside(t, Last(ch)) && f !in ch
    ensures IsChain(Append(t, Last(ch), f), ch + [f])
  {
    if f in ch { ChainNotFree(t, ch, f); }
    var t', n := Append(t, Last(ch), f), ch + [f];
    forall i | 0 <= i < |n| - 1 ensures t'[n[i]] == n[i + 1] {
    }
  }

  // t' is t with the chain ch grown to ch', always by the least free cluster,
  // and nothing else changed.
  ghost predicate Grown(t: Table, t': Table, ch: seq<nat>, ch': seq<nat>) {
    && |t'| == |t| && IsChain(t, ch) && IsChain(t', ch')
    && |ch| <= |ch'| && ch'[..|ch|] == ch
    && (|ch'| > |ch| ==> t'[Last(ch')] == 0x0FFF_FFFF)
    && (forall i | |ch| <= i < |ch'| :: IsFree(t, ch'[i]))
    && (forall i, j | |ch| <= i < j < |ch'| :: ch'[i] < ch'[j])
    && (forall i, c | |ch| <= i < |ch'| && IsFree(t', c) :: ch'[i] < c)
    && (forall c | 0 <= c < |t| && c !in ch'[|ch|..] && (c != Last(ch) || |ch'| == |ch|) :: t'[c] == t[c])
  }

  lemma GrownRefl(t: Table, ch: seq<nat>)
    requires IsChain(t, ch)
    ensures Grown(t, t, ch, ch)
  {
  }

  ghost predicate LeastFree(t: Table, f: nat) {
    IsFree(t, f) && forall c | IsFree(t, c) :: f <= c
  }

  lemma GrowStep(t: Table, t': Table, ch: seq<nat>, ch': seq<nat>, f: nat)
    requires Grown(t, t', ch, ch') && LeastFree(t', f)
    ensures Inside(t', Last(ch'))
    ensures Grown(t, Append(t', Last(ch'), f), ch, ch' + [f])
  {
    hide Distinct;
    AppendIsChain(t', ch', f);
    var t2, n := Append(t', Last(ch'), f), ch' + [f];
    assert n[|ch|..] == ch'[|ch|..] + [f];
    assert IsFree(t, f) by { FreshStays(t, t', ch, ch', f); }
    forall c | IsFree(t2, c) ensures IsFree(t', c) && c != f {
    }
    assert forall i | |ch| <= i < |ch'| :: n[i] == ch'[i];
    if |ch'| > |ch| { assert n[|ch|..][|ch'| - 1 - |ch|] == Last(ch'); }
    forall c | 0 <= c < |t| && c !in n[|ch|..] && c != Last(ch) ensures t2[c] == t[c] {
      assert c !in ch'[|ch|..] && c != f;
    }
  }

  // What is free after growing was free before.
  lemma FreshStays(t: Table, t': Table, ch: seq<nat>, ch': seq<nat>, f: nat)
    requires Grown(t, t', ch, ch') && IsFree(t', f)
    ensures IsFree(t, f) && f !in ch'
  {
    if f in ch' { ChainNotFree(t', ch', f); }
    assert Last(ch) == ch'[|ch| - 1];
    assert forall x :: x in ch'[|ch|..] ==> x in ch';
  }

  // Exactly the added clusters left the free set.
  lemma GrownFree(t: Table, t': Table, ch: seq<nat>, ch': seq<nat>)
    requires Grown(t, t', ch, ch')
    ensures FreeClusters(t') == FreeClusters(t) - Elements(ch'[|ch|..])
    ensures |FreeClusters(t)| - |FreeClusters(t')| == |ch'| - |ch|
  {
    var added := ch'[|ch|..];
    forall c: nat ensures c in FreeClusters(t') <==> c in FreeClusters(t) && c !in added {
      FreeAfter(t, t', ch, ch', c);
    }
    forall c | c in added ensures c in FreeClusters(t) {
      var i :| 0 <= i < |added| && added[i] == c;
      assert added[i] == ch'[|ch| + i];
    }
    assert Distinct(added);
    DistinctSize(added);
    assert FreeClusters(t) == FreeClusters(t') + Elements(added);
  }

  lemma FreeAfter(t: Table, t': Table, ch: seq<nat>, ch': seq<nat>, c: nat)
    requires Grown(t, t', ch, ch')
    ensures IsFree(t', c) <==> IsFree(t, c) && c !in ch'[|ch|..]
  {
    assert forall x :: x in ch'[|ch|..] ==> x in ch';
    if IsFree(t', c) { FreshStays(t, t', ch, ch', c); }
    if c == Last(ch) { ChainNotFree(t, ch, c); }
  }

  ghost predicate Disjoint(a: seq<nat>, b: seq<nat>) {
    forall x | x in a :: x !in b
  }

  // Any other chain is still one.
  lemma OtherChain(t: Table, t': Table, ch: seq<nat>, ch': seq<nat>, o: seq<nat>)
    requires Grown(t, t', ch, ch') && IsChain(t, o) && Disjoint(o, ch)
    ensures IsChain(t', o) && Disjoint(o, ch')
    ensures forall c | c in o :: t'[c] == t[c]
  {
    forall c | c in o ensures Inside(t, c) && t'[c] == t[c] && c !in ch' {
      ChainNotFree(t, o, c);
      forall i | 0 <= i < |ch'| ensures ch'[i] != c {
        if i < |ch| { assert ch[i] == ch'[i] && ch[i] in ch; } else { assert IsFree(t, ch'[i]); }
      }
      assert c in ch'[|ch|..] ==> c in ch';
    }
    forall i | 0 <= i < |o| ensures t'[o[i]] == t[o[i]] { assert o[i] in o; }
  }
}
