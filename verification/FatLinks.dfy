/**
  What the slots of directories lead to, and the tree that this makes of the
  chains of a volume: no chain has two entries, and the root and the directory
  itself have none.
 */
module FatLinks {
  import opened Bytes
  import opened FatNames
  import opened FatSlots
  import opened FatRoundTrips

  // ---- one directory ----

  datatype Link = Link(to: nat, dir: bool)

  predicate IsDotsKey(key: seq<byte>) { key == Name83([DOT]) || key == Name83([DOT, DOT]) }

  // A slot in use that stands for something of its own and has a first cluster.
  predicate SlotLeads(s: Slot) { InUse(s) && !IsDotsKey(SlotName(s)) && FirstCluster(s) != 0 }

  function LinkOf(s: Slot): Link { Link(FirstCluster(s), IsDir(s)) }

  // The links of a directory, by slot number: those before its end.
  ghost function Targets(b: seq<byte>): map<nat, Link> {
    map q: nat | q < |b| && Visible(b, q) && SlotLeads(SlotAt(b, q)) :: LinkOf(SlotAt(b, q))
  }

  lemma InTargets(b: seq<byte>, q: nat)
    requires HasSlot(b, q)
    ensures q in Targets(b) <==> Open(b, q) && SlotLeads(SlotAt(b, q))
    ensures q in Targets(b) ==> Targets(b)[q] == LinkOf(SlotAt(b, q))
  {
  }

  // No entry of an earlier life that leads anywhere comes to light when slot p,
  // the end of the directory, is filled.
  ghost predicate Quiet(b: seq<byte>, p: nat)
    requires HasSlot(b, p)
  {
    forall q: nat | StaleBehind(b, p, q) :: !SlotLeads(SlotAt(b, q))
  }

  // The links after slot p has become x.
  ghost function PutLink(b: seq<byte>, p: nat, x: Slot): map<nat, Link>
    requires HasSlot(b, p)
  {
    if Open(b, p) && SlotLeads(x) then Targets(b)[p := LinkOf(x)] else Targets(b) - {p}
  }

  // These are the links exactly if nothing stale comes to light.
  lemma PutTargetsIff(b: seq<byte>, p: nat, x: Slot)
    requires HasSlot(b, p) && x[0] != 0
    ensures Targets(PutSlot(b, p, x)) == PutLink(b, p, x) <==> Quiet(b, p)
  {
    hide SlotLeads, LinkOf, PutSlot, InUse, Visible, Targets;
    var b' := PutSlot(b, p, x);
    forall q: nat ensures HasSlot(b', q) <==> HasSlot(b, q) { }
    forall q: nat | HasSlot(b, q) ensures SlotAt(b', q) == if q == p then x else SlotAt(b, q) {
      PutSlotGet(b, p, x, q);
    }
    forall q: nat | HasSlot(b, q)
      ensures q in Targets(b') <==> q in PutLink(b, p, x) || (StaleBehind(b, p, q) && SlotLeads(SlotAt(b, q)))
      ensures q in Targets(b') && q in PutLink(b, p, x) ==> Targets(b')[q] == PutLink(b, p, x)[q]
    {
      OpenAfter(b, b', p, x, q);
      LeadsInUse(SlotAt(b, q));
      InTargets(b, q);
      InTargets(b', q);
    }
    OnlySlots(b);
    OnlySlots(b');
    StaleNew(b, p, x);
  }

  lemma LeadsInUse(s: Slot)
    ensures SlotLeads(s) ==> InUse(s)
  {
  }

  lemma OnlySlots(b: seq<byte>)
    ensures forall q: nat :: q in Targets(b) ==> HasSlot(b, q)
  {
  }

  lemma StaleNew(b: seq<byte>, p: nat, x: Slot)
    requires HasSlot(b, p)
    ensures forall q: nat :: StaleBehind(b, p, q) ==> q !in PutLink(b, p, x)
  {
    hide SlotLeads, LinkOf;
    forall q: nat | StaleBehind(b, p, q) ensures q !in PutLink(b, p, x) {
      assert HasSlot(b, p) && p < q;
      InTargets(b, q);
    }
  }

  // When the slots before q are still those before the end.
  lemma OpenAfter(b: seq<byte>, b': seq<byte>, p: nat, x: Slot, q: nat)
    requires HasSlot(b, p) && HasSlot(b, q) && x[0] != 0 && |b'| == |b|
    requires forall j: nat | HasSlot(b, j) :: SlotAt(b', j) == if j == p then x else SlotAt(b, j)
    ensures q <= p ==> (Open(b', q) <==> Open(b, q))
    ensures q > p && SlotAt(b, p)[0] != 0 ==> (Open(b', q) <==> Open(b, q))
    ensures q > p && SlotAt(b, p)[0] == 0 ==> !Open(b, q)
    ensures q > p && SlotAt(b, p)[0] == 0 && InUse(SlotAt(b, q)) ==> (Open(b', q) <==> StaleBehind(b, p, q))
  {
    assert forall j: nat | HasSlot(b', j) :: HasSlot(b, j);
    if q > p && SlotAt(b, p)[0] == 0 && InUse(SlotAt(b, q)) && Open(b', q) {
      assert forall j: nat | p < j < q && HasSlot(b, j) :: SlotAt(b', j)[0] != 0;
    }
  }

  // ---- the tree ----

  // The links of every directory, by its first cluster.
  type Links = map<nat, map<nat, Link>>

  ghost predicate LinkOk(heads: set<nat>, root: nat, e: Links, h: nat, l: Link) {
    l.to in heads && l.to != h && l.to != root && (l.to in e <==> l.dir)
  }

  ghost predicate Single(e: Links) {
    forall h <- e, k <- e, q <- e[h], r <- e[k] | h != k || q != r :: e[h][q].to != e[k][r].to
  }

  // Every link leads to a chain of its own, and to a directory exactly if it says so.
  ghost predicate Tree(heads: set<nat>, root: nat, e: Links) {
    && root in e && e.Keys <= heads && Single(e)
    && forall h <- e, q <- e[h] :: LinkOk(heads, root, e, h, e[h][q])
  }

  lemma LinkIs(heads: set<nat>, root: nat, e: Links, h: nat, q: nat)
    requires Tree(heads, root, e) && h in e && q in e[h]
    ensures LinkOk(heads, root, e, h, e[h][q])
  {
  }

  lemma LinksDiffer(heads: set<nat>, root: nat, e: Links, h: nat, q: nat, k: nat, r: nat)
    requires Tree(heads, root, e) && h in e && k in e && q in e[h] && r in e[k] && (h != k || q != r)
    ensures e[h][q].to != e[k][r].to
  {
  }

  function WithLink(e: Links, h: nat, p: nat, l: Link): Links
    requires h in e
  {
    var row: map<nat, Link> := e[h][p := l];
    e[h := row]
  }

  // A directory's links become `row`, and a new directory has none.
  function WithDir(e: Links, h: nat, row: map<nat, Link>, f: nat): Links {
    var e1: Links := e[h := row];
    e1[f := map[]]
  }

  // Nothing leads to c.
  ghost predicate NoLink(e: Links, c: nat) {
    forall h <- e, q <- e[h] :: e[h][q].to != c
  }

  lemma FreshNoLink(heads: set<nat>, root: nat, e: Links, c: nat)
    requires Tree(heads, root, e) && c !in heads
    ensures NoLink(e, c)
  {
    forall h: nat, q: nat | h in e && q in e[h] ensures e[h][q].to != c { LinkIs(heads, root, e, h, q); }
  }

  // A link goes.
  lemma TreeLess(heads: set<nat>, root: nat, e: Links, h: nat, p: nat)
    requires Tree(heads, root, e) && h in e
    ensures Tree(heads, root, e[h := e[h] - {p}])
  {
    var e': Links := e[h := e[h] - {p}];
    forall k: nat, q: nat | k in e' && q in e'[k] ensures LinkOk(heads, root, e', k, e'[k][q]) {
      LinkIs(heads, root, e, k, q);
    }
    forall k: nat, j: nat, q: nat, r: nat | k in e' && j in e' && q in e'[k] && r in e'[j] && (k != j || q != r)
      ensures e'[k][q].to != e'[j][r].to
    {
      LinksDiffer(heads, root, e, k, q, j, r);
    }
  }

  // A link to something that nothing led to.
  lemma TreeMore(heads: set<nat>, root: nat, e: Links, h: nat, p: nat, l: Link)
    requires Tree(heads, root, e) && h in e && LinkOk(heads, root, e, h, l) && NoLink(e, l.to)
    ensures Tree(heads, root, WithLink(e, h, p, l))
  {
    var e' := WithLink(e, h, p, l);
    forall k: nat, q: nat | k in e' && q in e'[k] ensures LinkOk(heads, root, e', k, e'[k][q]) {
      if k != h || q != p { LinkIs(heads, root, e, k, q); }
    }
    forall k: nat, j: nat, q: nat, r: nat | k in e' && j in e' && q in e'[k] && r in e'[j] && (k != j || q != r)
      ensures e'[k][q].to != e'[j][r].to
    {
      if (k != h || q != p) && (j != h || r != p) { LinksDiffer(heads, root, e, k, q, j, r); }
    }
  }

  // More chains, and possibly a new directory without links.
  lemma TreeHeads(heads: set<nat>, root: nat, e: Links, c: nat)
    requires Tree(heads, root, e) && c !in heads
    ensures Tree(heads + {c}, root, e) && Tree(heads + {c}, root, e[c := map[]])
  {
    var e': Links := e[c := map[]];
    FreshNoLink(heads, root, e, c);
    forall k: nat, q: nat | k in e' && q in e'[k] ensures LinkOk(heads + {c}, root, e', k, e'[k][q]) {
      LinkIs(heads, root, e, k, q);
    }
    forall k: nat, q: nat | k in e && q in e[k] ensures LinkOk(heads + {c}, root, e, k, e[k][q]) {
      LinkIs(heads, root, e, k, q);
    }
    forall k: nat, j: nat, q: nat, r: nat | k in e' && j in e' && q in e'[k] && r in e'[j] && (k != j || q != r)
      ensures e'[k][q].to != e'[j][r].to
    {
      LinksDiffer(heads, root, e, k, q, j, r);
    }
  }

  // A chain goes that nothing leads to any more, with its links if it has any.
  lemma TreeDrop(heads: set<nat>, root: nat, e: Links, c: nat)
    requires Tree(heads, root, e) && NoLink(e, c) && c != root
    ensures Tree(heads - {c}, root, e - {c})
  {
    var e': Links := e - {c};
    forall k: nat, q: nat | k in e' && q in e'[k] ensures LinkOk(heads - {c}, root, e', k, e'[k][q]) {
      LinkIs(heads, root, e, k, q);
    }
    forall k: nat, j: nat, q: nat, r: nat | k in e' && j in e' && q in e'[k] && r in e'[j] && (k != j || q != r)
      ensures e'[k][q].to != e'[j][r].to
    {
      LinksDiffer(heads, root, e, k, q, j, r);
    }
  }

  // The only link to it was this one.
  lemma LastLink(heads: set<nat>, root: nat, e: Links, h: nat, p: nat)
    requires Tree(heads, root, e) && h in e && p in e[h]
    ensures NoLink(e[h := e[h] - {p}], e[h][p].to) && e[h][p].to != root && e[h][p].to != h
  {
    LinkIs(heads, root, e, h, p);
    var e': Links := e[h := e[h] - {p}];
    forall k: nat, q: nat | k in e' && q in e'[k] ensures e'[k][q].to != e[h][p].to {
      LinksDiffer(heads, root, e, k, q, h, p);
    }
  }
}
