/** The life of one process, from proc_spawn to the proc_waitpid that reaps it. */
module Lifecycle {
  import opened Layout
  import opened Blocks
  import opened BuddyHeap
  import opened Scheduling
  import opened Processes

  ghost predicate OnlyReady(t: seq<Pcb>, c: nat) {
    InState(t, c, Ready) && forall i: nat | InState(t, i, Ready) :: i == c
  }

  lemma SwitchToOnly(s: Sys, s': Sys, c: nat)
    requires Wf(s) && Switched(s, s') && OnlyReady(s.table, c) && c != s.current
    ensures s' == ResumeAt(s, c)
  {
  }

  lemma AfterSpawn(s: Sys, e: Event, s': Sys) returns (c: nat)
    requires Wf(s) && PidsOk(s) && InState(s.table, s.current, Running) && NoneReady(s.table)
    requires e.Spawn? && Step(s, e, s')
    ensures FirstEmpty(s.table, c) && c != s.current
    ensures s' == Sys(s.table[c := Child(s, e.stack, e.pml4)], s.current, s.nextPid + 1)
    ensures OnlyReady(s'.table, c) && FirstPid(s'.table, s.nextPid, c)
  {
    c :| FirstEmpty(s.table, c) && s' == Sys(s.table[c := Child(s, e.stack, e.pml4)], s.current, s.nextPid + 1);
    assert forall i: nat :: InState(s'.table, i, Ready) && i != c ==> InState(s.table, i, Ready);
  }

  lemma AfterWait(s: Sys, pid: int, s': Sys, c: nat)
    requires Wf(s) && InState(s.table, s.current, Running) && OnlyReady(s.table, c) && c != s.current
    requires FirstPid(s.table, pid, c) && Step(s, Wait(pid), s')
    ensures s' == Sys(SetState(SetState(s.table, s.current, Blocked), c, Running), c, s.nextPid)
    ensures NoneReady(s'.table)
  {
    hide Switched, NoneReady;
    var u := s.(table := SetState(s.table, s.current, Blocked));
    assert forall i: nat :: InState(u.table, i, Ready) ==> InState(s.table, i, Ready);
    SwitchToOnly(u, s', c);
    NoMoreReady(u, c);
  }

  lemma NoMoreReady(s: Sys, c: nat)
    requires Wf(s) && OnlyReady(s.table, c) && s.table[s.current].state != Running
    ensures NoneReady(ResumeAt(s, c).table)
  {
    forall i: nat | InState(ResumeAt(s, c).table, i, Ready) ensures InState(s.table, i, Ready) { }
  }

  lemma AfterExit(s: Sys, code: int, s': Sys, home: nat)
    requires Wf(s) && PidsOk(s) && NoneReady(s.table) && InState(s.table, s.current, Running) && Step(s, Exit(code), s')
    requires InState(s.table, home, Blocked) && s.table[home].pid == home == s.table[s.current].parent
    requires s.table[s.current].pid >= 0
    ensures s' == Sys(SetState(Ended(s, code), home, Running), home, s.nextPid)
  {
    hide NoneReady, Switched;
    var u := Ended(s, code);
    var child := s.table[s.current].pid;
    var t :| Woke(u, t, child) && |t| == MAX_PROC && Switched(s.(table := t), s');
    assert IsChild(u[s.current], child, u[home].pid) && Awaits(u, child, home);
    forall i: nat | Awaits(u, child, i) ensures i == home { }
    assert t == SetState(u, home, Ready);
    HomeOnly(s, t, home);
    SwitchToOnly(s.(table := t), s', home);
    assert s'.table == SetState(u, home, Running);
  }

  lemma HomeOnly(s: Sys, t: seq<Pcb>, home: nat)
    requires NoneReady(s.table) && |t| == |s.table| && home < |t| && t[home].state == Ready
    requires forall i: nat | i < |t| && i != home :: t[i].state == s.table[i].state || t[i].state == Zombie
    ensures OnlyReady(t, home)
  {
    forall i: nat | InState(t, i, Ready) ensures i == home {
      assert !InState(s.table, i, Ready);
    }
  }

  // Slot c is EMPTY in both tables, and the others hold the same blocks.
  lemma SameButOne(t: seq<Pcb>, u: seq<Pcb>, c: nat)
    requires |t| == |u| && InState(t, c, Empty) && InState(u, c, Empty)
    requires forall i: nat | i < |t| && i != c ::
      u[i].rsp0 == t[i].rsp0 && u[i].pml4 == t[i].pml4 && (u[i].state == Empty <==> t[i].state == Empty)
    ensures forall f: nat, k: Blk :: OwnedIn(t, f, k) <==> OwnedIn(u, f, k)
  {
    assert forall i: nat, f: nat, k: Blk :: i < |t| ==> (Owns(u[i], f, k) <==> Owns(t[i], f, k));
  }

  // A slot is empty, and free memory holds a stack and a page.
  ghost predicate CanSpawn(t: seq<Pcb>, b: Blocks) {
    (exists i: nat :: InState(t, i, Empty)) && HasRun(b, MAX_ORDER, 1) && !OnlyPair(b)
  }

  // A process that spawns a child, waits for it and is woken by its exit gets the
  // child's exit code and finds the heap as it was, free blocks included.
  method SpawnWaitReap(p: Processes, code: int) returns (r: Turn)
    requires p.Valid() && InState(p.pcbs[..], p.current, Running) && NoneReady(p.pcbs[..])
    requires p.pcbs[..][p.current].pid == p.current
    modifies p.pcbs, p`current, p`nextPid, p.heap, p.heap.next, p.heap.prev, p.heap.tags, p.heap.area
    ensures p.Valid() && p.current == old(p.current) && p.heap.blocks == old(p.heap.blocks)
    ensures r == if CanSpawn(old(p.pcbs[..]), old(p.heap.blocks)) then Reaped(code) else NoSuchPid
  {
    hide Heap.Valid, Accounted, PidsOk, OneRunning, Nearest, NoneReady, Switched, OwnedIn, HasRun, OnlyPair, Taken,
         GivenBack, Step;
    ghost var s0, b := p.State(), p.heap.blocks;
    p.heap.Sizes();
    var pid;
    ghost var stack, pml4, i;
    pid, stack, pml4 := p.Spawn();
    if pid == -1 { return NoSuchPid; }
    ghost var s1 := p.State();
    ghost var c := AfterSpawn(s0, Event.Spawn(stack, pml4), s1);
    PidPositive(s0);
    ghost var s3;
    s3 := LiveAndDie(p, pid, code, c);
    r, i := p.WaitTurn(pid);
    ghost var s4 := p.State();
    AfterReap(s3, pid, s4, c);
    p.heap.Sizes();
    SameButOne(s0.table, s4.table, c);
    SameOwnersSameHeap(b, p.heap.blocks, s0.table, s4.table, p.rest);
  }

  // The parent waits, and the child in slot c runs and exits.
  method LiveAndDie(p: Processes, pid: int, code: int, ghost c: nat) returns (ghost s3: Sys)
    requires p.Valid() && InState(p.pcbs[..], p.current, Running) && p.pcbs[..][p.current].pid == p.current
    requires OnlyReady(p.pcbs[..], c) && c != p.current && FirstPid(p.pcbs[..], pid, c)
    requires p.pcbs[..][c].parent == p.current && pid >= 0
    modifies p.pcbs, p`current, p.heap, p.heap.next, p.heap.prev, p.heap.tags, p.heap.area
    ensures p.Valid() && p.rest == old(p.rest) && s3 == p.State() && p.current == old(p.current)
    ensures InState(s3.table, p.current, Running) && FirstPid(s3.table, pid, c) && InState(s3.table, c, Zombie)
    ensures s3.table[c].exitCode == code
    ensures SameOwners(old(p.pcbs[..]), s3.table)
  {
    hide Heap.Valid, Accounted, PidsOk, OneRunning, Nearest, NoneReady, Switched, GivenBack, Step;
    ghost var s1, home := p.State(), p.current;
    var r;
    ghost var i;
    OnlyFirst(s1.table, pid, c);
    r, i := p.WaitTurn(pid);
    ghost var s2 := p.State();
    AfterWait(s1, pid, s2, c);
    p.Exit(code);
    s3 := p.State();
    AfterExit(s2, code, s3, home);
    assert FirstPid(s3.table, pid, c);
  }

  lemma PidPositive(s: Sys)
    requires PidsOk(s)
    ensures s.nextPid >= 1
  {
  }

  lemma AfterReap(s: Sys, pid: int, s': Sys, c: nat)
    requires Wf(s) && FirstPid(s.table, pid, c) && s.table[c].state == Zombie && Step(s, Wait(pid), s')
    ensures s' == s.(table := SetState(s.table, c, Empty))
  {
    hide Switched;
  }
}
