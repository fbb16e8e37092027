/**
  The process table as a value, and what each call of the scheduler does to it.
  A step is one call of schedule, proc_exit, proc_spawn or one turn of the loop
  in proc_waitpid.
 */
module Scheduling {

  const MAX_PROC: nat := 64

  datatype Status = Empty | Ready | Running | Blocked | Zombie

  // parent is what the source calls parent_pid: the slot of the spawning process.
  datatype Pcb = Pcb(pid: int, state: Status, parent: int, exitCode: int, rsp0: nat, pml4: nat)

  // current is what the source calls current_pid: a slot number.
  datatype Sys = Sys(table: seq<Pcb>, current: nat, nextPid: int)

  ghost predicate Wf(s: Sys) {
    |s.table| == MAX_PROC && s.current < MAX_PROC
  }

  ghost predicate InState(t: seq<Pcb>, i: nat, st: Status) {
    i < |t| && t[i].state == st
  }

  function SetState(t: seq<Pcb>, i: nat, st: Status): (r: seq<Pcb>)
    requires i < |t|
    ensures |r| == |t|
  {
    t[i := t[i].(state := st)]
  }

  // How many slots after c slot r comes, going round.
  function Dist(c: nat, r: nat): nat
    requires c < MAX_PROC && r < MAX_PROC
  {
    (r + MAX_PROC - c) % MAX_PROC
  }

  lemma DistBack(c: nat, r: nat)
    requires c < MAX_PROC && r < MAX_PROC
    ensures Dist(c, r) < MAX_PROC && (c + Dist(c, r)) % MAX_PROC == r
    ensures Dist(c, r) == 0 <==> r == c
  {
  }

  lemma DistOf(c: nat, i: nat)
    requires c < MAX_PROC && i < MAX_PROC
    ensures Dist(c, (c + i) % MAX_PROC) == i
  {
  }

  // r is the READY slot that comes first, going round from c.
  ghost predicate Nearest(t: seq<Pcb>, c: nat, r: nat)
    requires |t| == MAX_PROC && c < MAX_PROC
  {
    && InState(t, r, Ready)
    && forall i: nat | InState(t, i, Ready) :: Dist(c, r) <= Dist(c, i)
  }

  ghost predicate NoneReady(t: seq<Pcb>) {
    forall i: nat :: !InState(t, i, Ready)
  }

  // The process of slot r goes on; the one before it is put back if it was running.
  function ResumeAt(s: Sys, r: nat): Sys
    requires |s.table| == MAX_PROC && s.current < MAX_PROC && r < MAX_PROC
  {
    var t := if s.table[s.current].state == Running then SetState(s.table, s.current, Ready) else s.table;
    Sys(SetState(t, r, Running), r, s.nextPid)
  }

  // schedule: it stays put if nothing is READY, and also if the current slot is.
  ghost predicate Switched(s: Sys, s': Sys)
    requires Wf(s)
  {
    if NoneReady(s.table) || InState(s.table, s.current, Ready) then s' == s
    else exists r: nat :: Nearest(s.table, s.current, r) && s' == ResumeAt(s, r)
  }

  // Slot i is blocked, and some slot with the child's pid names i's pid as its parent.
  ghost predicate Awaits(t: seq<Pcb>, child: int, i: nat) {
    && InState(t, i, Blocked)
    && exists j: nat :: j < |t| && IsChild(t[j], child, t[i].pid)
  }

  predicate IsChild(p: Pcb, child: int, parent: int) {
    p.pid == child && p.parent == parent
  }

  // proc_wake_parent
  ghost predicate Woke(t: seq<Pcb>, t': seq<Pcb>, child: int) {
    if forall i: nat :: !Awaits(t, child, i) then t' == t
    else exists i: nat :: Awaits(t, child, i) && (forall j: nat | j < i :: !Awaits(t, child, j))
           && t' == SetState(t, i, Ready)
  }

  ghost predicate FirstPid(t: seq<Pcb>, pid: int, i: nat) {
    i < |t| && t[i].pid == pid && forall j: nat | j < i :: t[j].pid != pid
  }

  ghost predicate HasPid(t: seq<Pcb>, pid: int) {
    exists i: nat :: i < |t| && t[i].pid == pid
  }

  ghost predicate FirstEmpty(t: seq<Pcb>, i: nat) {
    InState(t, i, Empty) && forall j: nat | j < i :: !InState(t, j, Empty)
  }

  datatype Event =
    | Tick
    | Exit(code: int)
    | Wait(pid: int)
    | Spawn(stack: nat, pml4: nat)
    | SpawnFailed

  // The process in the current slot is in a position to make a call.
  ghost predicate Alive(s: Sys)
    requires Wf(s)
  {
    var st := s.table[s.current].state; st != Empty && st != Zombie
  }

  // One turn of proc_waitpid's loop blocks its caller.
  ghost predicate WouldBlock(t: seq<Pcb>, pid: int) {
    exists i: nat :: FirstPid(t, pid, i) && t[i].state != Zombie
  }

  ghost predicate Waited(s: Sys, pid: int, s': Sys)
    requires Wf(s)
  {
    && (!HasPid(s.table, pid) ==> s' == s)
    && forall i: nat :: FirstPid(s.table, pid, i) ==>
         if s.table[i].state == Zombie then s' == s.(table := SetState(s.table, i, Empty))
         else Switched(s.(table := SetState(s.table, s.current, Blocked)), s')
  }

  function Ended(s: Sys, code: int): seq<Pcb>
    requires |s.table| == MAX_PROC && s.current < MAX_PROC
  {
    s.table[s.current := s.table[s.current].(exitCode := code, state := Zombie)]
  }

  ghost predicate Exited(s: Sys, code: int, s': Sys)
    requires Wf(s)
  {
    exists t :: Woke(Ended(s, code), t, s.table[s.current].pid) && |t| == MAX_PROC && Switched(s.(table := t), s')
  }

  // The new process; rsp0 is the top of its kernel stack.
  function Child(s: Sys, stack: nat, pml4: nat): Pcb {
    Pcb(s.nextPid, Ready, s.current, 0, stack + 8192, pml4)
  }

  ghost predicate Spawned(s: Sys, stack: nat, pml4: nat, s': Sys) {
    exists slot: nat :: FirstEmpty(s.table, slot)
      && s' == Sys(s.table[slot := Child(s, stack, pml4)], s.current, s.nextPid + 1)
  }

  ghost predicate Step(s: Sys, e: Event, s': Sys)
    requires Wf(s)
  {
    match e
    case Tick => Switched(s, s')
    case Exit(code) => Alive(s) && Exited(s, code, s')
    case Wait(pid) => Alive(s) && Waited(s, pid, s')
    case Spawn(stack, pml4) => Alive(s) && Spawned(s, stack, pml4, s')
    case SpawnFailed => Alive(s) && s' == s
  }

  // ---- runs ----

  ghost predicate IsRun(ss: seq<Sys>, es: seq<Event>) {
    && |ss| == |es| + 1
    && (forall i | 0 <= i < |ss| :: Wf(ss[i]))
    && forall i | 0 <= i < |es| :: Step(ss[i], es[i], ss[i + 1])
  }

  lemma RunTail(ss: seq<Sys>, es: seq<Event>)
    requires IsRun(ss, es) && es != []
    ensures IsRun(ss[1..], es[1..]) && Wf(ss[0]) && Step(ss[0], es[0], ss[1])
  {
    forall i | 0 <= i < |es[1..]| ensures Step(ss[1..][i], es[1..][i], ss[1..][i + 1]) {
      assert Step(ss[i + 1], es[i + 1], ss[i + 1 + 1]);
    }
  }

  // ---- one process at a time ----

  ghost predicate OneRunning(s: Sys) {
    forall i: nat | InState(s.table, i, Running) :: i == s.current
  }

  // Nothing but a READY process is ever resumed.
  lemma ResumesReady(s: Sys, s': Sys)
    requires Wf(s) && Switched(s, s')
    ensures Wf(s')
    ensures s'.current != s.current ==> InState(s.table, s'.current, Ready) && InState(s'.table, s'.current, Running)
    ensures s'.current != s.current <==> !NoneReady(s.table) && !InState(s.table, s.current, Ready)
    ensures OneRunning(s) ==> OneRunning(s')
  {
    forall i: nat | InState(s'.table, i, Running) && i != s'.current
      ensures InState(s.table, i, Running) && i != s.current
    {
    }
  }

  lemma StepSafe(s: Sys, e: Event, s': Sys)
    requires Wf(s) && Step(s, e, s') && OneRunning(s)
    ensures Wf(s') && OneRunning(s')
  {
    hide Nearest, Awaits, NoneReady;
    match e {
      case Tick => ResumesReady(s, s');
      case Exit(code) =>
        var t :| Woke(Ended(s, code), t, s.table[s.current].pid) && |t| == MAX_PROC && Switched(s.(table := t), s');
        forall i: nat | InState(t, i, Running) ensures InState(s.table, i, Running) { }
        ResumesReady(s.(table := t), s');
      case Wait(pid) => WaitSafe(s, pid, s');
      case _ => forall i: nat | InState(s'.table, i, Running) ensures InState(s.table, i, Running) { }
    }
  }

  lemma WaitSafe(s: Sys, pid: int, s': Sys)
    requires Wf(s) && Waited(s, pid, s') && OneRunning(s)
    ensures Wf(s') && OneRunning(s')
  {
    hide Nearest, NoneReady, Switched;
    if HasPid(s.table, pid) {
      var i := FindPid(s.table, pid);
      var u := s.(table := SetState(s.table, s.current, Blocked));
      forall j: nat | InState(u.table, j, Running) ensures InState(s.table, j, Running) { }
      if s.table[i].state != Zombie {
        ResumesReady(u, s');
      } else {
        forall j: nat | InState(s'.table, j, Running) ensures InState(s.table, j, Running) { }
      }
    }
  }

  lemma FindPid(t: seq<Pcb>, pid: int) returns (i: nat)
    requires HasPid(t, pid)
    ensures FirstPid(t, pid, i)
  {
    i := 0;
    while t[i].pid != pid
      invariant i < |t| && forall j: nat | j < i :: t[j].pid != pid
      invariant exists k: nat :: i <= k < |t| && t[k].pid == pid
      decreases |t| - i
    {
      i := i + 1;
    }
  }

  // In every state of every run only the current slot is RUNNING.
  lemma {:induction false} RunSafe(ss: seq<Sys>, es: seq<Event>)
    requires IsRun(ss, es) && OneRunning(ss[0])
    ensures forall k | 0 <= k < |ss| :: OneRunning(ss[k])
    decreases |es|
  {
    if es != [] {
      RunTail(ss, es);
      StepSafe(ss[0], es[0], ss[1]);
      RunSafe(ss[1..], es[1..]);
      forall k | 0 < k < |ss| ensures OneRunning(ss[k]) { assert ss[1..][k - 1] == ss[k]; }
    }
  }

  // ---- what a step does, slot by slot ----

  // schedule going to another slot: that one was READY and runs, the one left is
  // READY if it was RUNNING, and everything else is as before.
  lemma SwitchSlots(s: Sys, s': Sys)
    requires Wf(s) && Switched(s, s')
    ensures |s'.table| == 64 && s'.current < 64 && s'.nextPid == s.nextPid
    ensures s'.current == s.current ==> s' == s
    ensures s'.current != s.current ==> forall i: nat | i < 64 ::
      && s'.table[i] == s.table[i].(state := s'.table[i].state)
      && (i == s'.current ==> s.table[i].state == Ready && s'.table[i].state == Running)
      && (i == s.current ==> s'.table[i].state == if s.table[i].state == Running then Ready else s.table[i].state)
      && (i != s.current && i != s'.current ==> s'.table[i] == s.table[i])
  {
  }

  // It goes to the first READY slot behind the current one: to a later one, or to
  // an earlier one if none from the current one on is READY.
  lemma SwitchGoesTo(s: Sys, s': Sys)
    requires Wf(s) && Switched(s, s')
    ensures s'.current == s.current <==>
      s.table[s.current].state == Ready || forall i: nat | i < 64 :: s.table[i].state != Ready
    ensures s'.current > s.current ==> forall i: nat | s.current <= i < s'.current :: s.table[i].state != Ready
    ensures s'.current < s.current ==>
      forall i: nat | i < s'.current || s.current <= i < 64 :: s.table[i].state != Ready
  {
    hide Dist;
    ResumesReady(s, s');
    if s'.current != s.current {
      var r: nat :| Nearest(s.table, s.current, r) && s' == ResumeAt(s, r);
      DistIs(s.current, r);
      forall i: nat | i < 64 ensures s.table[i].state == Ready ==> Dist(s.current, r) <= Dist(s.current, i) {
        assert s.table[i].state == Ready ==> InState(s.table, i, Ready);
      }
      forall i: nat | i < 64
        ensures Dist(s.current, i) == if i >= s.current then i - s.current else i + 64 - s.current
      {
        DistIs(s.current, i);
      }
    } else if !InState(s.table, s.current, Ready) {
      forall i: nat | i < 64 ensures s.table[i].state != Ready { assert !InState(s.table, i, Ready); }
    }
  }

  // Slot w is the first blocked one whose pid is the parent number of a slot with this pid.
  ghost predicate WakesFirst(t: seq<Pcb>, pid: int, w: nat) {
    && w < |t| && t[w].state == Blocked && Parents(t, pid, t[w].pid)
    && forall i: nat | i < w :: t[i].state == Blocked ==> !Parents(t, pid, t[i].pid)
  }

  ghost predicate Parents(t: seq<Pcb>, pid: int, parent: int) {
    exists j: nat :: j < |t| && t[j].pid == pid && t[j].parent == parent
  }

  lemma FirstAwaits(t: seq<Pcb>, pid: int, w: nat)
    ensures WakesFirst(t, pid, w) <==> Awaits(t, pid, w) && forall j: nat | j < w :: !Awaits(t, pid, j)
  {
    hide Awaits, Parents;
    forall j: nat ensures Awaits(t, pid, j) <==> j < |t| && t[j].state == Blocked && Parents(t, pid, t[j].pid) {
      AwaitsIs(t, pid, j);
    }
  }

  lemma AwaitsIs(t: seq<Pcb>, pid: int, i: nat)
    ensures Awaits(t, pid, i) <==> i < |t| && t[i].state == Blocked && Parents(t, pid, t[i].pid)
  {
    if i < |t| && t[i].state == Blocked && Parents(t, pid, t[i].pid) {
      var j: nat :| j < |t| && t[j].pid == pid && t[j].parent == t[i].pid;
      assert IsChild(t[j], pid, t[i].pid);
    }
  }

  // The table after proc_exit has marked its caller and woken the parent; then
  // schedule is called.
  lemma ExitSlots(s: Sys, code: int, s': Sys) returns (u: Sys)
    requires Wf(s) && Exited(s, code, s')
    ensures Wf(u) && Switched(u, s') && u.current == s.current && u.nextPid == s.nextPid
    ensures u.table[s.current] == s.table[s.current].(state := Zombie, exitCode := code)
    ensures var m := s.table[s.current := s.table[s.current].(state := Zombie, exitCode := code)];
            forall i: nat | i < 64 && i != s.current ::
              u.table[i] == if WakesFirst(m, s.table[s.current].pid, i) then s.table[i].(state := Ready) else s.table[i]
  {
    hide Switched, Awaits, WakesFirst;
    var m, pid := Ended(s, code), s.table[s.current].pid;
    var t :| Woke(m, t, pid) && |t| == MAX_PROC && Switched(s.(table := t), s');
    u := s.(table := t);
    WokeSlots(m, t, pid);
    forall i: nat | i < 64 && i != s.current
      ensures u.table[i] == if WakesFirst(m, pid, i) then s.table[i].(state := Ready) else s.table[i]
    {
      assert m[i] == s.table[i];
    }
    FirstAwaits(m, pid, s.current);
    AwaitsIs(m, pid, s.current);
  }

  lemma WokeSlots(t: seq<Pcb>, t': seq<Pcb>, pid: int)
    requires Woke(t, t', pid)
    ensures |t'| == |t|
    ensures forall i: nat | i < |t| :: t'[i] == if WakesFirst(t, pid, i) then t[i].(state := Ready) else t[i]
  {
    hide Awaits, WakesFirst;
    forall i: nat ensures WakesFirst(t, pid, i) <==> Awaits(t, pid, i) && forall j: nat | j < i :: !Awaits(t, pid, j) {
      FirstAwaits(t, pid, i);
    }
  }

  // proc_waitpid, one turn: nothing without such a pid; a process that has ended
  // leaves its slot; otherwise the caller is BLOCKED and schedule is called.
  lemma WaitSlots(s: Sys, pid: int, s': Sys, i: nat)
    requires Wf(s) && Waited(s, pid, s')
    ensures (forall j: nat | j < 64 :: s.table[j].pid != pid) ==> s' == s
    ensures i < 64 && s.table[i].pid == pid && (forall j: nat | j < i :: s.table[j].pid != pid) ==>
      if s.table[i].state == Zombie then s' == s.(table := s.table[i := s.table[i].(state := Empty)])
      else Switched(s.(table := s.table[s.current := s.table[s.current].(state := Blocked)]), s')
  {
    hide Switched;
    assert i < 64 && s.table[i].pid == pid && (forall j: nat | j < i :: s.table[j].pid != pid) ==>
      FirstPid(s.table, pid, i);
  }

  // proc_spawn: the first EMPTY slot k holds a new READY process of the current slot.
  lemma SpawnSlots(s: Sys, stack: nat, pml4: nat, s': Sys) returns (k: nat)
    requires Wf(s) && Spawned(s, stack, pml4, s')
    ensures s'.current == s.current && s'.nextPid == s.nextPid + 1 && |s'.table| == 64
    ensures k < 64 && s.table[k].state == Empty && forall j: nat | j < k :: s.table[j].state != Empty
    ensures s'.table == s.table[k := Pcb(s.nextPid, Ready, s.current, 0, stack + 8192, pml4)]
  {
    k :| FirstEmpty(s.table, k) && s' == Sys(s.table[k := Child(s, stack, pml4)], s.current, s.nextPid + 1);
    forall j: nat | j < k ensures s.table[j].state != Empty { assert !InState(s.table, j, Empty); }
  }

  // ---- processes stay ----

  predicate IsActive(st: Status) { st == Ready || st == Running }

  // The call by which the process in slot i gives up: it exits, or it waits for a
  // process that has not ended.
  ghost predicate GivesUp(s: Sys, e: Event, i: nat) {
    i == s.current && (e.Exit? || (e.Wait? && WouldBlock(s.table, e.pid)))
  }

  lemma SwitchActive(s: Sys, s': Sys, i: nat)
    requires Wf(s) && Switched(s, s') && i < MAX_PROC
    ensures Wf(s') && SameProcess(s, s', i) && (IsActive(s'.table[i].state) <==> IsActive(s.table[i].state))
  {
    hide Switched;
    SwitchSlots(s, s');
  }

  // A process that is READY or RUNNING is so afterwards, unless it gives up.
  lemma ActiveIff(s: Sys, e: Event, s': Sys, i: nat)
    requires Wf(s) && Step(s, e, s') && i < MAX_PROC && IsActive(s.table[i].state)
    ensures Wf(s') && (IsActive(s'.table[i].state) <==> !GivesUp(s, e, i))
    ensures !GivesUp(s, e, i) ==> SameProcess(s, s', i)
  {
    hide Switched;
    match e {
      case Tick => SwitchActive(s, s', i);
      case Exit(code) =>
        var u := ExitSlots(s, code, s');
        SwitchActive(u, s', i);
      case Wait(pid) =>
        if HasPid(s.table, pid) {
          var k := FindPid(s.table, pid);
          WaitSlots(s, pid, s', k);
          assert forall j: nat :: FirstPid(s.table, pid, j) ==> j == k;
          if s.table[k].state != Zombie { SwitchActive(s.(table := SetState(s.table, s.current, Blocked)), s', i); }
        } else {
          assert !WouldBlock(s.table, pid);
        }
      case Spawn(stack, pml4) => var k := SpawnSlots(s, stack, pml4, s');
      case SpawnFailed =>
    }
  }

  // So over a whole run, whatever the others do.
  lemma {:induction false} ActiveStays(ss: seq<Sys>, es: seq<Event>, i: nat)
    requires IsRun(ss, es) && i < MAX_PROC && IsActive(ss[0].table[i].state)
    requires forall k | 0 <= k < |es| :: !GivesUp(ss[k], es[k], i)
    ensures forall k | 0 <= k < |ss| :: IsActive(ss[k].table[i].state) && SameProcess(ss[0], ss[k], i)
    decreases |es|
  {
    hide Step, GivesUp;
    if es != [] {
      RunTail(ss, es);
      assert !GivesUp(ss[0], es[0], i);
      ActiveIff(ss[0], es[0], ss[1], i);
      forall k | 0 <= k < |es[1..]| ensures !GivesUp(ss[1..][k], es[1..][k], i) {
        assert !GivesUp(ss[k + 1], es[k + 1], i);
      }
      ActiveStays(ss[1..], es[1..], i);
      forall k | 0 < k < |ss| ensures IsActive(ss[k].table[i].state) && SameProcess(ss[0], ss[k], i) {
        assert ss[1..][k - 1] == ss[k];
      }
    }
  }

  // ---- bounded waiting ----

  // The current slot is not READY, so schedule can leave it.
  ghost predicate Steady(s: Sys) {
    Wf(s) && !InState(s.table, s.current, Ready)
  }

  ghost predicate CallsSchedule(s: Sys, e: Event) {
    e.Tick? || e.Exit? || (e.Wait? && WouldBlock(s.table, e.pid))
  }

  ghost function Calls(ss: seq<Sys>, es: seq<Event>): nat
    requires |ss| == |es| + 1
  {
    if es == [] then 0 else (if CallsSchedule(ss[0], es[0]) then 1 else 0) + Calls(ss[1..], es[1..])
  }

  // Slot r holds the same process in both; only its state may differ.
  ghost predicate SameProcess(s: Sys, s': Sys, r: nat) {
    r < |s.table| && r < |s'.table| && s'.table[r] == s.table[r].(state := s'.table[r].state)
  }

  ghost predicate Runs(s: Sys, r: nat) {
    s.current == r && InState(s.table, r, Running)
  }

  // After a call of schedule, slot r runs or is nearer.
  lemma SwitchNearer(s: Sys, s': Sys, r: nat)
    requires Steady(s) && Switched(s, s') && InState(s.table, r, Ready)
    ensures Steady(s')
    ensures Runs(s', r) || (InState(s'.table, r, Ready) && Dist(s'.current, r) < Dist(s.current, r))
    ensures SameProcess(s, s', r)
  {
    var n: nat :| Nearest(s.table, s.current, n) && s' == ResumeAt(s, n);
    DistBack(s.current, r);
    DistBack(s.current, n);
    Between(s.current, n, r);
  }

  lemma Between(c: nat, n: nat, r: nat)
    requires c < MAX_PROC && n < MAX_PROC && r < MAX_PROC && n != c && Dist(c, n) <= Dist(c, r)
    ensures Dist(n, r) < Dist(c, r)
  {
    hide Dist;
    DistIs(c, n);
    DistIs(c, r);
    DistIs(n, r);
  }

  lemma DistIs(c: nat, r: nat)
    requires c < MAX_PROC && r < MAX_PROC
    ensures Dist(c, r) == if r >= c then r - c else r + MAX_PROC - c
  {
  }

  lemma StepNearer(s: Sys, e: Event, s': Sys, r: nat)
    requires Steady(s) && Step(s, e, s') && InState(s.table, r, Ready)
    ensures Steady(s')
    ensures Runs(s', r) || (InState(s'.table, r, Ready)
      && Dist(s'.current, r) <= Dist(s.current, r) - if CallsSchedule(s, e) then 1 else 0)
    ensures SameProcess(s, s', r)
  {
    hide Nearest, NoneReady, Switched, Dist;
    match e {
      case Tick => SwitchNearer(s, s', r);
      case Exit(code) =>
        var t :| Woke(Ended(s, code), t, s.table[s.current].pid) && |t| == MAX_PROC && Switched(s.(table := t), s');
        SwitchNearer(s.(table := t), s', r);
      case Wait(pid) =>
        if HasPid(s.table, pid) {
          var i := FindPid(s.table, pid);
          if s.table[i].state != Zombie {
            SwitchNearer(s.(table := SetState(s.table, s.current, Blocked)), s', r);
          } else {
            assert forall j: nat :: FirstPid(s.table, pid, j) ==> j == i;
          }
        }
      case _ =>
    }
  }

  // A READY process at distance d runs within d calls of schedule, whatever else
  // happens in between.
  lemma {:induction false} BoundedWaiting(ss: seq<Sys>, es: seq<Event>, r: nat)
    requires IsRun(ss, es) && Steady(ss[0]) && InState(ss[0].table, r, Ready)
    requires Calls(ss, es) >= Dist(ss[0].current, r)
    ensures exists k: nat :: k < |ss| && Runs(ss[k], r) && SameProcess(ss[0], ss[k], r)
              && Calls(ss[..k + 1], es[..k]) <= Dist(ss[0].current, r)
    decreases |es|
  {
    hide Step, Switched, Nearest, CallsSchedule;
    DistBack(ss[0].current, r);
    if es != [] {
      RunTail(ss, es);
      StepNearer(ss[0], es[0], ss[1], r);
      if Runs(ss[1], r) {
        assert ss[..2][1..] == [ss[1]] && es[..1][1..] == [];
        assert Calls(ss[..2], es[..1]) <= 1;
      } else {
        BoundedWaiting(ss[1..], es[1..], r);
        var k: nat :| k < |ss[1..]| && Runs(ss[1..][k], r) && SameProcess(ss[1], ss[1..][k], r)
          && Calls(ss[1..][..k + 1], es[1..][..k]) <= Dist(ss[1].current, r);
        assert ss[..k + 2][1..] == ss[1..][..k + 1] && es[..k + 1][1..] == es[1..][..k];
        assert ss[1..][k] == ss[k + 1];
        assert Calls(ss[..k + 2], es[..k + 1]) <= Dist(ss[0].current, r);
      }
    }
  }

  // A process that schedule has put aside runs again within as many calls of
  // schedule as its slot comes after the one that runs now.
  lemma RunsAgain(ss: seq<Sys>, es: seq<Event>)
    requires IsRun(ss, es) && es != [] && es[0] == Tick && OneRunning(ss[0])
    requires ss[0].table[ss[0].current].state == Running && ss[1].current != ss[0].current
    requires Calls(ss[1..], es[1..]) >= 63
    ensures exists k: nat :: 0 < k < |ss| && Runs(ss[k], ss[0].current) && SameProcess(ss[0], ss[k], ss[0].current)
              && Calls(ss[1..k + 1], es[1..k]) <= 63
  {
    hide Step, Switched, Nearest, CallsSchedule;
    var i := ss[0].current;
    RunTail(ss, es);
    Preempted(ss[0], ss[1]);
    DistBack(ss[1].current, i);
    BoundedWaiting(ss[1..], es[1..], i);
    var k: nat :| k < |ss[1..]| && Runs(ss[1..][k], i) && SameProcess(ss[1], ss[1..][k], i)
      && Calls(ss[1..][..k + 1], es[1..][..k]) <= Dist(ss[1].current, i);
    assert ss[1..k + 2] == ss[1..][..k + 1] && es[1..k + 1] == es[1..][..k] && ss[1..][k] == ss[k + 1];
  }

  lemma Preempted(s: Sys, s': Sys)
    requires Wf(s) && Step(s, Tick, s') && s.table[s.current].state == Running && s'.current != s.current
    ensures Steady(s') && InState(s'.table, s.current, Ready) && SameProcess(s, s', s.current)
  {
    SwitchSlots(s, s');
  }

  // The condition is needed: from a READY current slot, schedule never leaves.
  lemma {:induction false} ReadySlotStays(ss: seq<Sys>, es: seq<Event>)
    requires IsRun(ss, es) && InState(ss[0].table, ss[0].current, Ready)
    requires forall i | 0 <= i < |es| :: es[i] == Tick
    ensures forall k | 0 <= k < |ss| :: ss[k] == ss[0]
    decreases |es|
  {
    if es != [] {
      RunTail(ss, es);
      assert ss[1] == ss[0];
      ReadySlotStays(ss[1..], es[1..]);
      forall k | 0 < k < |ss| ensures ss[k] == ss[0] { assert ss[1..][k - 1] == ss[k]; }
    }
  }

  // ---- pids, and who is woken ----

  ghost predicate PidsOk(s: Sys) {
    && s.nextPid >= 1
    && (forall i: nat | i < |s.table| :: -1 <= s.table[i].pid < s.nextPid)
    && forall i: nat, j: nat :: i < j < |s.table| ==> s.table[i].pid == s.table[j].pid ==> s.table[i].pid == -1
  }

  ghost predicate SamePids(t: seq<Pcb>, t': seq<Pcb>) {
    |t'| == |t| && forall i: nat | i < |t| :: t'[i].pid == t[i].pid
  }

  lemma SwitchPids(s: Sys, s': Sys)
    requires Wf(s) && Switched(s, s')
    ensures SamePids(s.table, s'.table) && s'.nextPid == s.nextPid
  {
  }

  lemma PidsKept(s: Sys, s': Sys)
    requires PidsOk(s) && SamePids(s.table, s'.table) && s'.nextPid == s.nextPid
    ensures PidsOk(s')
  {
  }

  lemma StepPids(s: Sys, e: Event, s': Sys)
    requires Wf(s) && Step(s, e, s') && PidsOk(s)
    ensures PidsOk(s')
  {
    hide Nearest, NoneReady, Switched, Awaits, PidsOk;
    match e {
      case Tick =>
        SwitchPids(s, s');
        PidsKept(s, s');
      case Exit(code) =>
        var t :| Woke(Ended(s, code), t, s.table[s.current].pid) && |t| == MAX_PROC && Switched(s.(table := t), s');
        SwitchPids(s.(table := t), s');
        PidsKept(s, s');
      case Wait(pid) =>
        if HasPid(s.table, pid) {
          var i := FindPid(s.table, pid);
          if s.table[i].state != Zombie { SwitchPids(s.(table := SetState(s.table, s.current, Blocked)), s'); }
          PidsKept(s, s');
        }
      case Spawn(stack, pml4) => SpawnPids(s, stack, pml4, s');
      case SpawnFailed =>
    }
  }

  lemma SpawnPids(s: Sys, stack: nat, pml4: nat, s': Sys)
    requires Wf(s) && Spawned(s, stack, pml4, s') && PidsOk(s)
    ensures PidsOk(s')
  {
  }

  // When the current process exits, the blocked process that goes on is the one
  // whose pid is the number of the slot that spawned it.
  lemma WokenIff(s: Sys, code: int, s': Sys, i: nat)
    requires Wf(s) && PidsOk(s) && Exited(s, code, s') && s.table[s.current].pid >= 0
    requires InState(s.table, i, Blocked) && i != s.current
    requires s.table[s.current].parent >= 0
    ensures Wf(s')
    ensures if s.table[i].pid == s.table[s.current].parent then IsActive(s'.table[i].state)
            else InState(s'.table, i, Blocked)
  {
    hide Nearest, NoneReady;
    var c := s.current;
    var u := Ended(s, code);
    var t :| Woke(u, t, s.table[c].pid) && |t| == MAX_PROC && Switched(s.(table := t), s');
    forall j: nat ensures Awaits(u, s.table[c].pid, j) <==> InState(u, j, Blocked) && u[j].pid == u[c].parent {
      if InState(u, j, Blocked) && u[j].pid == u[c].parent { assert IsChild(u[c], s.table[c].pid, u[j].pid); }
    }
    KeepsBlocked(s.(table := t), s', i);
  }

  lemma KeepsBlocked(s: Sys, s': Sys, i: nat)
    requires Wf(s) && Switched(s, s') && i < MAX_PROC
    ensures Wf(s') && (InState(s'.table, i, Blocked) <==> InState(s.table, i, Blocked))
  {
  }

  // So a process that waits for its child is woken by the child's exit exactly
  // if its pid is its slot number.
  lemma WaiterWokenIff(s: Sys, code: int, s': Sys)
    requires Wf(s) && PidsOk(s) && Exited(s, code, s') && s.table[s.current].pid >= 0
    requires var w := s.table[s.current].parent; w >= 0 && InState(s.table, w, Blocked) && w != s.current
    ensures var w: nat := s.table[s.current].parent;
            Wf(s') && if s.table[w].pid == w then IsActive(s'.table[w].state) else InState(s'.table, w, Blocked)
  {
    WokenIff(s, code, s', s.table[s.current].parent);
  }

  // Waiting again for a process already reaped does not fail: it blocks.
  lemma WaitAgainBlocks(s: Sys, pid: int, s': Sys, s2: Sys)
    requires Wf(s) && Alive(s) && HasPid(s.table, pid) && !WouldBlock(s.table, pid)
    requires Waited(s, pid, s') && Wf(s') && Waited(s', pid, s2)
    ensures WouldBlock(s'.table, pid) && Wf(s2) && InState(s2.table, s.current, Blocked)
  {
    hide Nearest, NoneReady, Switched;
    var i := FindPid(s.table, pid);
    assert FirstPid(s'.table, pid, i);
    var u := s'.(table := SetState(s'.table, s'.current, Blocked));
    KeepsBlocked(u, s2, s.current);
  }

  // ---- the first state ----

  function Unused(): Pcb { Pcb(-1, Empty, 0, 0, 0, 0) }

  function Rest(): (r: seq<Pcb>)
    ensures |r| == 61 && forall i | 0 <= i < 61 :: r[i] == Unused()
  {
    seq(61, _ => Unused())
  }

  // Three slots that matter, and 61 that were never used.
  function Three(a: Pcb, b: Pcb, c: Pcb, current: nat, nextPid: int): (s: Sys)
    ensures |s.table| == MAX_PROC && s.table[0] == a && s.table[1] == b && s.table[2] == c
    ensures forall i: nat | 3 <= i < MAX_PROC :: s.table[i] == Unused()
  {
    Sys([a, b, c] + Rest(), current, nextPid)
  }

  function Idle(st: Status, rsp0: nat, pml4: nat): Pcb { Pcb(0, st, 0, 0, rsp0, pml4) }

  // process_init
  function Boot(rsp0: nat, pml4: nat): Sys {
    Three(Idle(Ready, rsp0, pml4), Unused(), Unused(), 0, 1)
  }

  lemma BootOk(rsp0: nat, pml4: nat)
    ensures var s := Boot(rsp0, pml4); Wf(s) && OneRunning(s) && PidsOk(s) && Alive(s)
    ensures var s := Boot(rsp0, pml4); s.current == 0 && s.nextPid == 1 && s.table[0] == Pcb(0, Ready, 0, 0, rsp0, pml4)
    ensures forall i: nat | 0 < i < 64 :: Boot(rsp0, pml4).table[i] == Pcb(-1, Empty, 0, 0, 0, 0)
  {
  }
}
