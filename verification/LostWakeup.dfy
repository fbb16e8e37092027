/**
  A run of the scheduler in which a process waits for its child for ever,
  because its slot had been used before and its pid is not its slot number.
 */
module LostWakeup {
  import opened Scheduling

  // Where the stack and the page-table root of a process begin.
  datatype Kit = Kit(stack: nat, root: nat)

  // What the three spawns of the run get, and the idle process at boot.
  datatype Kits = Kits(first: Kit, second: Kit, third: Kit, rsp0: nat, cr3: nat) {
    function Idle(st: Status): Pcb { Scheduling.Idle(st, rsp0, cr3) }
    function First(st: Status): Pcb { Pcb(1, st, 0, 0, first.stack + 8192, first.root) }
    function Second(st: Status): Pcb { Pcb(2, st, 0, 0, second.stack + 8192, second.root) }
    function Third(st: Status): Pcb { Pcb(3, st, 1, 0, third.stack + 8192, third.root) }
  }

  lemma SpawnStep(s: Sys, k: Kit, slot: nat, s': Sys)
    requires Wf(s) && Alive(s) && FirstEmpty(s.table, slot)
    requires s' == Sys(s.table[slot := Child(s, k.stack, k.root)], s.current, s.nextPid + 1)
    ensures Step(s, Spawn(k.stack, k.root), s')
  {
  }

  lemma SwitchStep(s: Sys, r: nat, s': Sys)
    requires Wf(s) && InState(s.table, r, Ready) && !InState(s.table, s.current, Ready) && s' == ResumeAt(s, r)
    requires forall i: nat | InState(s.table, i, Ready) :: i == r
    ensures Switched(s, s')
  {
    assert Nearest(s.table, s.current, r);
  }

  // The caller waits for the process in slot i, and only slot r can go on.
  lemma WaitStep(s: Sys, pid: int, i: nat, r: nat, s': Sys)
    requires Wf(s) && Alive(s) && FirstPid(s.table, pid, i) && s.table[i].state != Zombie
    requires var u := s.(table := SetState(s.table, s.current, Blocked));
             && InState(u.table, r, Ready) && s' == ResumeAt(u, r)
             && forall j: nat | InState(u.table, j, Ready) :: j == r
    ensures Step(s, Wait(pid), s')
  {
    hide Nearest, NoneReady;
    SwitchStep(s.(table := SetState(s.table, s.current, Blocked)), r, s');
  }

  lemma ReapStep(s: Sys, pid: int, i: nat, s': Sys)
    requires Wf(s) && Alive(s) && FirstPid(s.table, pid, i) && s.table[i].state == Zombie
    requires s' == s.(table := SetState(s.table, i, Empty))
    ensures Step(s, Wait(pid), s')
  {
    hide Switched;
  }

  // The current process exits; t is the table with its parent woken, if it is.
  lemma ExitStep(s: Sys, t: seq<Pcb>, s': Sys)
    requires Wf(s) && Alive(s) && |t| == MAX_PROC
    requires Woke(Ended(s, 0), t, s.table[s.current].pid) && Switched(s.(table := t), s')
    ensures Step(s, Exit(0), s')
  {
    hide Woke, Switched;
  }

  function States(k: Kits): (ss: seq<Sys>)
    ensures |ss| == 10
  {
    [ Boot(k.rsp0, k.cr3),
      Three(k.Idle(Ready), k.First(Ready), Unused(), 0, 2),
      Three(k.Idle(Blocked), k.First(Running), Unused(), 1, 2),
      Three(k.Idle(Running), k.First(Zombie), Unused(), 0, 2),
      Three(k.Idle(Running), k.First(Empty), Unused(), 0, 2),
      Three(k.Idle(Running), k.Second(Ready), Unused(), 0, 3),
      Three(k.Idle(Blocked), k.Second(Running), Unused(), 1, 3),
      Three(k.Idle(Blocked), k.Second(Running), k.Third(Ready), 1, 4),
      Three(k.Idle(Blocked), k.Second(Blocked), k.Third(Running), 2, 4),
      Three(k.Idle(Blocked), k.Second(Blocked), k.Third(Zombie), 2, 4) ]
  }

  function Events(k: Kits): (es: seq<Event>)
    ensures |es| == 9
  {
    [ Spawn(k.first.stack, k.first.root), Wait(1), Exit(0), Wait(1), Spawn(k.second.stack, k.second.root), Wait(2),
      Spawn(k.third.stack, k.third.root), Wait(3), Exit(0) ]
  }

  lemma FirstLife(k: Kits)
    ensures var ss := States(k);
            Step(ss[0], Events(k)[0], ss[1]) && Step(ss[1], Events(k)[1], ss[2]) && Step(ss[3], Events(k)[3], ss[4])
  {
    hide Nearest, NoneReady, Switched, Woke, Awaits, Step;
    var ss := States(k);
    SpawnStep(ss[0], k.first, 1, ss[1]);
    WaitStep(ss[1], 1, 1, 1, ss[2]);
    ReapStep(ss[3], 1, 1, ss[4]);
  }

  lemma FirstExit(k: Kits)
    ensures var ss := States(k); Step(ss[2], Events(k)[2], ss[3])
  {
    hide Nearest, NoneReady, Switched, Step;
    var ss := States(k);
    var u := Ended(ss[2], 0);
    assert IsChild(u[1], 1, u[0].pid);
    assert Awaits(u, 1, 0);
    var t := SetState(u, 0, Ready);
    SwitchStep(ss[2].(table := t), 0, ss[3]);
    ExitStep(ss[2], t, ss[3]);
  }

  lemma SecondLife(k: Kits)
    ensures var ss := States(k);
            && Step(ss[4], Events(k)[4], ss[5]) && Step(ss[5], Events(k)[5], ss[6])
            && Step(ss[6], Events(k)[6], ss[7]) && Step(ss[7], Events(k)[7], ss[8])
  {
    hide Nearest, NoneReady, Switched, Woke, Awaits, Step;
    var ss := States(k);
    SpawnStep(ss[4], k.second, 1, ss[5]);
    WaitStep(ss[5], 2, 1, 1, ss[6]);
    SpawnStep(ss[6], k.third, 2, ss[7]);
    WaitStep(ss[7], 3, 2, 2, ss[8]);
  }

  // The child names slot 1 as its parent, where the process with pid 2 waits.
  lemma SecondExit(k: Kits)
    ensures var ss := States(k); Step(ss[8], Events(k)[8], ss[9])
  {
    hide Nearest, Step;
    var ss := States(k);
    var u := Ended(ss[8], 0);
    assert forall i: nat :: !Awaits(u, 3, i);
    ExitStep(ss[8], u, ss[9]);
  }

  // A state that only schedule's own calls continue, and they change nothing.
  ghost predicate Stuck(s: Sys) {
    Wf(s) && NoneReady(s.table) && !Alive(s)
  }

  lemma {:induction false} StuckForEver(ss: seq<Sys>, es: seq<Event>)
    requires IsRun(ss, es) && Stuck(ss[0])
    ensures forall k | 0 <= k < |ss| :: ss[k] == ss[0]
    decreases |es|
  {
    if es != [] {
      RunTail(ss, es);
      StuckForEver(ss[1..], es[1..]);
      forall k | 0 < k < |ss| ensures ss[k] == ss[0] { assert ss[1..][k - 1] == ss[k]; }
    }
  }

  // From boot the system can reach a state in which the child of the process in
  // slot 1 has exited, its parent is still blocked, and nothing ever changes.
  lemma LostWakeup(k: Kits)
    ensures var ss := States(k);
            && ss[0] == Boot(k.rsp0, k.cr3) && IsRun(ss, Events(k)) && Stuck(ss[9])
            && InState(ss[9].table, 1, Blocked) && InState(ss[9].table, 2, Zombie) && ss[9].table[2].parent == 1
  {
    hide Step;
    FirstLife(k);
    FirstExit(k);
    SecondLife(k);
    SecondExit(k);
    var ss := States(k);
    forall i | 0 <= i < 9 ensures Step(ss[i], Events(k)[i], ss[i + 1]) { }
  }
}
