/** The fork / barrier / rounds / shutdown protocol of the recap exercise: four semaphores, `n`
    child processes, `m` threads per round, one append-only log. */
module Recap {
  import opened Sums

  datatype Thread =
    | Absent      // not created in this round
    | Waiting     // about to wait on critical_section
    | Inside      // about to append the process id
    | Wrote       // about to post critical_section
    | Finished

  datatype ChildPc =
    | Unborn
    | Starting             // about to post main_waits_for_children
    | AtGate               // about to wait on children_wait_for_main
    | Creating(j: nat)
    | Joining(j: nat)
    | Checking             // about to read end_children_activities
    | Decided(stop: bool)
    | Exited

  /** `rounds` counts the rounds started, `late` those started after the end was posted. */
  datatype Child = Child(pc: ChildPc, threads: seq<Thread>, rounds: nat, late: nat)

  datatype MainPc =
    | Forking(i: nat)
    | Gathering(i: nat)
    | Opening(i: nat)
    | Sleeping
    | Reaping(i: nat)
    | Reported

  datatype State = State(main: MainPc, ready: nat, go: nat, end: nat, cs: nat, children: seq<Child>, log: seq<nat>)

  datatype Action = MainStep | ChildStep(i: nat) | ThreadStep(i: nat, j: nat)

  function NoThreads(m: nat): seq<Thread> { seq(m, _ => Absent) }

  function Init(n: nat, m: nat): State {
    State(Forking(0), 0, 0, 0, 1, seq(n, _ => Child(Unborn, NoThreads(m), 0, 0)), [])
  }

  function IsExited(c: Child): nat { if c.pc.Exited? then 1 else 0 }

  function MainMove(s: State): Option<State> {
    var n := |s.children|;
    match s.main
    case Forking(i) =>
      if i < n then Some(s.(main := Forking(i + 1), children := s.children[i := s.children[i].(pc := Starting)]))
      else Some(s.(main := Gathering(0)))
    case Gathering(i) =>
      if i >= n then Some(s.(main := Opening(0)))
      else if s.ready == 0 then None
      else Some(s.(main := Gathering(i + 1), ready := s.ready - 1))
    case Opening(i) =>
      if i >= n then Some(s.(main := Sleeping)) else Some(s.(main := Opening(i + 1), go := s.go + 1))
    case Sleeping => Some(s.(main := Reaping(0), end := s.end + 1))
    case Reaping(i) =>
      if i >= n then Some(s.(main := Reported))
      else if Sum(s.children, IsExited) > i then Some(s.(main := Reaping(i + 1)))
      else None
    case Reported => None
  }

  function StartRound(m: nat, s: State, c: Child): Child {
    Child(Creating(0), NoThreads(m), c.rounds + 1, c.late + (if s.end > 0 then 1 else 0))
  }

  function ChildMove(m: nat, s: State, i: nat): Option<State>
    requires i < |s.children|
  {
    var c := s.children[i];
    match c.pc
    case Unborn => None
    case Starting => Some(s.(ready := s.ready + 1, children := s.children[i := c.(pc := AtGate)]))
    case AtGate =>
      if s.go == 0 then None
      else Some(s.(go := s.go - 1, children := s.children[i := StartRound(m, s, c)]))
    case Creating(j) =>
      if j < |c.threads| then
        Some(s.(children := s.children[i := c.(pc := Creating(j + 1), threads := c.threads[j := Waiting])]))
      else Some(s.(children := s.children[i := c.(pc := Joining(0))]))
    case Joining(j) =>
      if j >= |c.threads| then Some(s.(children := s.children[i := c.(pc := Checking)]))
      else if c.threads[j].Finished? then Some(s.(children := s.children[i := c.(pc := Joining(j + 1))]))
      else None
    case Checking => Some(s.(children := s.children[i := c.(pc := Decided(s.end > 0))]))
    case Decided(stop) => Some(s.(children := s.children[i := if stop then c.(pc := Exited) else StartRound(m, s, c)]))
    case Exited => None
  }

  function ThreadMove(s: State, i: nat, j: nat): Option<State>
    requires i < |s.children| && j < |s.children[i].threads|
  {
    var c := s.children[i];
    match c.threads[j]
    case Absent => None
    case Waiting =>
      if s.cs == 0 then None
      else Some(s.(cs := s.cs - 1, children := s.children[i := c.(threads := c.threads[j := Inside])]))
    case Inside => Some(s.(log := s.log + [i], children := s.children[i := c.(threads := c.threads[j := Wrote])]))
    case Wrote => Some(s.(cs := s.cs + 1, children := s.children[i := c.(threads := c.threads[j := Finished])]))
    case Finished => None
  }

  function Step(m: nat, s: State, a: Action): Option<State> {
    match a
    case MainStep => MainMove(s)
    case ChildStep(i) => if i < |s.children| then ChildMove(m, s, i) else None
    case ThreadStep(i, j) => if i < |s.children| && j < |s.children[i].threads| then ThreadMove(s, i, j) else None
  }

  function Exec(m: nat, s: State, sched: seq<Action>): Option<State>
    decreases |sched|
  {
    if sched == [] then Some(s)
    else
      var r := Step(m, s, sched[0]);
      if r.None? then None else Exec(m, r.value, sched[1..])
  }

  // ---- one child on its own ----

  function ThreadCrit(t: Thread): nat { if t.Inside? || t.Wrote? then 1 else 0 }
  function ThreadWritten(t: Thread): nat { if t.Wrote? || t.Finished? then 1 else 0 }

  function Crit(c: Child): nat { Sum(c.threads, ThreadCrit) }
  function Posted(c: Child): nat { if c.pc.Unborn? || c.pc.Starting? then 0 else 1 }
  function Passed(c: Child): nat { if c.pc.Unborn? || c.pc.Starting? || c.pc.AtGate? then 0 else 1 }

  /** Entries a child has put in the log. */
  function Entries(m: nat, c: Child): int { m * c.rounds - m + Sum(c.threads, ThreadWritten) }

  ghost predicate ChildOk(m: nat, end: nat, c: Child) {
    && |c.threads| == m
    && (if Passed(c) == 0 then c.rounds == 0 && c.late == 0 && (forall k :: 0 <= k < m ==> c.threads[k].Absent?)
        else c.rounds >= 1)
    && (c.pc.Creating? ==> c.pc.j <= m && forall k :: 0 <= k < m ==> (c.threads[k].Absent? <==> k >= c.pc.j))
    && (c.pc.Joining? ==>
          c.pc.j <= m && forall k :: 0 <= k < m ==> !c.threads[k].Absent? && (k < c.pc.j ==> c.threads[k].Finished?))
    && (c.pc.Checking? || c.pc.Decided? || c.pc.Exited? ==> forall k :: 0 <= k < m ==> c.threads[k].Finished?)
    && (end == 0 ==> c.late == 0 && !c.pc.Exited? && c.pc != Decided(true))
    && c.late <= 1 && (c.late == 1 ==> c.pc != Decided(false))
  }
}
