/** The recap log over whole runs: append-only, in the order of the critical section; and the rounds. */
module RecapLog {
  import opened Sums
  import opened Recap
  import opened RecapRuns

  // ---- what the schedule says ----

  predicate ThreadAt(s: State, i: nat, j: nat, t: Thread) {
    i < |s.children| && j < |s.children[i].threads| && s.children[i].threads[j] == t
  }

  /** The children whose threads a schedule takes into the critical section, in order. */
  function Entered(m: nat, s: State, sched: seq<Action>): seq<nat>
    decreases |sched|
  {
    if sched == [] || Step(m, s, sched[0]).None? then []
    else EntersBy(s, sched[0]) + Entered(m, Step(m, s, sched[0]).value, sched[1..])
  }

  function EntersBy(s: State, a: Action): seq<nat> {
    if a.ThreadStep? && ThreadAt(s, a.i, a.j, Waiting) then [a.i] else []
  }

  /** The children whose threads a schedule makes write, in order. */
  function Written(m: nat, s: State, sched: seq<Action>): seq<nat>
    decreases |sched|
  {
    if sched == [] || Step(m, s, sched[0]).None? then []
    else WrittenBy(s, sched[0]) + Written(m, Step(m, s, sched[0]).value, sched[1..])
  }

  function WrittenBy(s: State, a: Action): seq<nat> {
    if a.ThreadStep? && ThreadAt(s, a.i, a.j, Inside) then [a.i] else []
  }

  // ---- append-only ----

  lemma StepAppends(m: nat, s: State, a: Action)
    requires Step(m, s, a).Some?
    ensures Step(m, s, a).value.log == s.log + WrittenBy(s, a)
  {
  }

  /** The log is append-only, and the new entries are the ids of the children whose threads wrote, in order. */
  lemma {:induction false} RunAppends(m: nat, s: State, sched: seq<Action>)
    requires Exec(m, s, sched).Some?
    ensures Exec(m, s, sched).value.log == s.log + Written(m, s, sched)
    ensures s.log <= Exec(m, s, sched).value.log
    decreases |sched|
  {
    if sched == [] {
    } else {
      StepAppends(m, s, sched[0]);
      RunAppends(m, Step(m, s, sched[0]).value, sched[1..]);
    }
  }

  // ---- in the order of the critical section ----

  /** `entered` lists the entries so far: the log, and the child of the thread that is about to write. */
  ghost predicate InOrder(s: State, entered: seq<nat>) {
    && (forall i, j :: ThreadAt(s, i, j, Inside) ==> entered == s.log + [i])
    && ((forall i, j :: !ThreadAt(s, i, j, Inside)) ==> entered == s.log)
  }

  /** With the semaphore free nobody is inside. */
  lemma NobodyInside(m: nat, s: State, i: nat, j: nat)
    requires Inv(m, s) && s.cs > 0
    ensures !ThreadAt(s, i, j, Inside)
  {
    if ThreadAt(s, i, j, Inside) {
      SumUpdate(s.children, i, s.children[i], Crit);
      SumUpdate(s.children[i].threads, j, Inside, ThreadCrit);
    }
  }

  lemma EnterInOrder(m: nat, s: State, entered: seq<nat>, i: nat, j: nat)
    requires Inv(m, s) && InOrder(s, entered) && ThreadAt(s, i, j, Waiting) && ThreadMove(s, i, j).Some?
    ensures InOrder(ThreadMove(s, i, j).value, entered + [i])
  {
    var s' := ThreadMove(s, i, j).value;
    forall p: nat, q: nat ensures !ThreadAt(s, p, q, Inside) { NobodyInside(m, s, p, q); }
    forall p: nat, q: nat | ThreadAt(s', p, q, Inside) ensures p == i {
      if p != i { assert ThreadAt(s, p, q, Inside); }
    }
    assert ThreadAt(s', i, j, Inside);
  }

  lemma WriteInOrder(m: nat, s: State, entered: seq<nat>, i: nat, j: nat)
    requires Inv(m, s) && InOrder(s, entered) && ThreadAt(s, i, j, Inside)
    ensures ThreadMove(s, i, j).Some? && InOrder(ThreadMove(s, i, j).value, entered)
  {
    var s' := ThreadMove(s, i, j).value;
    forall p: nat, q: nat ensures !ThreadAt(s', p, q, Inside) {
      if ThreadAt(s', p, q, Inside) {
        assert ThreadAt(s, p, q, Inside);
        OneWriter(m, s, p, q, i, j);
      }
    }
  }

  /** A step that neither enters nor writes leaves everybody who is inside there. */
  lemma OthersInOrder(m: nat, s: State, entered: seq<nat>, a: Action)
    requires Inv(m, s) && InOrder(s, entered) && Step(m, s, a).Some?
    requires EntersBy(s, a) == [] && WrittenBy(s, a) == []
    ensures InOrder(Step(m, s, a).value, entered)
  {
    var s' := Step(m, s, a).value;
    StepAppends(m, s, a);
    forall p: nat, q: nat ensures ThreadAt(s', p, q, Inside) <==> ThreadAt(s, p, q, Inside) {
      InsideKept(m, s, a, p, q);
    }
  }

  lemma InsideKept(m: nat, s: State, a: Action, p: nat, q: nat)
    requires Inv(m, s) && Step(m, s, a).Some? && EntersBy(s, a) == [] && WrittenBy(s, a) == []
    ensures ThreadAt(Step(m, s, a).value, p, q, Inside) <==> ThreadAt(s, p, q, Inside)
  {
    if p < |s.children| { assert ChildOk(m, s.end, s.children[p]); }
  }

  lemma StepInOrder(m: nat, s: State, entered: seq<nat>, a: Action)
    requires Inv(m, s) && InOrder(s, entered) && Step(m, s, a).Some?
    ensures InOrder(Step(m, s, a).value, entered + EntersBy(s, a))
  {
    assert entered + [] == entered;
    if EntersBy(s, a) != [] {
      EnterInOrder(m, s, entered, a.i, a.j);
    } else if WrittenBy(s, a) != [] {
      WriteInOrder(m, s, entered, a.i, a.j);
    } else {
      OthersInOrder(m, s, entered, a);
    }
  }

  lemma {:induction false} RunInOrder(m: nat, s: State, entered: seq<nat>, sched: seq<Action>)
    requires Inv(m, s) && InOrder(s, entered) && Exec(m, s, sched).Some?
    ensures InOrder(Exec(m, s, sched).value, entered + Entered(m, s, sched))
    decreases |sched|
  {
    if sched == [] {
      assert entered + [] == entered;
    } else {
      var a, s1 := sched[0], Step(m, s, sched[0]).value;
      StepInOrder(m, s, entered, a);
      StepInv(m, s, a);
      RunInOrder(m, s1, entered + EntersBy(s, a), sched[1..]);
      Regroup(entered, EntersBy(s, a), Entered(m, s1, sched[1..]));
    }
  }

  /** In every run the log lists the children in the order in which their threads went through the critical section,
      but for one that is about to write. */
  lemma LogFollowsEntries(n: nat, m: nat, sched: seq<Action>)
    requires Exec(m, Init(n, m), sched).Some?
    ensures var s := Exec(m, Init(n, m), sched).value; var entered := Entered(m, Init(n, m), sched);
      s.log <= entered && |entered| <= |s.log| + 1
  {
    InitInv(n, m);
    var s0 := Init(n, m);
    RunInOrder(m, s0, [], sched);
    var s := Exec(m, s0, sched).value;
    assert [] + Entered(m, s0, sched) == Entered(m, s0, sched);
    if i, j :| ThreadAt(s, i, j, Inside) {
      assert Entered(m, s0, sched) == s.log + [i];
    }
  }

  // ---- rounds ----

  lemma StepRounds(m: nat, s: State, a: Action, p: nat)
    requires Step(m, s, a).Some? && p < |s.children|
    ensures var s' := Step(m, s, a).value;
      && |s'.children| == |s.children|
      && s'.children[p].rounds - s.children[p].rounds
           == (if a == ChildStep(p) && (s.children[p].pc.AtGate? || s.children[p].pc == Decided(false)) then 1 else 0)
      && (s.end > 0 ==>
            s'.end > 0 && s'.children[p].late - s.children[p].late == s'.children[p].rounds - s.children[p].rounds)
  {
  }

  lemma {:induction false} RoundsAndLate(m: nat, s: State, sched: seq<Action>, p: nat)
    requires Exec(m, s, sched).Some? && p < |s.children| && s.end > 0
    ensures var s' := Exec(m, s, sched).value;
      && |s'.children| == |s.children|
      && s.children[p].rounds <= s'.children[p].rounds
      && s'.children[p].late - s.children[p].late == s'.children[p].rounds - s.children[p].rounds
    decreases |sched|
  {
    if sched == [] {
    } else {
      StepRounds(m, s, sched[0], p);
      RoundsAndLate(m, Step(m, s, sched[0]).value, sched[1..], p);
    }
  }

  /** From any moment after the end post, each child starts at most one more round in the whole rest of the run. */
  lemma AtMostOneMoreRound(m: nat, s: State, sched: seq<Action>, p: nat)
    requires Inv(m, s) && s.end > 0 && Exec(m, s, sched).Some? && p < |s.children|
    ensures var s' := Exec(m, s, sched).value;
      |s'.children| == |s.children| && s.children[p].rounds <= s'.children[p].rounds <= s.children[p].rounds + 1
  {
    RoundsAndLate(m, s, sched, p);
    RunInv(m, s, sched);
    ShutdownRounds(m, Exec(m, s, sched).value, p);
  }
}
