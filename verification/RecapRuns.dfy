/** Whole runs of the recap protocol: barrier, mutual exclusion, shutdown and the log. */
module RecapRuns {
  import opened Sums
  import opened Recap

  function Gathered(s: State): nat {
    match s.main case Forking(_) => 0 case Gathering(i) => i case _ => |s.children|
  }

  function Opened(s: State): nat {
    match s.main case Forking(_) => 0 case Gathering(_) => 0 case Opening(i) => i case _ => |s.children|
  }

  ghost predicate MainOk(s: State) {
    && (s.main.Forking? || s.main.Gathering? || s.main.Opening? || s.main.Reaping? ==> s.main.i <= |s.children|)
    && s.end == (if s.main.Reaping? || s.main.Reported? then 1 else 0)
    && forall p :: 0 <= p < |s.children| ==> (s.children[p].pc.Unborn? <==> s.main.Forking? && p >= s.main.i)
  }

  /** The semaphores balance: one holder of the critical section, ready posts against ready waits,
      go posts against children past the gate. */
  ghost predicate Sems(s: State) {
    && s.cs + Sum(s.children, Crit) == 1
    && s.ready + Gathered(s) == Sum(s.children, Posted)
    && s.go + Sum(s.children, Passed) == Opened(s)
  }

  ghost predicate ChildrenOk(m: nat, s: State) {
    forall p :: 0 <= p < |s.children| ==> ChildOk(m, s.end, s.children[p])
  }

  function Count(log: seq<nat>, i: nat): nat {
    if log == [] then 0 else Count(log[..|log| - 1], i) + (if log[|log| - 1] == i then 1 else 0)
  }

  lemma CountSnoc(log: seq<nat>, x: nat, i: nat)
    ensures Count(log + [x], i) == Count(log, i) + (if x == i then 1 else 0)
  {
    assert (log + [x])[..|log|] == log;
  }

  /** The log holds `m` entries for each finished round of each child, and those of the running round. */
  ghost predicate LogOk(m: nat, s: State) {
    && (forall k :: 0 <= k < |s.log| ==> s.log[k] < |s.children|)
    && forall p :: 0 <= p < |s.children| ==>
         Count(s.log, p) == if s.children[p].rounds == 0 then 0 else Entries(m, s.children[p])
  }

  /** `wait` has returned only for children that have exited. */
  ghost predicate Reaped(s: State) {
    && (s.main.Reaping? ==> s.main.i <= Sum(s.children, IsExited))
    && (s.main.Reported? ==> Sum(s.children, IsExited) >= |s.children|)
  }

  ghost predicate Inv(m: nat, s: State) {
    MainOk(s) && Sems(s) && ChildrenOk(m, s) && LogOk(m, s) && Reaped(s)
  }

  // ---- main ----

  lemma ForkInv(m: nat, s: State)
    requires Inv(m, s) && s.main.Forking? && s.main.i < |s.children|
    ensures Inv(m, MainMove(s).value)
  {
    var i := s.main.i;
    var c := s.children[i].(pc := Starting);
    SumUpdate(s.children, i, c, Crit);
    SumUpdate(s.children, i, c, Posted);
    SumUpdate(s.children, i, c, Passed);
  }

  lemma PostEndOk(m: nat, c: Child)
    requires ChildOk(m, 0, c)
    ensures ChildOk(m, 1, c)
  {
  }

  lemma MainMoveInv(m: nat, s: State)
    requires Inv(m, s) && MainMove(s).Some?
    ensures Inv(m, MainMove(s).value)
  {
    if s.main.Forking? && s.main.i < |s.children| {
      ForkInv(m, s);
    } else {
      assert MainMove(s).value.children == s.children && MainMove(s).value.log == s.log;
      if s.main.Sleeping? {
        forall p | 0 <= p < |s.children| ensures ChildOk(m, 1, s.children[p]) { PostEndOk(m, s.children[p]); }
      }
    }
  }

  lemma ReapedMove(s: State, s': State, i: nat)
    requires Reaped(s) && i < |s.children| && s'.main == s.main
    requires |s'.children| == |s.children| && s'.children == s.children[i := s'.children[i]]
    requires s.children[i].pc.Exited? ==> s'.children[i].pc.Exited?
    ensures Reaped(s')
  {
    SumUpdate(s.children, i, s'.children[i], IsExited);
  }

  // ---- a child ----

  lemma NoThreadsWeigh(m: nat)
    ensures Sum(NoThreads(m), ThreadCrit) == 0 && Sum(NoThreads(m), ThreadWritten) == 0
  {
    SumBound(NoThreads(m), ThreadCrit, 0);
    SumBound(NoThreads(m), ThreadWritten, 0);
  }

  /** Creating a thread writes nothing; a new round starts with everything of the last one written. */
  lemma ChildMoveWeighs(m: nat, s: State, i: nat)
    requires i < |s.children| && ChildOk(m, s.end, s.children[i]) && ChildMove(m, s, i).Some?
    ensures var c, c' := s.children[i], ChildMove(m, s, i).value.children[i];
      && Crit(c') == Crit(c)
      && (c'.rounds == 0 <==> c'.rounds == c.rounds == 0)
      && (if c'.rounds == 0 then 0 else Entries(m, c')) == (if c.rounds == 0 then 0 else Entries(m, c))
  {
    var c := s.children[i];
    NoThreadsWeigh(m);
    match c.pc {
      case AtGate =>
        SumBound(c.threads, ThreadCrit, 0);
        assert m * 1 - m == 0;
      case Creating(j) =>
        if j < m {
          SumUpdate(c.threads, j, Waiting, ThreadCrit);
          SumUpdate(c.threads, j, Waiting, ThreadWritten);
        }
      case Decided(stop) =>
        SumBound(c.threads, ThreadCrit, 0);
        SumUniform(c.threads, ThreadWritten, 1);
        assert m * (c.rounds + 1) == m * c.rounds + m;
      case _ =>
    }
  }

  lemma ChildMoveOk(m: nat, s: State, i: nat)
    requires i < |s.children| && ChildOk(m, s.end, s.children[i]) && ChildMove(m, s, i).Some?
    ensures ChildOk(m, s.end, ChildMove(m, s, i).value.children[i])
  {
  }

  lemma ChildMovePosts(m: nat, s: State, i: nat)
    requires i < |s.children| && ChildMove(m, s, i).Some?
    ensures var s' := ChildMove(m, s, i).value;
      && s'.ready - Posted(s'.children[i]) == s.ready - Posted(s.children[i])
      && s'.go + Passed(s'.children[i]) == s.go + Passed(s.children[i])
  {
  }

  lemma ChildMoveSems(m: nat, s: State, i: nat)
    requires Sems(s) && i < |s.children| && ChildOk(m, s.end, s.children[i]) && ChildMove(m, s, i).Some?
    ensures Sems(ChildMove(m, s, i).value)
  {
    var c := ChildMove(m, s, i).value.children[i];
    ChildMoveShape(m, s, i);
    ChildMoveWeighs(m, s, i);
    ChildMovePosts(m, s, i);
    SumUpdate(s.children, i, c, Crit);
    SumUpdate(s.children, i, c, Posted);
    SumUpdate(s.children, i, c, Passed);
  }

  lemma ChildMoveShape(m: nat, s: State, i: nat)
    requires i < |s.children| && ChildMove(m, s, i).Some?
    ensures var s' := ChildMove(m, s, i).value;
      && |s'.children| == |s.children| && s'.children == s.children[i := s'.children[i]]
      && s'.log == s.log && s'.main == s.main && s'.end == s.end && s'.cs == s.cs
      && !s.children[i].pc.Unborn? && !s'.children[i].pc.Unborn? && !s.children[i].pc.Exited?
  {
  }

  lemma ChildMoveInv(m: nat, s: State, i: nat)
    requires Inv(m, s) && i < |s.children| && ChildMove(m, s, i).Some?
    ensures Inv(m, ChildMove(m, s, i).value)
  {
    var s' := ChildMove(m, s, i).value;
    ChildMoveShape(m, s, i);
    ChildMoveOk(m, s, i);
    ChildMoveWeighs(m, s, i);
    ChildMoveSems(m, s, i);
    ReapedMove(s, s', i);
  }

  // ---- a thread ----

  lemma ThreadMoveOk(m: nat, s: State, i: nat, j: nat)
    requires i < |s.children| && j < |s.children[i].threads| && ChildOk(m, s.end, s.children[i])
        && ThreadMove(s, i, j).Some?
    ensures var c, c' := s.children[i], ThreadMove(s, i, j).value.children[i];
      && ChildOk(m, s.end, c') && c'.pc == c.pc && c'.rounds == c.rounds && c.rounds >= 1
      && Crit(c') + ThreadMove(s, i, j).value.cs == Crit(c) + s.cs
      && Entries(m, c') == Entries(m, c) + (if c.threads[j].Inside? then 1 else 0)
  {
    var c, c' := s.children[i], ThreadMove(s, i, j).value.children[i];
    SumUpdate(c.threads, j, c'.threads[j], ThreadCrit);
    SumUpdate(c.threads, j, c'.threads[j], ThreadWritten);
  }

  lemma ThreadMoveInv(m: nat, s: State, i: nat, j: nat)
    requires Inv(m, s) && i < |s.children| && j < |s.children[i].threads| && ThreadMove(s, i, j).Some?
    ensures Inv(m, ThreadMove(s, i, j).value)
  {
    var s' := ThreadMove(s, i, j).value;
    var c := s'.children[i];
    ThreadMoveOk(m, s, i, j);
    SumUpdate(s.children, i, c, Crit);
    SumUpdate(s.children, i, c, Posted);
    SumUpdate(s.children, i, c, Passed);
    ThreadMoveLog(m, s, i, j);
    ReapedMove(s, s', i);
  }

  lemma ThreadMoveLog(m: nat, s: State, i: nat, j: nat)
    requires LogOk(m, s) && ChildrenOk(m, s) && i < |s.children| && j < |s.children[i].threads|
        && ThreadMove(s, i, j).Some?
    ensures LogOk(m, ThreadMove(s, i, j).value)
  {
    var s' := ThreadMove(s, i, j).value;
    ThreadMoveOk(m, s, i, j);
    forall p | 0 <= p < |s'.children|
      ensures Count(s'.log, p) == if s'.children[p].rounds == 0 then 0 else Entries(m, s'.children[p])
    {
      CountSnoc(s.log, i, p);
    }
  }

  lemma StepInv(m: nat, s: State, a: Action)
    requires Inv(m, s) && Step(m, s, a).Some?
    ensures Inv(m, Step(m, s, a).value)
  {
    match a {
      case MainStep => MainMoveInv(m, s);
      case ChildStep(i) => ChildMoveInv(m, s, i);
      case ThreadStep(i, j) => ThreadMoveInv(m, s, i, j);
    }
  }

  lemma InitInv(n: nat, m: nat)
    ensures Inv(m, Init(n, m))
  {
    var cs := Init(n, m).children;
    NoThreadsWeigh(m);
    SumBound(cs, Crit, 0);
    SumBound(cs, Posted, 0);
    SumBound(cs, Passed, 0);
  }

  lemma StepChildren(m: nat, s: State, a: Action)
    requires Step(m, s, a).Some?
    ensures |Step(m, s, a).value.children| == |s.children|
  {
  }

  lemma {:induction false} RunInv(m: nat, s: State, sched: seq<Action>)
    requires Inv(m, s) && Exec(m, s, sched).Some?
    ensures Inv(m, Exec(m, s, sched).value) && |Exec(m, s, sched).value.children| == |s.children|
    decreases |sched|
  {
    if sched == [] {
    } else {
      StepInv(m, s, sched[0]);
      StepChildren(m, s, sched[0]);
      RunInv(m, Step(m, s, sched[0]).value, sched[1..]);
    }
  }

  // ---- main results ----

  /** Barrier: while any child has yet to report ready, no child is past the gate, no thread exists
      and the log is empty. */
  lemma Barrier(m: nat, s: State)
    requires Inv(m, s) && exists p :: 0 <= p < |s.children| && Posted(s.children[p]) == 0
    ensures s.log == []
    ensures forall q :: 0 <= q < |s.children| ==>
      Passed(s.children[q]) == 0 && forall j :: 0 <= j < |s.children[q].threads| ==> s.children[q].threads[j].Absent?
  {
    var cs := s.children;
    var p :| 0 <= p < |cs| && Posted(cs[p]) == 0;
    NotAll(cs, p, Posted);
    SumLe(cs, Passed, Posted);
    assert Opened(s) == 0;
    forall q | 0 <= q < |cs| ensures Passed(cs[q]) == 0 { SumUpdate(cs, q, cs[q], Passed); }
    if s.log != [] {
      var x := s.log[|s.log| - 1];
      assert Count(s.log, x) >= 1;
    }
  }

  lemma NotAll(cs: seq<Child>, p: nat, f: Child -> nat)
    requires p < |cs| && f(cs[p]) == 0 && forall q :: 0 <= q < |cs| ==> f(cs[q]) <= 1
    ensures Sum(cs, f) < |cs|
  {
    NotAllTo(cs, p, f, |cs|);
  }

  lemma {:induction false} NotAllTo(cs: seq<Child>, p: nat, f: Child -> nat, n: nat)
    requires p < n <= |cs| && f(cs[p]) == 0 && forall q :: 0 <= q < |cs| ==> f(cs[q]) <= 1
    ensures SumTo(cs, f, n) < n
  {
    if p == n - 1 { SumToBound(cs, f, 1, n - 1); } else { NotAllTo(cs, p, f, n - 1); }
  }

  /** Mutual exclusion across processes: one thread at most is between its wait and its post. */
  lemma OneWriter(m: nat, s: State, i: nat, j: nat, k: nat, l: nat)
    requires Inv(m, s) && i < |s.children| && k < |s.children|
    requires j < |s.children[i].threads| && l < |s.children[k].threads|
    requires ThreadCrit(s.children[i].threads[j]) == 1 && ThreadCrit(s.children[k].threads[l]) == 1
    ensures i == k && j == l
  {
    var ti, tk := s.children[i].threads, s.children[k].threads;
    SumUpdate(ti, j, ti[j], ThreadCrit);
    SumUpdate(tk, l, tk[l], ThreadCrit);
    SumUpdate(s.children, i, s.children[i], Crit);
    if i != k {
      SumPair(s.children, i, k, Crit);
    } else if j != l {
      SumPair(ti, j, l, ThreadCrit);
    }
  }

  /** A child exits only after the end was posted, having run at least one round, and having
      started at most one since then; no child ever starts a second one. */
  lemma ShutdownRounds(m: nat, s: State, p: nat)
    requires Inv(m, s) && p < |s.children|
    ensures s.children[p].late <= 1
    ensures s.children[p].pc.Exited? ==> s.end == 1 && s.children[p].rounds >= 1
    ensures Count(s.log, p) <= m * s.children[p].rounds
  {
    var c := s.children[p];
    assert ChildOk(m, s.end, c);
    SumBound(c.threads, ThreadWritten, 1);
    assert c.rounds == 0 ==> m * c.rounds == 0;
  }

  /** When `main` has reaped its children, all have exited and the log holds exactly m entries for
      every round of every child. */
  lemma FinalLog(m: nat, s: State, p: nat)
    requires Inv(m, s) && s.main.Reported? && p < |s.children|
    ensures s.children[p].pc.Exited? && s.children[p].rounds >= 1
    ensures Count(s.log, p) == m * s.children[p].rounds
  {
    var c := s.children[p];
    if !c.pc.Exited? { NotAll(s.children, p, IsExited); }
    assert ChildOk(m, s.end, c);
    SumUniform(c.threads, ThreadWritten, 1);
  }

  // ---- from the end post on, everything winds down ----

  function ThreadRest(t: Thread): nat {
    match t case Waiting => 3 case Inside => 2 case Wrote => 1 case _ => 0
  }

  /** Steps a child and its threads still take, once the end has been posted. */
  function Rest(c: Child): nat {
    var m := |c.threads|;
    Sum(c.threads, ThreadRest) +
    match c.pc
    case Unborn => 5 * m + 7
    case Starting => 5 * m + 6
    case AtGate => 5 * m + 5
    case Creating(j) => if j <= m then 4 * (m - j) + m + 4 else 0
    case Joining(j) => if j <= m then m - j + 3 else 0
    case Checking => 2
    case Decided(stop) => if stop then 1 else 5 * m + 5
    case Exited => 0
  }

  function MainRest(s: State): nat {
    match s.main
    case Reaping(i) => if i <= |s.children| then |s.children| - i + 1 else 0
    case _ => 0
  }

  function Remaining(s: State): nat { Sum(s.children, Rest) + MainRest(s) }

  lemma ChildRest(m: nat, s: State, i: nat)
    requires i < |s.children| && ChildOk(m, s.end, s.children[i]) && s.end > 0 && ChildMove(m, s, i).Some?
    ensures Rest(ChildMove(m, s, i).value.children[i]) + 1 == Rest(s.children[i])
  {
    var c := s.children[i];
    SumBound(NoThreads(m), ThreadRest, 0);
    match c.pc {
      case AtGate => SumBound(c.threads, ThreadRest, 0);
      case Creating(j) => if j < m { SumUpdate(c.threads, j, Waiting, ThreadRest); }
      case Decided(_) => SumBound(c.threads, ThreadRest, 0);
      case _ =>
    }
  }

  /** After the end post every step of anyone uses up exactly one of the remaining steps. */
  lemma WindingDown(m: nat, s: State, a: Action)
    requires Inv(m, s) && s.end > 0 && Step(m, s, a).Some?
    ensures Remaining(Step(m, s, a).value) + 1 == Remaining(s) && Step(m, s, a).value.end > 0
  {
    var s' := Step(m, s, a).value;
    match a {
      case MainStep =>
      case ChildStep(i) =>
        ChildRest(m, s, i);
        SumUpdate(s.children, i, s'.children[i], Rest);
      case ThreadStep(i, j) =>
        ThreadStepRest(s, i, j);
        SumUpdate(s.children, i, s'.children[i], Rest);
    }
  }

  lemma ThreadStepRest(s: State, i: nat, j: nat)
    requires i < |s.children| && j < |s.children[i].threads| && ThreadMove(s, i, j).Some?
    ensures Rest(ThreadMove(s, i, j).value.children[i]) + 1 == Rest(s.children[i])
  {
    SumUpdate(s.children[i].threads, j, ThreadMove(s, i, j).value.children[i].threads[j], ThreadRest);
  }

  // ---- never stuck ----

  predicate Stuck(s: State, c: Child) {
    && (c.pc.Unborn? || c.pc.AtGate? || c.pc.Exited?)
    && forall j :: 0 <= j < |c.threads| ==> c.threads[j].Absent? || c.threads[j].Finished?
  }

  lemma ChildCanStep(m: nat, s: State, i: nat)
    requires Inv(m, s) && i < |s.children| && s.cs > 0 && !Stuck(s, s.children[i])
    ensures exists a :: Step(m, s, a).Some?
  {
    var c := s.children[i];
    assert ChildOk(m, s.end, c);
    if j :| 0 <= j < |c.threads| && !c.threads[j].Absent? && !c.threads[j].Finished? {
      assert Step(m, s, ThreadStep(i, j)).Some?;
    } else {
      assert Step(m, s, ChildStep(i)).Some?;
    }
  }

  lemma HolderCanStep(m: nat, s: State)
    requires Inv(m, s) && s.cs == 0
    ensures exists a :: Step(m, s, a).Some?
  {
    var i := SumToWitness(s.children, Crit, |s.children|);
    var j := SumToWitness(s.children[i].threads, ThreadCrit, |s.children[i].threads|);
    assert Step(m, s, ThreadStep(i, j)).Some?;
  }

  lemma MainCanStep(m: nat, s: State)
    requires Inv(m, s) && !s.main.Reported? && forall i :: 0 <= i < |s.children| ==> Stuck(s, s.children[i])
    ensures exists a :: Step(m, s, a).Some?
  {
    var cs := s.children;
    if s.main.Gathering? && s.main.i < |cs| {
      SumUniform(cs, Posted, 1);
      assert Step(m, s, MainStep).Some?;
    } else if s.main.Reaping? && s.main.i < |cs| {
      if p :| 0 <= p < |cs| && cs[p].pc.AtGate? {
        NotAll(cs, p, Passed);
        assert Step(m, s, ChildStep(p)).Some?;
      } else {
        SumUniform(cs, IsExited, 1);
        assert Step(m, s, MainStep).Some?;
      }
    } else {
      assert Step(m, s, MainStep).Some?;
    }
  }

  /** Deadlock freedom: until `main` has reported, someone can step. */
  lemma SomeoneCanStep(m: nat, s: State)
    requires Inv(m, s) && !s.main.Reported?
    ensures exists a :: Step(m, s, a).Some?
  {
    if s.cs == 0 {
      HolderCanStep(m, s);
    } else if i :| 0 <= i < |s.children| && !Stuck(s, s.children[i]) {
      ChildCanStep(m, s, i);
    } else {
      MainCanStep(m, s);
    }
  }

  lemma {:induction false} RunWindsDown(m: nat, s: State, sched: seq<Action>)
    requires Inv(m, s) && s.end > 0 && Exec(m, s, sched).Some?
    ensures Remaining(Exec(m, s, sched).value) + |sched| == Remaining(s)
    decreases |sched|
  {
    if sched == [] {
    } else {
      WindingDown(m, s, sched[0]);
      StepInv(m, s, sched[0]);
      RunWindsDown(m, Step(m, s, sched[0]).value, sched[1..]);
    }
  }

  /** How a child ends: exited after at least one round and at most one late one, all its threads logged. */
  predicate WellEnded(m: nat, log: seq<nat>, p: nat, c: Child) {
    c.pc.Exited? && c.rounds >= 1 && c.late <= 1 && Count(log, p) == m * c.rounds
  }

  /** Shutdown terminates under every scheduler: from the end post on, every run is at most
      `Remaining` steps long, and one that can go no further has reported with every child ended well. */
  lemma ShutdownTerminates(n: nat, m: nat, before: seq<Action>, after: seq<Action>)
    requires Exec(m, Init(n, m), before).Some? && Exec(m, Init(n, m), before).value.end > 0
    requires Exec(m, Exec(m, Init(n, m), before).value, after).Some?
    ensures var s := Exec(m, Init(n, m), before).value; var s' := Exec(m, s, after).value;
      && |after| <= Remaining(s)
      && |s'.children| == n
      && ((exists a :: Step(m, s', a).Some?) || s'.main.Reported?)
      && (s'.main.Reported? ==> forall p :: 0 <= p < n ==> WellEnded(m, s'.log, p, s'.children[p]))
  {
    InitInv(n, m);
    var s := Exec(m, Init(n, m), before).value;
    RunInv(m, Init(n, m), before);
    RunInv(m, s, after);
    RunWindsDown(m, s, after);
    var s' := Exec(m, s, after).value;
    if !s'.main.Reported? {
      SomeoneCanStep(m, s');
    } else {
      forall p | 0 <= p < n ensures WellEnded(m, s'.log, p, s'.children[p]) {
        FinalLog(m, s', p);
        ShutdownRounds(m, s', p);
      }
    }
  }
}
