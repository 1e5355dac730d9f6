/** The recap program in its own form: semaphores, per-process and per-thread cells and the log, in place. */
module RecapProgram {
  import opened Sums
  import opened Recap
  import opened RecapRuns

  ghost function RowOf(threads: array2<Thread>, i: nat): (r: seq<Thread>)
    requires i < threads.Length0
    reads threads
    ensures |r| == threads.Length1 && forall j :: 0 <= j < |r| ==> r[j] == threads[i, j]
  {
    seq(threads.Length1, j requires 0 <= j < threads.Length1 reads threads => threads[i, j])
  }

  ghost function ChildrenOf(pc: array<ChildPc>, threads: array2<Thread>, rounds: seq<nat>,
      late: seq<nat>): (r: seq<Child>)
    requires threads.Length0 == pc.Length && |rounds| == |late| == pc.Length
    reads pc, threads
    ensures |r| == pc.Length && forall i :: 0 <= i < |r| ==> r[i] == Child(pc[i], RowOf(threads, i), rounds[i], late[i])
  {
    seq(pc.Length, i requires 0 <= i < pc.Length reads pc, threads =>
        Child(pc[i], RowOf(threads, i), rounds[i], late[i]))
  }

  class System {
    const m: nat
    const childPc: array<ChildPc>
    const threads: array2<Thread>    // the threads of each child's current round
    var main: MainPc
    var ready: nat      // main_waits_for_children
    var go: nat         // children_wait_for_main
    var end: nat        // end_children_activities
    var cs: nat         // critical_section
    var log: seq<nat>
    var exited: nat     // children the parent's wait can return for, or has
    ghost var rounds: seq<nat>
    ghost var late: seq<nat>

    ghost predicate Shaped()
      reads this`rounds, this`late
    {
      threads.Length0 == childPc.Length && threads.Length1 == m && |rounds| == |late| == childPc.Length
    }

    ghost function Row(i: nat): (r: seq<Thread>)
      requires Shaped() && i < childPc.Length
      reads this`rounds, this`late, threads
    {
      RowOf(threads, i)
    }

    ghost function ChildAt(i: nat): Child
      requires Shaped() && i < childPc.Length
      reads this`rounds, this`late, childPc, threads
    {
      Child(childPc[i], Row(i), rounds[i], late[i])
    }

    ghost function Children(): (r: seq<Child>)
      requires Shaped()
      reads this`rounds, this`late, childPc, threads
      ensures |r| == childPc.Length && forall i :: 0 <= i < |r| ==> r[i] == ChildAt(i)
    {
      ChildrenOf(childPc, threads, rounds, late)
    }

    ghost function Model(): State
      requires Shaped()
      reads this, childPc, threads
    {
      State(main, ready, go, end, cs, Children(), log)
    }

    ghost predicate Valid()
      reads this, childPc, threads
    {
      Shaped() && Inv(m, Model()) && exited == Sum(Children(), IsExited)
    }

    constructor (n: nat, m: nat)
      ensures Valid() && this.m == m && Model() == Init(n, m)
      ensures fresh(childPc) && fresh(threads)
    {
      this.m := m;
      childPc := new ChildPc[n](_ => Unborn);
      threads := new Thread[n, m]((_, _) => Absent);
      main, ready, go, end, cs, log, exited := Forking(0), 0, 0, 0, 1, [], 0;
      rounds, late := seq(n, _ => 0), seq(n, _ => 0);
      new;
      forall i | 0 <= i < n ensures ChildAt(i) == Child(Unborn, NoThreads(m), 0, 0) {
        assert Row(i) == NoThreads(m);
      }
      assert Children() == Init(n, m).children;
      SumBound(Children(), IsExited, 0);
      InitInv(n, m);
    }

    method SetPc(i: nat, pc: ChildPc)
      requires Shaped() && i < childPc.Length
      modifies childPc
      ensures Children() == old(Children())[i := old(ChildAt(i)).(pc := pc)]
    {
      ghost var was := Children();
      childPc[i] := pc;
      forall q | 0 <= q < childPc.Length ensures Row(q) == old(Row(q)) { }
      assert Children() == was[i := was[i].(pc := pc)];
    }

    method SetThread(i: nat, j: nat, t: Thread)
      requires Shaped() && i < childPc.Length && j < m
      modifies threads
      ensures Children() == old(Children())[i := old(ChildAt(i)).(threads := old(Row(i))[j := t])]
    {
      ghost var was := Children();
      threads[i, j] := t;
      forall q | 0 <= q < childPc.Length && q != i ensures Row(q) == old(Row(q)) { }
      assert Row(i) == old(Row(i))[j := t];
      assert Children() == was[i := was[i].(threads := Row(i))];
    }

    /** A new round clears the thread handles. */
    method NewRound(i: nat)
      requires Shaped() && i < childPc.Length
      modifies childPc, threads, this`rounds, this`late
      ensures Shaped() && Children() == old(Children())[i := StartRound(m, old(Model()), old(ChildAt(i)))]
    {
      ghost var was := Children();
      forall j | 0 <= j < m { threads[i, j] := Absent; }
      childPc[i] := Creating(0);
      rounds := rounds[i := rounds[i] + 1];
      late := late[i := late[i] + (if end > 0 then 1 else 0)];
      forall q | 0 <= q < childPc.Length && q != i ensures Row(q) == old(Row(q)) { }
      assert Row(i) == NoThreads(m);
      assert Children() == was[i := ChildAt(i)];
    }

    /** The fork loop. */
    method Fork()
      requires Shaped() && main.Forking?
      modifies this`main, childPc
      ensures Shaped() && Some(Model()) == MainMove(old(Model()))
    {
      var i := main.i;
      if i < childPc.Length {
        SetPc(i, Starting);
        main := Forking(i + 1);
      } else {
        main := Gathering(0);
      }
    }

    /** The next step of the parent; false when it waits for a child. */
    method Parent() returns (moved: bool)
      requires Shaped() && exited == Sum(Children(), IsExited)
      modifies this`main, this`ready, this`go, this`end, childPc
      ensures Shaped() && moved == MainMove(old(Model())).Some?
      ensures Model() == if moved then MainMove(old(Model())).value else old(Model())
    {
      moved := true;
      var n := childPc.Length;
      match main {
        case Forking(_) =>
          Fork();
        case Gathering(i) =>
          if i >= n {
            main := Opening(0);
          } else if ready > 0 {
            ready, main := ready - 1, Gathering(i + 1);
          } else {
            moved := false;
          }
        case Opening(i) =>
          if i >= n { main := Sleeping; } else { go, main := go + 1, Opening(i + 1); }
        case Sleeping =>
          end, main := end + 1, Reaping(0);
        case Reaping(i) =>
          if i >= n {
            main := Reported;
          } else {
            moved := exited > i;
            if moved { main := Reaping(i + 1); }
          }
        case Reported =>
          moved := false;
      }
    }

    /** The loops that create and join the threads of a round. */
    method CreateOrJoin(i: nat) returns (moved: bool)
      requires Shaped() && i < childPc.Length && (childPc[i].Creating? || childPc[i].Joining?)
      modifies childPc, threads
      ensures moved == ChildMove(m, old(Model()), i).Some?
      ensures Model() == if moved then ChildMove(m, old(Model()), i).value else old(Model())
    {
      var j := childPc[i].j;
      moved := true;
      if childPc[i].Creating? {
        if j < m { SetThread(i, j, Waiting); }
        SetPc(i, if j < m then Creating(j + 1) else Joining(0));
      } else if j < m && !threads[i, j].Finished? {
        moved := false;
      } else {
        SetPc(i, if j < m then Joining(j + 1) else Checking);
      }
    }

    /** The next step of child `i`; false when it waits. */
    method Offspring(i: nat) returns (moved: bool)
      requires Shaped() && i < childPc.Length
      modifies this`ready, this`go, this`exited, this`rounds, this`late, childPc, threads
      ensures Shaped() && moved == ChildMove(m, old(Model()), i).Some?
      ensures Model() == if moved then ChildMove(m, old(Model()), i).value else old(Model())
      ensures exited == old(exited) + (if moved && old(childPc[i]) == Decided(true) then 1 else 0)
    {
      moved := true;
      match childPc[i] {
        case Starting =>
          ready := ready + 1;
          SetPc(i, AtGate);
        case AtGate =>
          if go == 0 { return false; }
          go := go - 1;
          NewRound(i);
        case Creating(_) =>
          moved := CreateOrJoin(i);
        case Joining(_) =>
          moved := CreateOrJoin(i);
        case Checking =>
          SetPc(i, Decided(end > 0));
        case Decided(stop) =>
          if stop {
            exited := exited + 1;
            SetPc(i, Exited);
          } else {
            NewRound(i);
          }
        case Unborn => moved := false;
        case Exited => moved := false;
      }
    }

    /** The next step of thread `j` of child `i`; false when it waits or is finished. */
    method Worker(i: nat, j: nat) returns (moved: bool)
      requires Shaped() && i < childPc.Length && j < m
      modifies this`cs, this`log, threads
      ensures Shaped() && moved == ThreadMove(old(Model()), i, j).Some?
      ensures Model() == if moved then ThreadMove(old(Model()), i, j).value else old(Model())
    {
      moved := true;
      match threads[i, j] {
        case Waiting =>
          if cs == 0 { return false; }
          cs := cs - 1;
          SetThread(i, j, Inside);
        case Inside =>
          log := log + [i];
          SetThread(i, j, Wrote);
        case Wrote =>
          cs := cs + 1;
          SetThread(i, j, Finished);
        case Absent => moved := false;
        case Finished => moved := false;
      }
    }

    method Act(a: Action) returns (moved: bool)
      requires Shaped() && exited == Sum(Children(), IsExited)
      modifies this, childPc, threads
      ensures Shaped() && moved == Step(m, old(Model()), a).Some?
      ensures Model() == if moved then Step(m, old(Model()), a).value else old(Model())
      ensures exited == old(exited)
        + (if moved && a.ChildStep? && old(Children())[a.i].pc == Decided(true) then 1 else 0)
    {
      moved := false;
      match a {
        case MainStep =>
          moved := Parent();
        case ChildStep(i) =>
          if i < childPc.Length { moved := Offspring(i); }
        case ThreadStep(i, j) =>
          if i < childPc.Length && j < m { moved := Worker(i, j); }
      }
    }

    /** Lets the named party take its next step, if it can. */
    method Advance(a: Action) returns (moved: bool)
      requires Valid()
      modifies this, childPc, threads
      ensures Valid()
      ensures moved == Step(m, old(Model()), a).Some?
      ensures Model() == if moved then Step(m, old(Model()), a).value else old(Model())
    {
      ghost var s := Model();
      moved := Act(a);
      if moved {
        StepInv(m, s, a);
        ExitsCounted(m, s, a);
      }
    }
  }

  /** Only a child that has decided to stop adds to the exited. */
  lemma ExitsCounted(m: nat, s: State, a: Action)
    requires Step(m, s, a).Some? && (s.main.Forking? && s.main.i < |s.children| ==> s.children[s.main.i].pc.Unborn?)
    ensures Sum(Step(m, s, a).value.children, IsExited)
      == Sum(s.children, IsExited) + (if a.ChildStep? && s.children[a.i].pc == Decided(true) then 1 else 0)
  {
    var s' := Step(m, s, a).value;
    match a {
      case MainStep =>
        if s.main.Forking? && s.main.i < |s.children| {
          SumUpdate(s.children, s.main.i, s'.children[s.main.i], IsExited);
        }
      case ChildStep(i) => SumUpdate(s.children, i, s'.children[i], IsExited);
      case ThreadStep(i, j) => SumUpdate(s.children, i, s'.children[i], IsExited);
    }
  }
}
