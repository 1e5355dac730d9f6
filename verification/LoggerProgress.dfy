/** The log server keeps moving: no schedule keeps a stored message from the file for long. */
module LoggerProgress {
  import opened Sums
  import opened Ring
  import opened RingRuns
  import opened Logger
  import opened LoggerRuns

  /** A step that is not an interrupted or empty `write`. */
  predicate Useful(size: nat, s: Log, m: Move) {
    LogStep(size, s, m).Some? && LogStep(size, s, m).value != s
  }

  // ---- some useful step is always possible ----

  /** Inside the write loop the step is a write of something, or the free. */
  lemma WriterCanStep(size: nat, s: Log)
    requires LogInv(size, s) && Busy(s)
    ensures Useful(size, s, Logger(Wrote(if s.phase.Writing? then s.phase.left else 0)))
  {
    LiveAtAccess(size, s);
    InHand(size, s);
    if s.phase.Writing? && s.phase.left > 0 {
      var s' := LogStep(size, s, Logger(Wrote(s.phase.left))).value;
      assert s'.phase.left == 0;
    }
  }

  lemma CallerCanStep(size: nat, s: Log, p: nat, x: int)
    requires LogInv(size, s) && Step(LogConfig(size), s.ring, Action(Write, p, x)).Some?
    ensures exists m :: Useful(size, s, m)
  {
    var addr := FreshAddress(s.heap.Keys);
    var a := Action(Write, p, |s.allocs|);
    assert Step(LogConfig(size), s.ring, a).Some?;
    StepProgress(LogConfig(size), s.ring, a);
    assert LogStep(size, s, Caller(p, addr, "")).Some?;
    assert LogStep(size, s, Caller(p, addr, "")).value.ring == Step(LogConfig(size), s.ring, a).value;
    assert Useful(size, s, Caller(p, addr, ""));
  }

  lemma FetchCanStep(size: nat, s: Log, a: Action)
    requires LogInv(size, s) && !Busy(s) && a.kind.Read? && Step(LogConfig(size), s.ring, a).Some?
    ensures exists m :: Useful(size, s, m)
  {
    var cfg := LogConfig(size);
    ReadIgnoresAmount(cfg, s.ring, a);
    assert a.t == 0;
    StepProgress(cfg, s.ring, Action(Read, 0, 0));
    assert Useful(size, s, Logger(Interrupted));
  }

  /** The server never wedges: a caller or the logger can always take a step that changes something,
      and no pointer access faults. */
  lemma LogCanStep(size: nat, s: Log)
    requires LogInv(size, s) && |s.ring.w.threads| >= 1
    ensures exists m :: Useful(size, s, m)
  {
    if Busy(s) {
      WriterCanStep(size, s);
    } else {
      SomeoneCanStep(LogConfig(size), s.ring);
      var a :| Step(LogConfig(size), s.ring, a).Some?;
      if a.kind.Write? {
        CallerCanStep(size, s, a.t, a.x);
      } else {
        FetchCanStep(size, s, a);
      }
    }
  }

  lemma FreshAddress(used: set<nat>) returns (a: nat)
    ensures a !in used && a > 0
  {
    if used == {} {
      a := 1;
    } else {
      var top := Largest(used);
      a := top + 1;
    }
  }

  lemma Largest(used: set<nat>) returns (top: nat)
    requires used != {}
    ensures top in used && forall a :: a in used ==> a <= top
  {
    var x :| x in used;
    if used == {x} {
      top := x;
    } else {
      assert used == (used - {x}) + {x};
      var rest := Largest(used - {x});
      top := if rest > x then rest else x;
    }
  }

  // ---- useful steps deliver ----

  /** At least the number of useful steps taken: those on the buffer, one to measure each message, the
      bytes written, and one to free it. */
  function Progress(s: Log): int {
    Potential(s.ring.w) + Potential(s.ring.r) + |s.file| + 2 * |s.freed| + (if s.phase.Writing? then 1 else 0)
  }

  lemma CallerAdvances(size: nat, s: Log, p: nat, addr: nat, msg: string)
    requires CallerStep(size, s, p, addr, msg).Some?
    ensures Progress(CallerStep(size, s, p, addr, msg).value) >= Progress(s) + 1
  {
    StepProgress(LogConfig(size), s.ring, Action(Write, p, |s.allocs|));
  }

  lemma WriterAdvances(s: Log, io: Io)
    requires Busy(s) && WriteStep(s, io).Some?
    ensures WriteStep(s, io).value == s || Progress(WriteStep(s, io).value) >= Progress(s) + 1
  {
    if s.phase.Writing? && s.phase.left > 0 && io == Wrote(0) {
      var s' := WriteStep(s, io).value;
      assert s'.file == s.file;
    }
  }

  lemma StepAdvances(size: nat, s: Log, m: Move)
    requires LogInv(size, s) && LogStep(size, s, m).Some?
    ensures Progress(LogStep(size, s, m).value) >= Progress(s) + (if Useful(size, s, m) then 1 else 0)
  {
    match m {
      case Caller(p, addr, msg) =>
        CallerAdvances(size, s, p, addr, msg);
      case Logger(io) =>
        if Busy(s) {
          WriterAdvances(s, io);
        } else {
          StepProgress(LogConfig(size), s.ring, Action(Read, 0, 0));
          assert PcWf(ViewOf(LogConfig(size), s.ring, Read), s.ring.r.threads[0].pc);
          FetchHands(size, s, m);
        }
    }
  }

  function UsefulSteps(size: nat, s: Log, sched: seq<Move>): nat
    decreases |sched|
  {
    if sched == [] || LogStep(size, s, sched[0]).None? then 0
    else (if Useful(size, s, sched[0]) then 1 else 0) + UsefulSteps(size, LogStep(size, s, sched[0]).value, sched[1..])
  }

  lemma {:induction false} RunAdvances(size: nat, s: Log, sched: seq<Move>)
    requires LogInv(size, s) && LogExec(size, s, sched).Some?
    ensures Progress(LogExec(size, s, sched).value) >= Progress(s) + UsefulSteps(size, s, sched)
    decreases |sched|
  {
    if sched == [] {
    } else {
      StepAdvances(size, s, sched[0]);
      LogStepInv(size, s, sched[0]);
      RunAdvances(size, LogStep(size, s, sched[0]).value, sched[1..]);
    }
  }

  lemma ProgressBound(size: nat, s: Log)
    requires LogInv(size, s)
    ensures Progress(s) <= 22 * |s.freed| + |s.file| + 10 * size + 4 * |s.ring.w.threads| + 25
  {
    PotentialBound(s.ring.w);
    PotentialBound(s.ring.r);
    assert |s.ring.w.done| <= |s.ring.r.done| + size;
  }

  lemma InitProgress(size: nat, callers: nat)
    ensures Progress(InitLog(size, callers)) == 0
  {
    SumUniform(InitLog(size, callers).ring.w.threads, Rank, 10);
    SumUniform(InitLog(size, callers).ring.r.threads, Rank, 10);
  }

  /** Every schedule, fair or not, delivers: the useful steps of a run are bounded by the messages freed
      and the bytes in the file. */
  lemma LogThroughput(size: nat, callers: nat, sched: seq<Move>)
    requires size >= 1 && LogExec(size, InitLog(size, callers), sched).Some?
    ensures var s := LogExec(size, InitLog(size, callers), sched).value;
      UsefulSteps(size, InitLog(size, callers), sched) <= 22 * |s.freed| + |s.file| + 10 * size + 4 * callers + 25
  {
    var s0 := InitLog(size, callers);
    InitLogInv(size, callers);
    LogRunInv(size, s0, sched);
    LogRunThreads(size, s0, sched);
    RunAdvances(size, s0, sched);
    InitProgress(size, callers);
    ProgressBound(size, LogExec(size, s0, sched).value);
  }

  // ---- every stored message is written and freed ----

  lemma {:induction false} TextGrows(allocs: seq<Alloc>, ids: seq<int>, i: nat, j: nat)
    requires i <= j <= |ids| && forall k :: 0 <= k < |ids| ==> 0 <= ids[k] < |allocs|
    ensures |Text(allocs, ids[..i])| <= |Text(allocs, ids[..j])|
    decreases j
  {
    if i == j {
    } else {
      assert ids[..j][..j - 1] == ids[..j - 1];
      TextGrows(allocs, ids, i, j - 1);
    }
  }

  lemma FileWithin(s: Log, k: nat)
    requires FileOk(s) && |s.freed| <= k < |s.ring.w.done|
    ensures |s.file| <= |Text(s.allocs, s.ring.w.done[..k + 1])|
  {
    var f, done := |s.freed|, s.ring.w.done;
    assert done[..f + 1][..f] == s.freed;
    assert Text(s.allocs, done[..f + 1]) == Text(s.allocs, s.freed) + s.allocs[done[f]].bytes;
    TextGrows(s.allocs, done, f + 1, k + 1);
  }

  /** The k-th stored message is still to be freed only while the useful steps stay within a bound that
      depends on the messages up to it: every schedule that goes on usefully writes and frees it. */
  lemma StoredIsFreed(size: nat, callers: nat, sched: seq<Move>, k: nat)
    requires size >= 1 && LogExec(size, InitLog(size, callers), sched).Some?
    requires k < |LogExec(size, InitLog(size, callers), sched).value.ring.w.done|
    ensures var s := LogExec(size, InitLog(size, callers), sched).value;
      && (forall i :: 0 <= i <= k ==> 0 <= s.ring.w.done[i] < |s.allocs|)
      && (UsefulSteps(size, InitLog(size, callers), sched)
            > 22 * k + |Text(s.allocs, s.ring.w.done[..k + 1])| + 10 * size + 4 * callers + 25
          ==> |s.freed| > k && s.freed[k] == s.ring.w.done[k])
  {
    var s0 := InitLog(size, callers);
    InitLogInv(size, callers);
    LogRunInv(size, s0, sched);
    var s := LogExec(size, s0, sched).value;
    LogThroughput(size, callers, sched);
    if |s.freed| <= k { FileWithin(s, k); }
  }
}
