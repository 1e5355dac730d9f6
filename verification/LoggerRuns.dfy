/** Whole runs of the log server: who owns each string, what reaches the file, and in what order. */
module LoggerRuns {
  import opened Sums
  import opened Bytes
  import opened Ring
  import opened RingRuns
  import opened Logger

  /** The texts of the given allocations, one after the other. */
  function Text(allocs: seq<Alloc>, ids: seq<int>): string
    requires forall k :: 0 <= k < |ids| ==> 0 <= ids[k] < |allocs|
  {
    if ids == [] then ""
    else
      var n := |ids| - 1;
      Text(allocs, ids[..n]) + allocs[ids[n]].bytes
  }

  lemma {:induction false} TextFrame(allocs: seq<Alloc>, more: seq<Alloc>, ids: seq<int>)
    requires forall k :: 0 <= k < |ids| ==> 0 <= ids[k] < |allocs|
    ensures Text(allocs + more, ids) == Text(allocs, ids)
  {
    if ids == [] {
    } else {
      TextFrame(allocs, more, ids[..|ids| - 1]);
    }
  }

  /** The part of the message in hand that is already in the file. */
  function Part(allocs: seq<Alloc>, phase: Phase, item: int): string {
    if phase.Writing? && 0 <= item < |allocs| && phase.written <= |allocs[item].bytes|
    then allocs[item].bytes[..phase.written] else ""
  }

  /** The logger thread's program point, phase and item agree with the histories. */
  ghost predicate Hands(s: Log) {
    && |s.ring.r.threads| == 1
    && var h := s.ring.r.threads[0];
    && !h.pc.Indexed?
    && (!s.phase.Fetched? ==> h.pc.Unlocked? || h.pc.Released?)
    && (h.pc.Released? ==> s.phase.Freed?)
    && (Past(h.pc) ==> s.ring.r.done != [] && h.item == s.ring.r.done[|s.ring.r.done| - 1])
    && |s.ring.r.done| == |s.freed| + (if Past(h.pc) && !s.phase.Freed? then 1 else 0)
  }

  ghost predicate FileOk(s: Log) {
    && |s.freed| <= |s.ring.w.done| && s.freed == s.ring.w.done[..|s.freed|]
    && (forall k :: 0 <= k < |s.ring.w.done| ==> 0 <= s.ring.w.done[k] < |s.allocs|)
    && (s.phase.Writing? ==>
          (|s.freed| < |s.ring.w.done| && s.phase.written + s.phase.left == |s.allocs[s.ring.w.done[|s.freed|]].bytes|))
    && s.file == Text(s.allocs, s.freed)
         + (if |s.freed| < |s.ring.w.done| then Part(s.allocs, s.phase, s.ring.w.done[|s.freed|]) else "")
  }

  ghost predicate LogInv(size: nat, s: Log) {
    && Inv(LogConfig(size), s.ring)
    && Hands(s)
    && Placed(s.ring.w.threads, s.ring.w.done, s.place)
    && HeapOk(s.heap, s.allocs, s.place, |s.freed|)
    && FileOk(s)
  }

  /** The pointer the logger holds is the oldest one not yet freed. */
  lemma InHand(size: nat, s: Log)
    requires LogInv(size, s) && Past(s.ring.r.threads[0].pc) && !s.phase.Freed?
    ensures |s.freed| < |s.ring.w.done| && s.ring.r.threads[0].item == s.ring.w.done[|s.freed|]
  {
    assert Fifo(s.ring);
  }

  /** No dangling access: whenever the logger is about to read or free its string, the string is
      live at its address, is the very allocation that was stored, and holds the caller's text. */
  lemma LiveAtAccess(size: nat, s: Log)
    requires LogInv(size, s) && Busy(s)
    ensures var item := s.ring.r.threads[0].item;
      0 <= item < |s.allocs| && Deref(s, item) == Some(Block(item, s.allocs[item].bytes))
  {
    InHand(size, s);
    assert s.place[s.ring.w.done[|s.freed|]] == At(|s.freed|);
  }

  // ---- every step keeps the invariant ----

  lemma CallerRing(size: nat, s: Log, p: nat, addr: nat, msg: string)
    requires LogInv(size, s) && CallerStep(size, s, p, addr, msg).Some?
    ensures var s' := CallerStep(size, s, p, addr, msg).value;
      && Inv(LogConfig(size), s'.ring) && s'.ring.r.threads == s.ring.r.threads && s'.ring.r.done == s.ring.r.done
      && s'.phase == s.phase && s'.file == s.file && s'.freed == s.freed
      && s'.ring.w.threads == s.ring.w.threads[p := s'.ring.w.threads[p]]
      && (if s.ring.w.threads[p].pc.Slot? then s'.ring.w.done == s.ring.w.done + [s.ring.w.threads[p].item]
          else s'.ring.w.done == s.ring.w.done)
  {
    StepInv(LogConfig(size), s.ring, Action(Write, p, |s.allocs|));
  }

  lemma CallerPlaced(size: nat, s: Log, p: nat, addr: nat, msg: string)
    requires LogInv(size, s) && CallerStep(size, s, p, addr, msg).Some?
    ensures var s' := CallerStep(size, s, p, addr, msg).value; Placed(s'.ring.w.threads, s'.ring.w.done, s'.place)
  {
    var s' := CallerStep(size, s, p, addr, msg).value;
    var ts, done, h := s.ring.w.threads, s.ring.w.done, s'.ring.w.threads[p];
    CallerRing(size, s, p, addr, msg);
    assert PcWf(ViewOf(LogConfig(size), s.ring, Write), ts[p].pc);
    if ts[p].pc.Idle? {
      PlacedMalloc(ts, done, s.place, p, h);
    } else if ts[p].pc.Slot? {
      PlacedStore(ts, done, s.place, p, h);
    } else {
      PlacedMove(ts, done, s.place, p, h);
    }
  }

  lemma CallerHeap(size: nat, s: Log, p: nat, addr: nat, msg: string)
    requires LogInv(size, s) && CallerStep(size, s, p, addr, msg).Some?
    ensures var s' := CallerStep(size, s, p, addr, msg).value; HeapOk(s'.heap, s'.allocs, s'.place, |s'.freed|)
  {
    var h := s.ring.w.threads[p];
    if h.pc.Idle? {
      HeapMalloc(s.heap, s.allocs, s.place, |s.freed|, p, addr, msg + "\n");
    } else if h.pc.Slot? {
      HeapStore(s.heap, s.allocs, s.place, |s.freed|, h.item, |s.ring.w.done|);
    }
  }

  /** More allocations and more stored pointers leave the file as it should be. */
  lemma FileKept(s: Log, s': Log)
    requires FileOk(s) && s'.phase == s.phase && s'.file == s.file && s'.freed == s.freed
    requires s.allocs <= s'.allocs && s.ring.w.done <= s'.ring.w.done
    requires forall k :: 0 <= k < |s'.ring.w.done| ==> 0 <= s'.ring.w.done[k] < |s'.allocs|
    ensures FileOk(s')
  {
    TextFrame(s.allocs, s'.allocs[|s.allocs|..], s.freed);
    assert s.allocs + s'.allocs[|s.allocs|..] == s'.allocs;
    assert s'.ring.w.done[..|s.freed|] == s.ring.w.done[..|s.freed|];
  }

  lemma CallerFile(size: nat, s: Log, p: nat, addr: nat, msg: string)
    requires LogInv(size, s) && CallerStep(size, s, p, addr, msg).Some?
    ensures FileOk(CallerStep(size, s, p, addr, msg).value)
  {
    CallerRing(size, s, p, addr, msg);
    FileKept(s, CallerStep(size, s, p, addr, msg).value);
  }

  lemma CallerInv(size: nat, s: Log, p: nat, addr: nat, msg: string)
    requires LogInv(size, s) && CallerStep(size, s, p, addr, msg).Some?
    ensures LogInv(size, CallerStep(size, s, p, addr, msg).value)
  {
    CallerRing(size, s, p, addr, msg);
    CallerPlaced(size, s, p, addr, msg);
    CallerHeap(size, s, p, addr, msg);
    CallerFile(size, s, p, addr, msg);
  }

  lemma FetchHands(size: nat, s: Log, m: Move)
    requires Hands(s) && m.Logger? && !Busy(s) && LogStep(size, s, m).Some?
    requires PcWf(ViewOf(LogConfig(size), s.ring, Read), s.ring.r.threads[0].pc)
    ensures var s' := LogStep(size, s, m).value;
      && Hands(s') && s'.ring.w == s.ring.w.(avail := s'.ring.w.avail)
      && s' == s.(ring := s'.ring, phase := s'.phase)
      && !s.phase.Writing? && !s'.phase.Writing?
  {
    var s', pc := LogStep(size, s, m).value, s.ring.r.threads[0].pc;
    assert |s'.ring.r.threads| == 1;
    assert pc.Slot? ==> s'.ring.r.done == s.ring.r.done + [s'.ring.r.threads[0].item];
    assert !pc.Slot? ==> s'.ring.r.done == s.ring.r.done && s'.ring.r.threads[0].item == s.ring.r.threads[0].item;
  }

  lemma FetchInv(size: nat, s: Log, m: Move)
    requires LogInv(size, s) && m.Logger? && !Busy(s) && LogStep(size, s, m).Some?
    ensures LogInv(size, LogStep(size, s, m).value)
  {
    StepInv(LogConfig(size), s.ring, Action(Read, 0, 0));
    assert PcWf(ViewOf(LogConfig(size), s.ring, Read), s.ring.r.threads[0].pc);
    FetchHands(size, s, m);
  }

  lemma FreeFile(s: Log, io: Io)
    requires Hands(s) && FileOk(s) && Busy(s) && s.phase.Writing? && s.phase.left == 0 && WriteStep(s, io).Some?
    requires |s.freed| < |s.ring.w.done| && s.ring.r.threads[0].item == s.ring.w.done[|s.freed|]
    ensures FileOk(WriteStep(s, io).value)
  {
    var s', f := WriteStep(s, io).value, |s.freed|;
    var bytes := s.allocs[s.ring.w.done[f]].bytes;
    assert s'.freed == s.ring.w.done[..f + 1] && s'.freed[..f] == s.freed;
    assert bytes[..|bytes|] == bytes;
  }

  lemma FreeInv(size: nat, s: Log, io: Io)
    requires LogInv(size, s) && Busy(s) && s.phase.Writing? && s.phase.left == 0 && WriteStep(s, io).Some?
    ensures LogInv(size, WriteStep(s, io).value)
  {
    InHand(size, s);
    var f := |s.freed|;
    var item := s.ring.w.done[f];
    assert s.place[item] == At(f);
    HeapFree(s.heap, s.allocs, s.place, f, item, s.ring.w.done);
    FreeFile(s, io);
  }

  lemma WriteFile(s: Log, io: Io)
    requires Hands(s) && FileOk(s) && Busy(s) && !(s.phase.Writing? && s.phase.left == 0) && WriteStep(s, io).Some?
    requires |s.freed| < |s.ring.w.done| && s.ring.r.threads[0].item == s.ring.w.done[|s.freed|]
    requires var item := s.ring.r.threads[0].item; Deref(s, item) == Some(Block(item, s.allocs[item].bytes))
    ensures Hands(WriteStep(s, io).value) && FileOk(WriteStep(s, io).value)
  {
    if s.phase.Writing? && io.Wrote? {
      var bytes, w := s.allocs[s.ring.w.done[|s.freed|]].bytes, s.phase.written;
      OneMoreWrite(Text(s.allocs, s.freed), bytes, w, io.n);
    }
  }

  lemma WriteInv(size: nat, s: Log, io: Io)
    requires LogInv(size, s) && Busy(s) && !(s.phase.Writing? && s.phase.left == 0) && WriteStep(s, io).Some?
    ensures LogInv(size, WriteStep(s, io).value)
  {
    InHand(size, s);
    LiveAtAccess(size, s);
    WriteFile(s, io);
    var s' := WriteStep(s, io).value;
    assert s' == s.(phase := s'.phase, file := s'.file);
  }

  lemma LogStepInv(size: nat, s: Log, m: Move)
    requires LogInv(size, s) && LogStep(size, s, m).Some?
    ensures LogInv(size, LogStep(size, s, m).value)
  {
    match m {
      case Caller(p, addr, msg) => CallerInv(size, s, p, addr, msg);
      case Logger(io) =>
        if !Busy(s) {
          FetchInv(size, s, m);
        } else if s.phase.Writing? && s.phase.left == 0 {
          FreeInv(size, s, io);
        } else {
          WriteInv(size, s, io);
        }
    }
  }

  lemma InitLogInv(size: nat, callers: nat)
    requires size >= 1
    ensures LogInv(size, InitLog(size, callers))
  {
    InitInv(LogConfig(size), callers, 1);
  }

  lemma {:induction false} LogRunInv(size: nat, s: Log, sched: seq<Move>)
    requires LogInv(size, s) && LogExec(size, s, sched).Some?
    ensures LogInv(size, LogExec(size, s, sched).value)
    decreases |sched|
  {
    if sched == [] {
    } else {
      LogStepInv(size, s, sched[0]);
      LogRunInv(size, LogStep(size, s, sched[0]).value, sched[1..]);
    }
  }

  // ---- main results ----

  /** For every run, every choice of addresses by `malloc` (reuse included) and every schedule of
      short or interrupted writes: the file is the whole messages freed so far, in slot order,
      followed by a prefix of the message in hand; each message is freed once, after it is all written. */
  lemma LogContents(size: nat, callers: nat, sched: seq<Move>) returns (part: string)
    requires size >= 1 && LogExec(size, InitLog(size, callers), sched).Some?
    ensures var s := LogExec(size, InitLog(size, callers), sched).value;
      && s.freed <= s.ring.w.done
      && (forall k :: 0 <= k < |s.freed| ==> 0 <= s.freed[k] < |s.allocs|)
      && s.file == Text(s.allocs, s.freed) + part
      && (part != "" ==> |s.freed| < |s.ring.w.done| && 0 <= s.ring.w.done[|s.freed|] < |s.allocs|
                         && part <= s.allocs[s.ring.w.done[|s.freed|]].bytes)
      && (forall i, j :: 0 <= i < j < |s.ring.w.done| ==> s.ring.w.done[i] != s.ring.w.done[j])
  {
    InitLogInv(size, callers);
    LogRunInv(size, InitLog(size, callers), sched);
    part := ContentsNow(size, LogExec(size, InitLog(size, callers), sched).value);
  }

  lemma ContentsNow(size: nat, s: Log) returns (part: string)
    requires LogInv(size, s)
    ensures s.freed <= s.ring.w.done
    ensures forall k :: 0 <= k < |s.freed| ==> 0 <= s.freed[k] < |s.allocs|
    ensures s.file == Text(s.allocs, s.freed) + part
    ensures part != "" ==> |s.freed| < |s.ring.w.done| && 0 <= s.ring.w.done[|s.freed|] < |s.allocs|
                           && part <= s.allocs[s.ring.w.done[|s.freed|]].bytes
    ensures forall i, j :: 0 <= i < j < |s.ring.w.done| ==> s.ring.w.done[i] != s.ring.w.done[j]
  {
    var f := |s.freed|;
    part := if f < |s.ring.w.done| then Part(s.allocs, s.phase, s.ring.w.done[f]) else "";
    forall i, j | 0 <= i < j < |s.ring.w.done| ensures s.ring.w.done[i] != s.ring.w.done[j] {
      assert s.place[s.ring.w.done[i]] == At(i) && s.place[s.ring.w.done[j]] == At(j);
    }
  }

  /** The unread slots hold distinct pointers to distinct live strings, each with its own text. */
  lemma WindowOwnsItsStrings(size: nat, s: Log, i: nat, j: nat)
    requires LogInv(size, s) && |s.ring.r.done| <= i < j < |s.ring.w.done|
    ensures var x, y := s.ring.buf[i % size], s.ring.buf[j % size];
      && 0 <= x < |s.allocs| && 0 <= y < |s.allocs| && x != y && s.allocs[x].addr != s.allocs[y].addr
      && Deref(s, x) == Some(Block(x, s.allocs[x].bytes)) && Deref(s, y) == Some(Block(y, s.allocs[y].bytes))
  {
    var done := s.ring.w.done;
    assert Fifo(s.ring);
    assert s.ring.buf[i % size] == done[i] && s.ring.buf[j % size] == done[j];
    assert s.place[done[i]] == At(i) && s.place[done[j]] == At(j);
  }

  /** No leak: when every call has returned and the logger has drained the buffer, the heap is empty. */
  lemma DrainedHeapEmpty(size: nat, s: Log)
    requires LogInv(size, s) && |s.ring.r.done| == |s.ring.w.done| && s.ring.r.threads[0].pc.Idle?
    requires forall p :: 0 <= p < |s.ring.w.threads| ==> s.ring.w.threads[p].pc.Idle?
    ensures s.heap == map[] && s.freed == s.ring.w.done && s.file == Text(s.allocs, s.freed)
  {
    assert s.ring.w.done[..|s.freed|] == s.ring.w.done;
    forall id | 0 <= id < |s.place| ensures !Alive(s.place, |s.freed|, id) { }
    assert s.heap.Keys == {};
  }

  // ---- each caller's own order ----

  /** A caller's log lists its allocations in call order, and the stored items keep that order. */
  ghost predicate InCallOrder(size: nat, s: Log) {
    && Logged(ViewOf(LogConfig(size), s.ring, Write))
    && forall p :: 0 <= p < |s.ring.w.threads| ==> Rising(s.ring.w.threads[p].log, |s.allocs|)
  }

  /** Strictly increasing, and below `top`. */
  predicate Rising(ids: seq<int>, top: nat) {
    && (forall i, j :: 0 <= i < j < |ids| ==> ids[i] < ids[j])
    && (forall i :: 0 <= i < |ids| ==> 0 <= ids[i] < top)
  }

  lemma LoggerKeepsCallers(size: nat, s: Log, m: Move)
    requires LogInv(size, s) && m.Logger? && LogStep(size, s, m).Some?
    ensures var s' := LogStep(size, s, m).value;
      s'.ring.w == s.ring.w.(avail := s'.ring.w.avail) && s'.allocs == s.allocs
  {
    if !Busy(s) {
      assert PcWf(ViewOf(LogConfig(size), s.ring, Read), s.ring.r.threads[0].pc);
      FetchHands(size, s, m);
    }
  }

  lemma StepInCallOrder(size: nat, s: Log, m: Move)
    requires LogInv(size, s) && InCallOrder(size, s) && LogStep(size, s, m).Some?
    ensures InCallOrder(size, LogStep(size, s, m).value)
  {
    match m {
      case Caller(p, addr, msg) =>
        SideLogged(ViewOf(LogConfig(size), s.ring, Write), p, |s.allocs|);
        CallerLogs(size, s, p, addr, msg);
      case Logger(_) =>
        LoggerKeepsCallers(size, s, m);
    }
  }

  lemma CallerLogs(size: nat, s: Log, p: nat, addr: nat, msg: string)
    requires CallerStep(size, s, p, addr, msg).Some?
    requires forall q :: 0 <= q < |s.ring.w.threads| ==> Rising(s.ring.w.threads[q].log, |s.allocs|)
    ensures var s' := CallerStep(size, s, p, addr, msg).value;
      forall q :: 0 <= q < |s'.ring.w.threads| ==> Rising(s'.ring.w.threads[q].log, |s'.allocs|)
  {
    var s' := CallerStep(size, s, p, addr, msg).value;
    forall q | 0 <= q < |s'.ring.w.threads| ensures Rising(s'.ring.w.threads[q].log, |s'.allocs|) {
      assert Rising(s.ring.w.threads[q].log, |s.allocs|);
    }
  }

  lemma {:induction false} RunInCallOrder(size: nat, s: Log, sched: seq<Move>)
    requires LogInv(size, s) && InCallOrder(size, s) && LogExec(size, s, sched).Some?
    ensures InCallOrder(size, LogExec(size, s, sched).value)
    decreases |sched|
  {
    if sched == [] {
    } else {
      StepInCallOrder(size, s, sched[0]);
      LogStepInv(size, s, sched[0]);
      RunInCallOrder(size, LogStep(size, s, sched[0]).value, sched[1..]);
    }
  }

  /** In every run each caller's messages are stored, hence written, in the order of its calls, all
      but the one it still holds. */
  lemma CallOrder(size: nat, callers: nat, sched: seq<Move>, p: nat)
    requires size >= 1 && p < callers && LogExec(size, InitLog(size, callers), sched).Some?
    ensures var s := LogExec(size, InitLog(size, callers), sched).value;
      && p < |s.ring.w.threads| && |s.ring.w.who| == |s.ring.w.done|
      && Rising(s.ring.w.threads[p].log, |s.allocs|)
      && Items(s.ring.w.done, s.ring.w.who, p) <= s.ring.w.threads[p].log
      && |s.ring.w.threads[p].log| <= |Items(s.ring.w.done, s.ring.w.who, p)| + 1
  {
    var s0 := InitLog(size, callers);
    InitLogInv(size, callers);
    InitInCallOrder(size, callers);
    RunInCallOrder(size, s0, sched);
    LogRunThreads(size, s0, sched);
    OneBehind(LogConfig(size), LogExec(size, s0, sched).value.ring, p);
  }

  lemma InitInCallOrder(size: nat, callers: nat)
    ensures InCallOrder(size, InitLog(size, callers))
  {
  }

  lemma OneBehind(cfg: Config, s: State, p: nat)
    requires Logged(ViewOf(cfg, s, Write)) && p < |s.w.threads|
    ensures Items(s.w.done, s.w.who, p) <= s.w.threads[p].log
    ensures |s.w.threads[p].log| <= |Items(s.w.done, s.w.who, p)| + 1
  {
    assert s.w.threads[p].log == Items(s.w.done, s.w.who, p) + Unstored(Write, s.w.threads[p]);
  }

  lemma {:induction false} LogRunThreads(size: nat, s: Log, sched: seq<Move>)
    requires LogExec(size, s, sched).Some?
    ensures |LogExec(size, s, sched).value.ring.w.threads| == |s.ring.w.threads|
    decreases |sched|
  {
    if sched == [] {
    } else {
      LogRunThreads(size, LogStep(size, s, sched[0]).value, sched[1..]);
    }
  }
}
