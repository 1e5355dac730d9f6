/** What the callers say is what is logged: the texts of a caller's allocations are its messages. */
module LoggerCalls {
  import opened Sums
  import opened Ring
  import opened RingRuns
  import opened Logger
  import opened LoggerRuns

  /** The move by which caller `p` duplicates its message. */
  predicate Says(s: Log, m: Move, p: nat) {
    m.Caller? && m.p == p && p < |s.ring.w.threads| && s.ring.w.threads[p].pc.Idle?
  }

  /** The messages a schedule makes caller `p` log, in order, each with its line terminator. */
  function Said(size: nat, s: Log, sched: seq<Move>, p: nat): seq<string>
    decreases |sched|
  {
    if sched == [] || LogStep(size, s, sched[0]).None? then []
    else SaidBy(s, sched[0], p) + Said(size, LogStep(size, s, sched[0]).value, sched[1..], p)
  }

  function SaidBy(s: Log, m: Move, p: nat): seq<string> { if Says(s, m, p) then [m.msg + "\n"] else [] }

  predicate Known(allocs: seq<Alloc>, ids: seq<int>) { forall k :: 0 <= k < |ids| ==> 0 <= ids[k] < |allocs| }

  function TextsOf(allocs: seq<Alloc>, ids: seq<int>): seq<string>
    requires Known(allocs, ids)
  {
    seq(|ids|, k requires 0 <= k < |ids| => allocs[ids[k]].bytes)
  }

  ghost predicate AllKnown(s: Log) {
    forall p :: 0 <= p < |s.ring.w.threads| ==> Known(s.allocs, s.ring.w.threads[p].log)
  }

  /** Allocations are only ever added, one for each message said. */
  lemma CallerSays(size: nat, s: Log, p: nat, addr: nat, msg: string)
    requires p < |s.ring.w.threads| && CallerStep(size, s, p, addr, msg).Some?
    ensures var s' := CallerStep(size, s, p, addr, msg).value; var said := SaidBy(s, Caller(p, addr, msg), p);
      && |s'.ring.w.threads| == |s.ring.w.threads|
      && (forall q :: 0 <= q < |s.ring.w.threads| && q != p ==> s'.ring.w.threads[q].log == s.ring.w.threads[q].log)
      && s'.allocs == s.allocs + (if said == [] then [] else [Alloc(addr, said[0])])
      && s'.ring.w.threads[p].log == s.ring.w.threads[p].log + (if said == [] then [] else [|s.allocs|])
  {
    StepMakes(LogConfig(size), s.ring, Action(Write, p, |s.allocs|), p);
  }

  lemma Extended(allocs: seq<Alloc>, more: seq<Alloc>, ids: seq<int>)
    requires Known(allocs, ids)
    ensures Known(allocs + more, ids) && TextsOf(allocs + more, ids) == TextsOf(allocs, ids)
  {
  }

  lemma OneMore(allocs: seq<Alloc>, ids: seq<int>, a: Alloc)
    requires Known(allocs, ids)
    ensures Known(allocs + [a], ids + [|allocs|])
    ensures TextsOf(allocs + [a], ids + [|allocs|]) == TextsOf(allocs, ids) + [a.bytes]
  {
  }

  lemma StepSays(size: nat, s: Log, m: Move, p: nat)
    requires LogInv(size, s) && AllKnown(s) && p < |s.ring.w.threads| && LogStep(size, s, m).Some?
    ensures var s' := LogStep(size, s, m).value;
      && AllKnown(s') && p < |s'.ring.w.threads|
      && TextsOf(s'.allocs, s'.ring.w.threads[p].log) == TextsOf(s.allocs, s.ring.w.threads[p].log) + SaidBy(s, m, p)
  {
    var s' := LogStep(size, s, m).value;
    match m {
      case Logger(_) =>
        LoggerKeepsCallers(size, s, m);
      case Caller(q, addr, msg) =>
        CallerSays(size, s, q, addr, msg);
        forall t | 0 <= t < |s'.ring.w.threads|
          ensures Known(s'.allocs, s'.ring.w.threads[t].log)
          ensures TextsOf(s'.allocs, s'.ring.w.threads[t].log)
            == TextsOf(s.allocs, s.ring.w.threads[t].log) + SaidBy(s, m, t)
        {
          CallerTexts(s, s', m, t);
        }
    }
  }

  lemma CallerTexts(s: Log, s': Log, m: Move, t: nat)
    requires m.Caller? && t < |s.ring.w.threads| == |s'.ring.w.threads| && m.p < |s.ring.w.threads|
    requires Known(s.allocs, s.ring.w.threads[t].log)
    requires var said := SaidBy(s, m, m.p);
      && s'.allocs == s.allocs + (if said == [] then [] else [Alloc(m.addr, said[0])])
      && s'.ring.w.threads[t].log
           == s.ring.w.threads[t].log + (if t != m.p || said == [] then [] else [|s.allocs|])
    ensures Known(s'.allocs, s'.ring.w.threads[t].log)
    ensures TextsOf(s'.allocs, s'.ring.w.threads[t].log) == TextsOf(s.allocs, s.ring.w.threads[t].log) + SaidBy(s, m, t)
  {
    var said, ids := SaidBy(s, m, m.p), s.ring.w.threads[t].log;
    if said != [] && t == m.p {
      OneMore(s.allocs, ids, Alloc(m.addr, said[0]));
    } else {
      assert s'.ring.w.threads[t].log == ids;
      Extended(s.allocs, if said == [] then [] else [Alloc(m.addr, said[0])], ids);
    }
  }

  lemma {:induction false} RunSays(size: nat, s: Log, sched: seq<Move>, p: nat)
    requires LogInv(size, s) && AllKnown(s) && p < |s.ring.w.threads| && LogExec(size, s, sched).Some?
    ensures var s' := LogExec(size, s, sched).value;
      && AllKnown(s') && p < |s'.ring.w.threads|
      && TextsOf(s'.allocs, s'.ring.w.threads[p].log)
           == TextsOf(s.allocs, s.ring.w.threads[p].log) + Said(size, s, sched, p)
    decreases |sched|
  {
    if sched == [] {
    } else {
      var s1 := LogStep(size, s, sched[0]).value;
      StepSays(size, s, sched[0], p);
      LogStepInv(size, s, sched[0]);
      RunSays(size, s1, sched[1..], p);
      Regroup(TextsOf(s.allocs, s.ring.w.threads[p].log), SaidBy(s, sched[0], p), Said(size, s1, sched[1..], p));
    }
  }

  lemma TextsOfPrefix(allocs: seq<Alloc>, part: seq<int>, ids: seq<int>)
    requires Known(allocs, ids) && part <= ids
    ensures Known(allocs, part) && TextsOf(allocs, part) <= TextsOf(allocs, ids)
  {
  }

  lemma AllSaid(size: nat, callers: nat, sched: seq<Move>, p: nat)
    requires size >= 1 && p < callers && LogExec(size, InitLog(size, callers), sched).Some?
    ensures var s := LogExec(size, InitLog(size, callers), sched).value;
      && p < |s.ring.w.threads| && Known(s.allocs, s.ring.w.threads[p].log)
      && TextsOf(s.allocs, s.ring.w.threads[p].log) == Said(size, InitLog(size, callers), sched, p)
  {
    var s0 := InitLog(size, callers);
    InitLogInv(size, callers);
    assert TextsOf(s0.allocs, []) == [];
    RunSays(size, s0, sched, p);
  }

  /** In every run the strings a caller has stored in the buffer are exactly the messages it was called with, each
      with a line terminator, in the order of the calls, all but the one in hand. */
  lemma StoredAsSaid(size: nat, callers: nat, sched: seq<Move>, p: nat)
    requires size >= 1 && p < callers && LogExec(size, InitLog(size, callers), sched).Some?
    ensures var s := LogExec(size, InitLog(size, callers), sched).value;
      var said := Said(size, InitLog(size, callers), sched, p);
      && |s.ring.w.who| == |s.ring.w.done|
      && var mine := Items(s.ring.w.done, s.ring.w.who, p);
      && Known(s.allocs, mine) && TextsOf(s.allocs, mine) <= said && |said| <= |mine| + 1
  {
    var s0 := InitLog(size, callers);
    CallOrder(size, callers, sched, p);
    AllSaid(size, callers, sched, p);
    var s := LogExec(size, s0, sched).value;
    TextsOfPrefix(s.allocs, Items(s.ring.w.done, s.ring.w.who, p), s.ring.w.threads[p].log);
  }

  // ---- what the kernel may do in the write loop ----

  /** The loop goes on from any number of bytes `write` may take, and from an interruption; the bytes taken are
      the next ones of the message. */
  lemma AnyWriteGoesOn(size: nat, s: Log, n: nat)
    requires LogInv(size, s) && Busy(s) && s.phase.Writing? && s.phase.left > 0
    ensures LogStep(size, s, Logger(Interrupted)) == Some(s)
    ensures LogStep(size, s, Logger(Wrote(n))).Some? <==> n <= s.phase.left
    ensures var item, w := s.ring.r.threads[0].item, s.phase.written;
      && 0 <= item < |s.allocs| && w + s.phase.left == |s.allocs[item].bytes|
      && (n <= s.phase.left ==>
            LogStep(size, s, Logger(Wrote(n))).value.file == s.file + s.allocs[item].bytes[w..w + n])
  {
    LiveAtAccess(size, s);
    InHand(size, s);
  }
}
