/** Exactly which programs make the circular buffer a queue: the losing runs of the unguarded ones. */
module RingExact {
  import opened Sums
  import opened Ring
  import opened RingRuns

  /** One thread stepping alone between slot accesses, until it has given its slot back. */
  ghost predicate Climbs(v: View, g: Regs, x: int, g': Regs) {
    exists n: nat :: LocalN(v, g, x, n) == Some(g')
  }

  function LocalN(v: View, g: Regs, x: int, n: nat): Option<Regs> {
    if n == 0 then Some(g)
    else
      var r := LocalN(v, g, x, n - 1);
      if r.None? || r.value.h.pc.Released? then None else Local(v.kind, v.lock, |v.buf|, r.value, x)
  }

  lemma Climb(v: View, g: Regs, x: int, m: Regs)
    requires Climbs(v, g, x, m) && !m.h.pc.Released? && Local(v.kind, v.lock, |v.buf|, m, x).Some?
    ensures Climbs(v, g, x, Local(v.kind, v.lock, |v.buf|, m, x).value)
  {
    var n: nat :| LocalN(v, g, x, n) == Some(m);
    assert LocalN(v, g, x, n + 1) == Local(v.kind, v.lock, |v.buf|, m, x);
  }

  lemma {:induction false} LocalNReaches(cfg: Config, s0: State, s: State, kind: Kind, t: nat, x: int, n: nat)
    requires Reaches(cfg, s0, s) && t < |ViewOf(cfg, s, kind).me.threads|
    requires LocalN(ViewOf(cfg, s, kind), Get(ViewOf(cfg, s, kind), t), x, n).Some?
    ensures var v := ViewOf(cfg, s, kind); Reaches(cfg, s0, Back(s, Put(v, t, LocalN(v, Get(v, t), x, n).value)))
  {
    var v := ViewOf(cfg, s, kind);
    if n == 0 {
      assert Put(v, t, Get(v, t)).me.threads == v.me.threads;
      assert Back(s, Put(v, t, Get(v, t))) == s;
    } else {
      LocalNReaches(cfg, s0, s, kind, t, x, n - 1);
      var g := LocalN(v, Get(v, t), x, n - 1).value;
      var m := Back(s, Put(v, t, g));
      Go(cfg, s0, m, Action(kind, t, x));
      var g' := LocalN(v, Get(v, t), x, n).value;
      assert Put(Put(v, t, g), t, g').me.threads == Put(v, t, g').me.threads;
    }
  }

  lemma ClimbReaches(cfg: Config, s0: State, s: State, kind: Kind, t: nat, x: int, g: Regs)
    requires Reaches(cfg, s0, s) && t < |ViewOf(cfg, s, kind).me.threads|
    requires Climbs(ViewOf(cfg, s, kind), Get(ViewOf(cfg, s, kind), t), x, g)
    ensures Reaches(cfg, s0, Back(s, Put(ViewOf(cfg, s, kind), t, g)))
  {
    var v := ViewOf(cfg, s, kind);
    var n: nat :| LocalN(v, Get(v, t), x, n) == Some(g);
    LocalNReaches(cfg, s0, s, kind, t, x, n);
  }

  /** From the top of the loop body to the slot access. */
  function AtSlot(v: View, g: Regs, x: int): Regs
    requires g.avail > 0 && (v.lock ==> g.mutex > 0)
  {
    g.(avail := g.avail - 1, mutex := if v.lock then g.mutex - 1 else g.mutex,
       h := if v.kind.Write? then Thread(Slot(g.index), x, g.h.log + [x]) else g.h.(pc := Slot(g.index)))
  }

  lemma ToSlot(v: View, g: Regs, x: int)
    requires g.h.pc.Idle? && g.avail > 0 && (v.lock ==> g.mutex > 0)
    ensures Climbs(v, g, x, AtSlot(v, g, x))
  {
    assert LocalN(v, g, x, 0) == Some(g);
    var m := g;
    if v.kind.Write? {
      Climb(v, g, x, m);
      m := Local(v.kind, v.lock, |v.buf|, m, x).value;
    }
    Climb(v, g, x, m);
    m := Local(v.kind, v.lock, |v.buf|, m, x).value;
    if v.lock {
      Climb(v, g, x, m);
      m := Local(v.kind, v.lock, |v.buf|, m, x).value;
    }
    Climb(v, g, x, m);
  }

  /** From the slot access to the post that hands the slot over. */
  function HandedOver(v: View, g: Regs): Regs
    requires |v.buf| > 0
  {
    g.(mutex := if v.lock then g.mutex + 1 else g.mutex, index := (g.index + 1) % |v.buf|, post := g.post + 1,
       h := g.h.(pc := if v.kind.Write? then Idle else Released))
  }

  lemma ToHandedOver(v: View, g: Regs, x: int)
    requires g.h.pc.Accessed? && |v.buf| > 0
    ensures Climbs(v, g, x, HandedOver(v, g))
  {
    assert LocalN(v, g, x, 0) == Some(g);
    var m := g;
    Climb(v, g, x, m);
    m := Local(v.kind, v.lock, |v.buf|, m, x).value;
    Climb(v, g, x, m);
    m := Local(v.kind, v.lock, |v.buf|, m, x).value;
    if v.lock {
      Climb(v, g, x, m);
      m := Local(v.kind, v.lock, |v.buf|, m, x).value;
    }
    Climb(v, g, x, m);
  }

  // ---- two producers without a mutex ----

  lemma GoToSlot(cfg: Config, s0: State, s: State, kind: Kind, t: nat, x: int) returns (s': State)
    requires Reaches(cfg, s0, s) && t < |ViewOf(cfg, s, kind).me.threads|
    requires var v := ViewOf(cfg, s, kind); v.me.threads[t].pc.Idle? && v.me.avail > 0 && (v.lock ==> v.me.mutex > 0)
    ensures Reaches(cfg, s0, s')
    ensures var v := ViewOf(cfg, s, kind); s' == Back(s, Put(v, t, AtSlot(v, Get(v, t), x)))
  {
    var v := ViewOf(cfg, s, kind);
    ToSlot(v, Get(v, t), x);
    ClimbReaches(cfg, s0, s, kind, t, x, AtSlot(v, Get(v, t), x));
    s' := Back(s, Put(v, t, AtSlot(v, Get(v, t), x)));
  }

  /** Both producers read the same index, both store to slot 0: the first item is lost. */
  lemma LostItem(cfg: Config, producers: nat, consumers: nat) returns (s: State)
    requires cfg.size >= 2 && !cfg.writeMutex && producers >= 2
    ensures Reaches(cfg, Init(cfg, producers, consumers), s)
    ensures s.w.done == [1, 2] && s.r.done == [] && |s.buf| >= 2 && s.buf[0] == 2 && !Fifo(s)
  {
    var s0 := Init(cfg, producers, consumers);
    Start(cfg, s0);
    s := GoToSlot(cfg, s0, s0, Write, 0, 1);
    s := GoToSlot(cfg, s0, s, Write, 1, 2);
    Go(cfg, s0, s, Action(Write, 0, 0));
    s := Step(cfg, s, Action(Write, 0, 0)).value;
    Go(cfg, s0, s, Action(Write, 1, 0));
    s := Step(cfg, s, Action(Write, 1, 0)).value;
    assert s.buf[0 % |s.buf|] != s.w.done[0];
  }

  // ---- two consumers without a mutex ----

  /** One whole pass of one thread through the buffer, alone. */
  function Passed(v: View, t: nat, x: int): View
    requires t < |v.me.threads| && v.me.avail > 0 && v.me.index < |v.buf|
  {
    var h, i := v.me.threads[t], v.me.index;
    var item := if v.kind.Write? then x else v.buf[i];
    var pc := if v.kind.Write? then Idle else Released;
    v.(buf := if v.kind.Write? then v.buf[i := x] else v.buf, post := v.post + 1,
       me := v.me.(avail := v.me.avail - 1, index := (i + 1) % |v.buf|,
                   done := v.me.done + [item], who := v.me.who + [t],
                   threads := v.me.threads[t := Thread(pc, item, h.log + [item])]))
  }

  lemma PassedIs(v: View, t: nat, x: int)
    requires t < |v.me.threads| && v.me.avail > 0 && v.me.index < |v.buf| && (v.lock ==> v.me.mutex > 0)
    ensures var u := Access(Put(v, t, AtSlot(v, Get(v, t), x)), t, v.me.index);
      Put(u, t, HandedOver(u, Get(u, t))) == Passed(v, t, x)
  {
    var u := Access(Put(v, t, AtSlot(v, Get(v, t), x)), t, v.me.index);
    assert Put(u, t, HandedOver(u, Get(u, t))).me.threads == Passed(v, t, x).me.threads;
  }

  lemma Pass(cfg: Config, s0: State, s: State, kind: Kind, t: nat, x: int) returns (s': State)
    requires Reaches(cfg, s0, s)
    requires var v := ViewOf(cfg, s, kind);
      && t < |v.me.threads| && v.me.threads[t].pc.Idle? && v.me.avail > 0 && v.me.index < |v.buf|
      && (v.lock ==> v.me.mutex > 0)
    ensures Reaches(cfg, s0, s') && s' == Back(s, Passed(ViewOf(cfg, s, kind), t, x))
  {
    var v := ViewOf(cfg, s, kind);
    var m := GoToSlot(cfg, s0, s, kind, t, x);
    Go(cfg, s0, m, Action(kind, t, x));
    m := Step(cfg, m, Action(kind, t, x)).value;
    var u := ViewOf(cfg, m, kind);
    ToHandedOver(u, Get(u, t), x);
    ClimbReaches(cfg, s0, m, kind, t, x, HandedOver(u, Get(u, t)));
    PassedIs(v, t, x);
    s' := Back(m, Put(u, t, HandedOver(u, Get(u, t))));
  }

  lemma OneItem(cfg: Config, producers: nat, consumers: nat) returns (s: State)
    requires cfg.size >= 2 && producers >= 1
    ensures var s0 := Init(cfg, producers, consumers);
      && Reaches(cfg, s0, s)
      && |s.buf| == cfg.size && s.buf[0] == 1 && s.r == s0.r.(avail := 1)
      && s.w.done == [1] && |s.w.threads| == producers && s.w.threads[0].pc.Idle?
      && s.w.avail == cfg.size - 1 && s.w.index == 1 && s.w.mutex == 1
  {
    var s0 := Init(cfg, producers, consumers);
    Start(cfg, s0);
    s := Pass(cfg, s0, s0, Write, 0, 1);
    FirstPassed(cfg, producers, consumers);
  }

  lemma FirstPassed(cfg: Config, producers: nat, consumers: nat)
    requires cfg.size >= 2 && producers >= 1
    ensures var v := ViewOf(cfg, Init(cfg, producers, consumers), Write); var u := Passed(v, 0, 1);
      && |u.buf| == cfg.size && u.buf[0] == 1 && u.post == 1 && u.kind == Write
      && u.me.done == [1] && |u.me.threads| == producers && u.me.threads[0].pc.Idle?
      && u.me.avail == cfg.size - 1 && u.me.index == 1 && u.me.mutex == 1
  {
  }

  lemma TwoItems(cfg: Config, producers: nat, consumers: nat) returns (s: State)
    requires cfg.size >= 2 && producers >= 1
    ensures Reaches(cfg, Init(cfg, producers, consumers), s)
    ensures s.w.done == [1, 2] && s.r == Init(cfg, producers, consumers).r.(avail := 2)
    ensures |s.buf| == cfg.size && s.buf[0] == 1
  {
    var s0 := Init(cfg, producers, consumers);
    s := OneItem(cfg, producers, consumers);
    s := Pass(cfg, s0, s, Write, 0, 2);
  }

  lemma BothAtSlotZero(cfg: Config, producers: nat, consumers: nat) returns (s: State)
    requires cfg.size >= 2 && !cfg.readMutex && producers >= 1 && consumers >= 2
    ensures Reaches(cfg, Init(cfg, producers, consumers), s)
    ensures s.w.done == [1, 2] && s.r.done == [] && |s.buf| == cfg.size && s.buf[0] == 1
    ensures |s.r.threads| == consumers && s.r.threads[0].pc == Slot(0) && s.r.threads[1].pc == Slot(0)
  {
    var s0 := Init(cfg, producers, consumers);
    s := TwoItems(cfg, producers, consumers);
    s := GoToSlot(cfg, s0, s, Read, 0, 0);
    s := GoToSlot(cfg, s0, s, Read, 1, 0);
  }

  /** Both consumers read the same index and load slot 0: the second item is never read. */
  lemma DoubleRead(cfg: Config, producers: nat, consumers: nat) returns (s: State)
    requires cfg.size >= 2 && !cfg.readMutex && producers >= 1 && consumers >= 2
    ensures Reaches(cfg, Init(cfg, producers, consumers), s)
    ensures s.w.done == [1, 2] && s.r.done == [1, 1] && !Fifo(s)
  {
    var s0 := Init(cfg, producers, consumers);
    s := BothAtSlotZero(cfg, producers, consumers);
    Go(cfg, s0, s, Action(Read, 0, 0));
    s := Step(cfg, s, Action(Read, 0, 0)).value;
    Go(cfg, s0, s, Action(Read, 1, 0));
    s := Step(cfg, s, Action(Read, 1, 0)).value;
    assert s.r.done[1] != s.w.done[1];
  }

  /** The buffer is a queue in every run exactly when each side is guarded. */
  lemma FifoExactly(cfg: Config, producers: nat, consumers: nat)
    requires cfg.size >= 1
    ensures (forall s :: Reaches(cfg, Init(cfg, producers, consumers), s) ==> Fifo(s))
      <==> FifoSafe(cfg, producers, consumers)
  {
    var s0 := Init(cfg, producers, consumers);
    if FifoSafe(cfg, producers, consumers) {
      forall s | Reaches(cfg, s0, s) ensures Fifo(s) {
        var sched :| Exec(cfg, s0, sched) == Some(s);
        SafeRunIsFifo(cfg, producers, consumers, sched);
      }
    } else if !cfg.writeMutex && producers >= 2 && cfg.size >= 2 {
      var s := LostItem(cfg, producers, consumers);
    } else {
      var s := DoubleRead(cfg, producers, consumers);
    }
  }
}
