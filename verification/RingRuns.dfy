/** Whole runs of the circular buffer: FIFO order, non-interference, and exactly when they hold. */
module RingRuns {
  import opened Sums
  import opened Ring

  lemma InitInv(cfg: Config, producers: nat, consumers: nat)
    requires cfg.size >= 1
    ensures Inv(cfg, Init(cfg, producers, consumers))
  {
    var s := Init(cfg, producers, consumers);
    SumBound(s.w.threads, Pre, 0);
    SumBound(s.w.threads, Filled, 0);
    SumBound(s.w.threads, Crit, 0);
    SumBound(s.w.threads, Pend, 0);
    SumBound(s.r.threads, Pre, 0);
    SumBound(s.r.threads, Filled, 0);
    SumBound(s.r.threads, Crit, 0);
    SumBound(s.r.threads, Pend, 0);
  }

  ghost predicate SameThreads(s: State, s': State) {
    |s'.w.threads| == |s.w.threads| && |s'.r.threads| == |s.r.threads|
  }

  lemma StepThreads(cfg: Config, s: State, a: Action)
    requires Step(cfg, s, a).Some?
    ensures SameThreads(s, Step(cfg, s, a).value)
  {
  }

  lemma ReadIgnoresAmount(cfg: Config, s: State, a: Action)
    requires a.kind.Read?
    ensures Step(cfg, s, a) == Step(cfg, s, a.(x := 0))
  {
  }

  lemma {:induction false} RunInv(cfg: Config, s: State, sched: seq<Action>)
    requires Inv(cfg, s) && Exec(cfg, s, sched).Some?
    ensures Inv(cfg, Exec(cfg, s, sched).value) && SameThreads(s, Exec(cfg, s, sched).value)
    decreases |sched|
  {
    if sched == [] {
    } else {
      StepInv(cfg, s, sched[0]);
      StepThreads(cfg, s, sched[0]);
      RunInv(cfg, Step(cfg, s, sched[0]).value, sched[1..]);
    }
  }

  ghost predicate Reaches(cfg: Config, s: State, s': State) {
    exists sched :: Exec(cfg, s, sched) == Some(s')
  }

  lemma {:induction false} ExecSnoc(cfg: Config, s: State, sched: seq<Action>, a: Action)
    ensures Exec(cfg, s, sched + [a]) ==
      if Exec(cfg, s, sched).None? then None else Step(cfg, Exec(cfg, s, sched).value, a)
    decreases |sched|
  {
    var all := sched + [a];
    if sched == [] {
      assert all[0] == a && all[1..] == [];
    } else {
      assert all[0] == sched[0] && all[1..] == sched[1..] + [a];
      if Step(cfg, s, sched[0]).Some? { ExecSnoc(cfg, Step(cfg, s, sched[0]).value, sched[1..], a); }
    }
  }

  lemma Go(cfg: Config, s0: State, s: State, a: Action)
    requires Reaches(cfg, s0, s) && Step(cfg, s, a).Some?
    ensures Reaches(cfg, s0, Step(cfg, s, a).value)
  {
    var sched :| Exec(cfg, s0, sched) == Some(s);
    ExecSnoc(cfg, s0, sched, a);
  }

  lemma Start(cfg: Config, s: State)
    ensures Reaches(cfg, s, s)
  {
    assert Exec(cfg, s, []) == Some(s);
  }

  // ---- the queue it refines ----

  /** The abstract bounded queue: the items stored and not yet loaded. */
  function Queue(s: State): seq<int>
    requires |s.r.done| <= |s.w.done|
  {
    s.w.done[|s.r.done|..]
  }

  /** Every step of a guarded program is one enqueue, one dequeue or nothing, on a queue of `size` slots. */
  lemma StepRefinesQueue(cfg: Config, s: State, a: Action)
    requires Inv(cfg, s) && Guarded(cfg, s) && Step(cfg, s, a).Some?
    ensures var s' := Step(cfg, s, a).value;
      && |s'.r.done| <= |s'.w.done|
      && (if a.kind.Write? && s.w.threads[a.t].pc.Slot? then
            |Queue(s)| < cfg.size && Queue(s') == Queue(s) + [s.w.threads[a.t].item]
          else if a.kind.Read? && s.r.threads[a.t].pc.Slot? then
            Queue(s) != [] && s'.r.threads[a.t].item == Queue(s)[0] && Queue(s') == Queue(s)[1..]
          else Queue(s') == Queue(s))
  {
    if a.kind.Write? && s.w.threads[a.t].pc.Slot? {
      StoreSlot(cfg, s, a.t);
    } else if a.kind.Read? && s.r.threads[a.t].pc.Slot? {
      LoadSlot(cfg, s, a.t);
    }
  }

  /** A producer about to store never aims at a slot that holds an unread item. */
  lemma NoOverwrite(cfg: Config, s: State, p: nat, k: nat)
    requires Inv(cfg, s) && Guarded(cfg, s) && p < |s.w.threads| && s.w.threads[p].pc.Slot?
    requires |s.r.done| <= k < |s.w.done|
    ensures s.w.threads[p].pc.i != k % cfg.size
  {
    StoreSlot(cfg, s, p);
    ModDistinct(k, |s.w.done|, cfg.size);
  }

  /** ... nor at the slot a consumer is about to load. */
  lemma NoCollision(cfg: Config, s: State, p: nat, c: nat)
    requires Inv(cfg, s) && Guarded(cfg, s)
    requires p < |s.w.threads| && s.w.threads[p].pc.Slot? && c < |s.r.threads| && s.r.threads[c].pc.Slot?
    ensures s.w.threads[p].pc.i != s.r.threads[c].pc.i
  {
    LoadSlot(cfg, s, c);
    NoOverwrite(cfg, s, p, |s.r.done|);
  }

  // ---- every schedule keeps moving ----

  lemma SideStuck(v: View)
    requires ViewWf(v) && (v.lock ==> v.me.mutex + Sum(v.me.threads, Crit) == 1)
    requires forall t :: 0 <= t < |v.me.threads| ==> SideStep(v, t, 0).None?
    ensures Sum(v.me.threads, Pre) == 0 && Sum(v.me.threads, Filled) == 0
    ensures |v.me.threads| > 0 ==> v.me.avail == 0
  {
    var ts := v.me.threads;
    forall t | 0 <= t < |ts| ensures (ts[t].pc.Idle? || ts[t].pc.Ready? || ts[t].pc.Token?) && PcWf(v, ts[t].pc) {
      assert SideStep(v, t, 0).None?;
    }
    SumBound(ts, Crit, 0);
    SumBound(ts, Filled, 0);
    forall t | 0 <= t < |ts| ensures !ts[t].pc.Token? && v.me.avail == 0 { assert SideStep(v, t, 0).None?; }
    SumBound(ts, Pre, 0);
    if |ts| > 0 { assert !ts[0].pc.Token?; }
  }

  /** Deadlock freedom, with or without mutexes: some thread can always step. */
  lemma SomeoneCanStep(cfg: Config, s: State)
    requires Inv(cfg, s) && |s.w.threads| >= 1 && |s.r.threads| >= 1
    ensures exists a :: Step(cfg, s, a).Some?
  {
    var w, r := ViewOf(cfg, s, Write), ViewOf(cfg, s, Read);
    if t :| 0 <= t < |w.me.threads| && SideStep(w, t, 0).Some? {
      assert Step(cfg, s, Action(Write, t, 0)).Some?;
    } else if t :| 0 <= t < |r.me.threads| && SideStep(r, t, 0).Some? {
      assert Step(cfg, s, Action(Read, t, 0)).Some?;
    } else {
      SideStuck(w);
      SideStuck(r);
      assert false;
    }
  }

  // ---- progress under every scheduler ----

  /** Position in the loop body, counted in steps; ten more before the slot access than after it. */
  function Rank(h: Thread): nat {
    match h.pc
    case Idle => 10
    case Ready => 11
    case Token => 12
    case Enter => 13
    case Slot(_) => 14
    case Accessed => 5
    case Next(_) => 6
    case Indexed => 7
    case Unlocked => 8
    case Released => 9
  }

  /** At least the number of steps the side has taken: ten for each loop body that reached its slot. */
  function Potential(me: Side): int {
    10 * |me.done| + Sum(me.threads, Rank) - 10 * |me.threads|
  }

  lemma SideProgress(v: View, t: nat, x: int)
    requires t < |v.me.threads| && SideStep(v, t, x).Some?
    ensures Potential(SideStep(v, t, x).value.me) >= Potential(v.me) + 1
  {
    SumUpdate(v.me.threads, t, SideStep(v, t, x).value.me.threads[t], Rank);
  }

  lemma StepProgress(cfg: Config, s: State, a: Action)
    requires Step(cfg, s, a).Some?
    ensures var s' := Step(cfg, s, a).value;
      Potential(s'.w) + Potential(s'.r) >= Potential(s.w) + Potential(s.r) + 1
  {
    SideProgress(ViewOf(cfg, s, a.kind), a.t, a.x);
  }

  lemma {:induction false} RunProgress(cfg: Config, s: State, sched: seq<Action>)
    requires Exec(cfg, s, sched).Some?
    ensures var s' := Exec(cfg, s, sched).value;
      Potential(s'.w) + Potential(s'.r) >= Potential(s.w) + Potential(s.r) + |sched|
    decreases |sched|
  {
    if sched == [] {
    } else {
      StepProgress(cfg, s, sched[0]);
      RunProgress(cfg, Step(cfg, s, sched[0]).value, sched[1..]);
    }
  }

  /** Deadlock freedom is not enough: every schedule, fair or not, delivers. A run of n steps
      has loaded at least (n - 10*size - 4*threads) / 20 items. */
  lemma Throughput(cfg: Config, producers: nat, consumers: nat, sched: seq<Action>)
    requires cfg.size >= 1 && Exec(cfg, Init(cfg, producers, consumers), sched).Some?
    ensures var s := Exec(cfg, Init(cfg, producers, consumers), sched).value;
      |sched| <= 20 * |s.r.done| + 10 * cfg.size + 4 * (producers + consumers)
  {
    var s0 := Init(cfg, producers, consumers);
    var s := Exec(cfg, s0, sched).value;
    InitInv(cfg, producers, consumers);
    RunInv(cfg, s0, sched);
    RunProgress(cfg, s0, sched);
    SumUniform(s0.w.threads, Rank, 10);
    SumUniform(s0.r.threads, Rank, 10);
    PotentialBound(s.w);
    PotentialBound(s.r);
  }

  lemma PotentialBound(me: Side)
    ensures Potential(me) <= 10 * |me.done| + 4 * |me.threads|
  {
    SumBound(me.threads, Rank, 14);
  }

  // ---- each thread's own order ----

  /** The accesses made by thread `t`, in order. */
  function Items(done: seq<int>, who: seq<nat>, t: nat): seq<int>
    requires |who| == |done|
  {
    if done == [] then []
    else
      var n := |done| - 1;
      Items(done[..n], who[..n], t) + (if who[n] == t then [done[n]] else [])
  }

  lemma ItemsSnoc(done: seq<int>, who: seq<nat>, x: int, u: nat, t: nat)
    requires |who| == |done|
    ensures Items(done + [x], who + [u], t) == Items(done, who, t) + (if u == t then [x] else [])
  {
    assert (done + [x])[..|done|] == done && (who + [u])[..|who|] == who;
  }

  /** The item a producer has made and not yet stored. */
  function Unstored(kind: Kind, h: Thread): seq<int> {
    if kind.Write? && (h.pc.Ready? || h.pc.Token? || h.pc.Enter? || h.pc.Slot?) then [h.item] else []
  }

  ghost predicate Logged(v: View) {
    |v.me.who| == |v.me.done| &&
    forall t :: 0 <= t < |v.me.threads| ==>
      v.me.threads[t].log == Items(v.me.done, v.me.who, t) + Unstored(v.kind, v.me.threads[t])
  }

  /** The stepping thread's log, given the accesses `items` it had made before the step. */
  lemma OwnLogStep(v: View, t: nat, x: int, items: seq<int>)
    requires ViewWf(v) && t < |v.me.threads| && SideStep(v, t, x).Some?
    requires v.me.threads[t].log == items + Unstored(v.kind, v.me.threads[t])
    ensures var u := SideStep(v, t, x).value; var h := u.me.threads[t];
      if v.me.threads[t].pc.Slot?
      then |u.me.done| == |v.me.done| + 1 && h.log == items + [u.me.done[|v.me.done|]] + Unstored(u.kind, h)
      else h.log == items + Unstored(u.kind, h)
  {
    assert PcWf(v, v.me.threads[t].pc);
  }

  /** The access history: unchanged, or grown by thread `t`. */
  lemma HistoryStep(v: View, t: nat, x: int)
    requires t < |v.me.threads| && SideStep(v, t, x).Some?
    ensures var u := SideStep(v, t, x).value;
      && u.kind == v.kind && |u.me.threads| == |v.me.threads|
      && (forall q :: 0 <= q < |v.me.threads| && q != t ==> u.me.threads[q] == v.me.threads[q])
      && (if v.me.threads[t].pc.Slot?
          then |u.me.done| == |v.me.done| + 1 && u.me.done == v.me.done + [u.me.done[|v.me.done|]]
              && u.me.who == v.me.who + [t]
          else u.me.done == v.me.done && u.me.who == v.me.who)
  {
  }

  lemma LoggedBack(v: View, u: View, t: nat, slot: bool)
    requires Logged(v) && t < |v.me.threads| && u.kind == v.kind && |u.me.threads| == |v.me.threads|
    requires forall q :: 0 <= q < |v.me.threads| && q != t ==> u.me.threads[q] == v.me.threads[q]
    requires if slot
      then |u.me.done| == |v.me.done| + 1 && u.me.done == v.me.done + [u.me.done[|v.me.done|]]
          && u.me.who == v.me.who + [t]
      else u.me.done == v.me.done && u.me.who == v.me.who
    requires u.me.threads[t].log == Items(v.me.done, v.me.who, t)
      + (if slot then [u.me.done[|v.me.done|]] else []) + Unstored(u.kind, u.me.threads[t])
    ensures Logged(u)
  {
    forall q | 0 <= q < |u.me.threads|
      ensures u.me.threads[q].log == Items(u.me.done, u.me.who, q) + Unstored(u.kind, u.me.threads[q])
    {
      if slot { ItemsSnoc(v.me.done, v.me.who, u.me.done[|v.me.done|], t, q); }
    }
  }

  lemma SideLogged(v: View, t: nat, x: int)
    requires ViewWf(v) && Logged(v) && t < |v.me.threads| && SideStep(v, t, x).Some?
    ensures Logged(SideStep(v, t, x).value)
  {
    OwnLogStep(v, t, x, Items(v.me.done, v.me.who, t));
    HistoryStep(v, t, x);
    LoggedBack(v, SideStep(v, t, x).value, t, v.me.threads[t].pc.Slot?);
  }

  lemma {:induction false} RunLogged(cfg: Config, s: State, sched: seq<Action>)
    requires Inv(cfg, s) && Exec(cfg, s, sched).Some?
    requires Logged(ViewOf(cfg, s, Write)) && Logged(ViewOf(cfg, s, Read))
    ensures var s' := Exec(cfg, s, sched).value; Logged(ViewOf(cfg, s', Write)) && Logged(ViewOf(cfg, s', Read))
    decreases |sched|
  {
    if sched == [] {
    } else {
      var a := sched[0];
      SideLogged(ViewOf(cfg, s, a.kind), a.t, a.x);
      StepInv(cfg, s, a);
      RunLogged(cfg, Step(cfg, s, a).value, sched[1..]);
    }
  }

  /** For every run: a producer's items are stored once each and in the order it made them,
      all but the one it still holds; a consumer's log is exactly what it loaded. */
  lemma ProgramOrder(cfg: Config, producers: nat, consumers: nat, sched: seq<Action>)
    requires cfg.size >= 1 && Exec(cfg, Init(cfg, producers, consumers), sched).Some?
    ensures var s := Exec(cfg, Init(cfg, producers, consumers), sched).value;
      Logged(ViewOf(cfg, s, Write)) && Logged(ViewOf(cfg, s, Read))
  {
    InitInv(cfg, producers, consumers);
    RunLogged(cfg, Init(cfg, producers, consumers), sched);
  }

  /** The items of the schedule's actions by which producer `p` makes its items. */
  function Made(cfg: Config, s: State, sched: seq<Action>, p: nat): seq<int>
    decreases |sched|
  {
    if sched == [] || Step(cfg, s, sched[0]).None? then []
    else (if Makes(s, sched[0], p) then [sched[0].x] else []) + Made(cfg, Step(cfg, s, sched[0]).value, sched[1..], p)
  }

  predicate Makes(s: State, a: Action, p: nat) {
    a.kind.Write? && a.t == p && p < |s.w.threads| && s.w.threads[p].pc.Idle?
  }

  lemma StepMakes(cfg: Config, s: State, a: Action, p: nat)
    requires p < |s.w.threads| && Step(cfg, s, a).Some?
    ensures var s' := Step(cfg, s, a).value;
      && p < |s'.w.threads|
      && s'.w.threads[p].log == s.w.threads[p].log + (if Makes(s, a, p) then [a.x] else [])
  {
  }

  /** A producer's items are exactly those its actions bring, in their order; with `ProgramOrder`, those are what
      it stores. */
  lemma {:induction false} RunMakes(cfg: Config, s: State, sched: seq<Action>, p: nat)
    requires p < |s.w.threads| && Exec(cfg, s, sched).Some?
    ensures var s' := Exec(cfg, s, sched).value;
      p < |s'.w.threads| && s'.w.threads[p].log == s.w.threads[p].log + Made(cfg, s, sched, p)
    decreases |sched|
  {
    if sched == [] {
    } else {
      StepMakes(cfg, s, sched[0], p);
      RunMakes(cfg, Step(cfg, s, sched[0]).value, sched[1..], p);
    }
  }

  /** A thread is held up by nothing but a semaphore at zero. */
  lemma BlocksExactly(cfg: Config, s: State, a: Action)
    requires Wf(cfg, s) && a.t < |ViewOf(cfg, s, a.kind).me.threads|
    ensures var me := ViewOf(cfg, s, a.kind).me; var pc := me.threads[a.t].pc;
      Step(cfg, s, a).None? <==>
        || (me.avail == 0 && (pc.Ready? || (pc.Idle? && a.kind.Read?)))
        || (me.mutex == 0 && pc.Token?)
  {
    var v := ViewOf(cfg, s, a.kind);
    assert PcWf(v, v.me.threads[a.t].pc);
  }

  // ---- exactly when the buffer is a queue ----

  /** What `main` must arrange: one slot makes the counting semaphores act as mutexes, and
      consumers that never get an item cannot race. */
  predicate FifoSafe(cfg: Config, producers: nat, consumers: nat) {
    && (cfg.writeMutex || producers <= 1 || cfg.size == 1)
    && (cfg.readMutex || consumers <= 1 || cfg.size == 1 || producers == 0)
  }

  lemma SafeRunIsFifo(cfg: Config, producers: nat, consumers: nat, sched: seq<Action>)
    requires cfg.size >= 1 && FifoSafe(cfg, producers, consumers)
    requires Exec(cfg, Init(cfg, producers, consumers), sched).Some?
    ensures Fifo(Exec(cfg, Init(cfg, producers, consumers), sched).value)
  {
    var s0 := Init(cfg, producers, consumers);
    InitInv(cfg, producers, consumers);
    RunInv(cfg, s0, sched);
    var s := Exec(cfg, s0, sched).value;
    if producers == 0 && |s.w.done| > 0 {
      assert s.w.who[0] < |s.w.threads|;
    }
  }
}
