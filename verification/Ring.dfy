/** The bounded circular buffer of the producer/consumer programs, one shared access per step. */
module Ring {
  import opened Sums

  /** The four programs are the four choices of which side takes its mutex. */
  datatype Config = Config(size: nat, writeMutex: bool, readMutex: bool)

  datatype Kind = Write | Read

  /** Program points of the loop body; a side without a mutex skips `Token` and `Indexed`. */
  datatype Pc =
    | Idle              // producer: about to make an item; consumer: about to wait
    | Ready             // producer: item made, about to wait on empty_count
    | Token             // token taken, about to wait on the mutex
    | Enter             // about to load the index that names the slot
    | Slot(i: nat)      // about to access slot i
    | Accessed          // about to load the index in order to advance it
    | Next(i: nat)      // about to store the advanced index
    | Indexed           // about to post the mutex
    | Unlocked          // about to post the other side's semaphore
    | Released          // consumer: slot given back, loop body not finished

  /** The slot has been accessed in this round of the loop. */
  predicate Past(pc: Pc) { pc.Accessed? || pc.Next? || pc.Indexed? || pc.Unlocked? || pc.Released? }

  /** `log` lists the items this thread has made (producer) or loaded (consumer). */
  datatype Thread = Thread(pc: Pc, item: int, log: seq<int>)

  /** One side of the buffer. `done` and `who` are the history of its slot accesses. */
  datatype Side = Side(avail: nat, mutex: nat, index: nat, threads: seq<Thread>, done: seq<int>, who: seq<nat>)

  datatype State = State(buf: seq<int>, w: Side, r: Side)

  datatype Action = Action(kind: Kind, t: nat, x: int)

  /** What a step of one side may touch: the buffer, its own side, and the semaphore it posts. */
  datatype View = View(kind: Kind, lock: bool, buf: seq<int>, me: Side, post: nat)

  ghost predicate ViewWf(v: View) {
    && |v.buf| >= 1
    && v.me.index < |v.buf|
    && |v.me.who| == |v.me.done|
    && (forall k :: 0 <= k < |v.me.who| ==> v.me.who[k] < |v.me.threads|)
    && forall t :: 0 <= t < |v.me.threads| ==> PcWf(v, v.me.threads[t].pc)
  }

  predicate PcWf(v: View, pc: Pc) {
    && (pc.Slot? || pc.Next? ==> pc.i < |v.buf|)
    && (pc.Token? || pc.Indexed? ==> v.lock)
    && (pc.Ready? ==> v.kind.Write?)
    && (pc.Released? ==> v.kind.Read?)
  }

  /** The cells a step other than a slot access may change: the side's two semaphores and index,
      the semaphore it posts, and the stepping thread. */
  datatype Regs = Regs(avail: nat, mutex: nat, index: nat, post: nat, h: Thread)

  /** The next step of a thread that is not at its slot; `None` when it blocks in `sem_wait`. */
  function Local(kind: Kind, lock: bool, size: nat, g: Regs, x: int): Option<Regs> {
    match g.h.pc
    case Idle =>
      if kind.Write? then Some(g.(h := Thread(Ready, x, g.h.log + [x]))) else WaitAvail(lock, g)
    case Ready => WaitAvail(lock, g)
    case Token => if g.mutex == 0 then None else Some(g.(mutex := g.mutex - 1, h := g.h.(pc := Enter)))
    case Enter => Some(g.(h := g.h.(pc := Slot(g.index))))
    case Slot(_) => None
    case Accessed => Some(g.(h := g.h.(pc := Next(g.index))))
    case Next(i) => if size == 0 then None
        else Some(g.(index := (i + 1) % size, h := g.h.(pc := if lock then Indexed else Unlocked)))
    case Indexed => Some(g.(mutex := g.mutex + 1, h := g.h.(pc := Unlocked)))
    case Unlocked => Some(g.(post := g.post + 1, h := g.h.(pc := if kind.Write? then Idle else Released)))
    case Released => Some(g.(h := g.h.(pc := Idle)))
  }

  function WaitAvail(lock: bool, g: Regs): Option<Regs> {
    if g.avail == 0 then None
    else Some(g.(avail := g.avail - 1, h := g.h.(pc := if lock then Token else Enter)))
  }

  function Get(v: View, t: nat): Regs
    requires t < |v.me.threads|
  {
    Regs(v.me.avail, v.me.mutex, v.me.index, v.post, v.me.threads[t])
  }

  function Put(v: View, t: nat, g: Regs): View
    requires t < |v.me.threads|
  {
    v.(post := g.post,
       me := v.me.(avail := g.avail, mutex := g.mutex, index := g.index, threads := v.me.threads[t := g.h]))
  }

  /** The slot access: a producer stores its item, a consumer loads one. */
  function Access(v: View, t: nat, i: nat): View
    requires t < |v.me.threads| && i < |v.buf|
  {
    var h := v.me.threads[t];
    if v.kind.Write? then
      v.(buf := v.buf[i := h.item],
         me := v.me.(threads := v.me.threads[t := h.(pc := Accessed)], done := v.me.done + [h.item],
             who := v.me.who + [t]))
    else
      v.(me := v.me.(threads := v.me.threads[t := Thread(Accessed, v.buf[i], h.log + [v.buf[i]])],
                     done := v.me.done + [v.buf[i]], who := v.me.who + [t]))
  }

  function SideStep(v: View, t: nat, x: int): Option<View>
    requires t < |v.me.threads|
  {
    var pc := v.me.threads[t].pc;
    if pc.Slot? then if pc.i < |v.buf| then Some(Access(v, t, pc.i)) else None
    else
      var g := Local(v.kind, v.lock, |v.buf|, Get(v, t), x);
      if g.None? then None else Some(Put(v, t, g.value))
  }

  function ViewOf(cfg: Config, s: State, kind: Kind): View {
    if kind.Write? then View(Write, cfg.writeMutex, s.buf, s.w, s.r.avail)
    else View(Read, cfg.readMutex, s.buf, s.r, s.w.avail)
  }

  function Back(s: State, v: View): State {
    if v.kind.Write? then State(v.buf, v.me, s.r.(avail := v.post))
    else State(v.buf, s.w.(avail := v.post), v.me)
  }

  ghost predicate Wf(cfg: Config, s: State) {
    cfg.size == |s.buf| && ViewWf(ViewOf(cfg, s, Write)) && ViewWf(ViewOf(cfg, s, Read))
  }

  function Step(cfg: Config, s: State, a: Action): Option<State> {
    var v := ViewOf(cfg, s, a.kind);
    if a.t >= |v.me.threads| then None
    else
      var u := SideStep(v, a.t, a.x);
      if u.None? then None else Some(Back(s, u.value))
  }

  function Init(cfg: Config, producers: nat, consumers: nat): State {
    State(seq(cfg.size, _ => 0),
          Side(cfg.size, 1, 0, seq(producers, _ => Thread(Idle, 0, [])), [], []),
          Side(0, 1, 0, seq(consumers, _ => Thread(Idle, 0, [])), [], []))
  }

  /** Runs a schedule; `None` when some step of it is blocked. */
  function Exec(cfg: Config, s: State, sched: seq<Action>): Option<State>
    decreases |sched|
  {
    if sched == [] then Some(s)
    else
      var r := Step(cfg, s, sched[0]);
      if r.None? then None else Exec(cfg, r.value, sched[1..])
  }

  // ---- counting threads at program points ----

  function Pre(h: Thread): nat { if h.pc.Token? || h.pc.Enter? || h.pc.Slot? then 1 else 0 }
  function Filled(h: Thread): nat { if h.pc.Accessed? || h.pc.Next? || h.pc.Indexed? || h.pc.Unlocked? then 1 else 0 }
  function Crit(h: Thread): nat {
    if h.pc.Enter? || h.pc.Slot? || h.pc.Accessed? || h.pc.Next? || h.pc.Indexed? then 1 else 0
  }
  function Pend(h: Thread): nat { if h.pc.Accessed? || h.pc.Next? then 1 else 0 }

  lemma SideKeepsWf(v: View, t: nat, x: int)
    requires ViewWf(v) && t < |v.me.threads| && SideStep(v, t, x).Some?
    ensures ViewWf(SideStep(v, t, x).value)
    ensures |SideStep(v, t, x).value.buf| == |v.buf|
  {
    var u := SideStep(v, t, x).value;
    var h := u.me.threads[t];
    assert PcWf(u, h.pc);
    assert u.me.threads == v.me.threads[t := h];
    assert forall k :: 0 <= k < |v.me.threads| && PcWf(v, v.me.threads[k].pc) ==> PcWf(u, v.me.threads[k].pc);
  }

  lemma SideAvail(v: View, t: nat, x: int)
    requires t < |v.me.threads| && SideStep(v, t, x).Some?
    ensures var u := SideStep(v, t, x).value;
      u.me.avail + Sum(u.me.threads, Pre) + |u.me.done| == v.me.avail + Sum(v.me.threads, Pre) + |v.me.done|
  {
    SumUpdate(v.me.threads, t, SideStep(v, t, x).value.me.threads[t], Pre);
  }

  lemma SidePost(v: View, t: nat, x: int)
    requires t < |v.me.threads| && SideStep(v, t, x).Some?
    ensures var u := SideStep(v, t, x).value;
      u.post + Sum(u.me.threads, Filled) - |u.me.done| == v.post + Sum(v.me.threads, Filled) - |v.me.done|
  {
    SumUpdate(v.me.threads, t, SideStep(v, t, x).value.me.threads[t], Filled);
  }

  lemma SideMutex(v: View, t: nat, x: int)
    requires t < |v.me.threads| && SideStep(v, t, x).Some?
    ensures var u := SideStep(v, t, x).value;
      v.lock ==> u.me.mutex + Sum(u.me.threads, Crit) == v.me.mutex + Sum(v.me.threads, Crit)
  {
    SumUpdate(v.me.threads, t, SideStep(v, t, x).value.me.threads[t], Crit);
  }

  // ---- what every variant keeps, guarded or not ----

  ghost predicate Tokens(cfg: Config, s: State) {
    && s.w.avail + s.r.avail + Sum(s.w.threads, Pre) + Sum(s.w.threads, Filled)
       + Sum(s.r.threads, Pre) + Sum(s.r.threads, Filled) == cfg.size
    && |s.w.done| == |s.r.done| + s.r.avail + Sum(s.w.threads, Filled) + Sum(s.r.threads, Pre)
    && (cfg.writeMutex ==> s.w.mutex + Sum(s.w.threads, Crit) == 1)
    && (cfg.readMutex ==> s.r.mutex + Sum(s.r.threads, Crit) == 1)
  }

  /** The three balances a step of one side keeps. */
  ghost predicate Balanced(v: View, u: View) {
    && u.kind == v.kind && u.lock == v.lock && |u.buf| == |v.buf|
    && |u.me.threads| == |v.me.threads|
    && u.me.avail + Sum(u.me.threads, Pre) + |u.me.done| == v.me.avail + Sum(v.me.threads, Pre) + |v.me.done|
    && u.post + Sum(u.me.threads, Filled) - |u.me.done| == v.post + Sum(v.me.threads, Filled) - |v.me.done|
    && (v.lock ==> u.me.mutex + Sum(u.me.threads, Crit) == v.me.mutex + Sum(v.me.threads, Crit))
  }

  lemma SideBalanced(v: View, t: nat, x: int)
    requires t < |v.me.threads| && SideStep(v, t, x).Some?
    ensures Balanced(v, SideStep(v, t, x).value)
  {
    SideAvail(v, t, x);
    SidePost(v, t, x);
    SideMutex(v, t, x);
  }

  lemma BackTokens(cfg: Config, s: State, kind: Kind, u: View)
    requires Wf(cfg, s) && Tokens(cfg, s) && Balanced(ViewOf(cfg, s, kind), u) && ViewWf(u)
    ensures Wf(cfg, Back(s, u)) && Tokens(cfg, Back(s, u))
  {
  }

  lemma StepTokens(cfg: Config, s: State, a: Action)
    requires Wf(cfg, s) && Tokens(cfg, s) && Step(cfg, s, a).Some?
    ensures Wf(cfg, Step(cfg, s, a).value) && Tokens(cfg, Step(cfg, s, a).value)
  {
    var v := ViewOf(cfg, s, a.kind);
    SideKeepsWf(v, a.t, a.x);
    SideBalanced(v, a.t, a.x);
    BackTokens(cfg, s, a.kind, SideStep(v, a.t, a.x).value);
  }

  // ---- one side at a time: index and slot registers agree with the history ----

  ghost predicate Aligned(v: View) {
    && |v.buf| >= 1
    && |v.me.done| >= Sum(v.me.threads, Pend)
    && v.me.index == (|v.me.done| - Sum(v.me.threads, Pend)) % |v.buf|
    && forall t :: 0 <= t < |v.me.threads| && (v.me.threads[t].pc.Slot? || v.me.threads[t].pc.Next?)
         ==> v.me.threads[t].pc.i == v.me.index
  }

  lemma SideAligned(v: View, t: nat, x: int)
    requires ViewWf(v) && Aligned(v) && Sum(v.me.threads, Crit) <= 1
    requires t < |v.me.threads| && SideStep(v, t, x).Some?
    ensures Aligned(SideStep(v, t, x).value)
  {
    var u := SideStep(v, t, x).value;
    SumUpdate(v.me.threads, t, u.me.threads[t], Pend);
    if Crit(v.me.threads[t]) == 1 { SoleHolder(v.me.threads, t, Crit, Pend); }
    if v.me.threads[t].pc.Next? { ModSucc(|v.me.done| - 1, |v.buf|); }
  }

  // ---- the FIFO window ----

  /** A side is guarded by its mutex, by having one thread, or by the buffer having one slot. */
  predicate Guarded(cfg: Config, s: State) {
    && (cfg.writeMutex || |s.w.threads| <= 1 || cfg.size == 1)
    && (cfg.readMutex || |s.r.threads| <= 1 || cfg.size == 1)
  }

  /** What was loaded is a prefix of what was stored, and every unread item still lies in its slot. */
  ghost predicate Fifo(s: State) {
    && |s.buf| >= 1
    && s.r.done <= s.w.done
    && forall k :: |s.r.done| <= k < |s.w.done| ==> s.buf[k % |s.buf|] == s.w.done[k]
  }

  ghost predicate Inv(cfg: Config, s: State) {
    && Wf(cfg, s) && Tokens(cfg, s)
    && (Guarded(cfg, s) ==> Aligned(ViewOf(cfg, s, Write)) && Aligned(ViewOf(cfg, s, Read)) && Fifo(s))
  }

  /** Mutual exclusion on each guarded side. */
  lemma Exclusive(cfg: Config, s: State, kind: Kind)
    requires Tokens(cfg, s) && Guarded(cfg, s)
    ensures Sum(ViewOf(cfg, s, kind).me.threads, Crit) <= 1
  {
    var ts := ViewOf(cfg, s, kind).me.threads;
    SumToLe2(ts, Crit, Pre, Filled, |ts|);
    SumBound(ts, Crit, 1);
  }

  /** A producer at its slot: the slot is the next position, and it is free. */
  lemma StoreSlot(cfg: Config, s: State, t: nat)
    requires Inv(cfg, s) && Guarded(cfg, s) && t < |s.w.threads| && s.w.threads[t].pc.Slot?
    ensures s.w.threads[t].pc.i == |s.w.done| % cfg.size
    ensures |s.w.done| < |s.r.done| + cfg.size
  {
    Exclusive(cfg, s, Write);
    SoleHolder(s.w.threads, t, Crit, Pend);
    SumUpdate(s.w.threads, t, s.w.threads[t], Pre);
  }

  /** A consumer at its slot: the slot holds the oldest unread item. */
  lemma LoadSlot(cfg: Config, s: State, t: nat)
    requires Inv(cfg, s) && Guarded(cfg, s) && t < |s.r.threads| && s.r.threads[t].pc.Slot?
    ensures s.r.threads[t].pc.i == |s.r.done| % cfg.size
    ensures |s.r.done| < |s.w.done|
    ensures s.buf[s.r.threads[t].pc.i] == s.w.done[|s.r.done|]
  {
    Exclusive(cfg, s, Read);
    SoleHolder(s.r.threads, t, Crit, Pend);
    SumUpdate(s.r.threads, t, s.r.threads[t], Pre);
  }

  lemma WriteFifo(cfg: Config, s: State, t: nat, x: int)
    requires Inv(cfg, s) && Guarded(cfg, s) && t < |s.w.threads| && Step(cfg, s, Action(Write, t, x)).Some?
    ensures Fifo(Step(cfg, s, Action(Write, t, x)).value)
  {
    var s' := Step(cfg, s, Action(Write, t, x)).value;
    if s.w.threads[t].pc.Slot? {
      StoreSlot(cfg, s, t);
      var n := |s.w.done|;
      assert s'.buf == s.buf[n % cfg.size := s.w.threads[t].item];
      forall k | |s.r.done| <= k < n + 1 ensures s'.buf[k % cfg.size] == s'.w.done[k] {
        if k < n { ModDistinct(k, n, cfg.size); }
      }
    }
  }

  lemma ReadFifo(cfg: Config, s: State, t: nat, x: int)
    requires Inv(cfg, s) && Guarded(cfg, s) && t < |s.r.threads| && Step(cfg, s, Action(Read, t, x)).Some?
    ensures Fifo(Step(cfg, s, Action(Read, t, x)).value)
  {
    if s.r.threads[t].pc.Slot? { LoadSlot(cfg, s, t); }
  }

  lemma AlignedFrame(v: View, u: View)
    requires Aligned(v) && u.me.index == v.me.index && u.me.threads == v.me.threads && u.me.done == v.me.done
    requires |u.buf| == |v.buf|
    ensures Aligned(u)
  {
  }

  lemma StepAligned(cfg: Config, s: State, a: Action)
    requires Inv(cfg, s) && Guarded(cfg, s) && Step(cfg, s, a).Some?
    ensures Aligned(ViewOf(cfg, Step(cfg, s, a).value, Write)) && Aligned(ViewOf(cfg, Step(cfg, s, a).value, Read))
  {
    var s' := Step(cfg, s, a).value;
    var other := if a.kind.Write? then Read else Write;
    Exclusive(cfg, s, a.kind);
    SideKeepsWf(ViewOf(cfg, s, a.kind), a.t, a.x);
    SideAligned(ViewOf(cfg, s, a.kind), a.t, a.x);
    AlignedFrame(SideStep(ViewOf(cfg, s, a.kind), a.t, a.x).value, ViewOf(cfg, s', a.kind));
    AlignedFrame(ViewOf(cfg, s, other), ViewOf(cfg, s', other));
  }

  lemma StepInv(cfg: Config, s: State, a: Action)
    requires Inv(cfg, s) && Step(cfg, s, a).Some?
    ensures Inv(cfg, Step(cfg, s, a).value)
  {
    StepTokens(cfg, s, a);
    if Guarded(cfg, s) {
      StepAligned(cfg, s, a);
      if a.kind.Write? { WriteFifo(cfg, s, a.t, a.x); } else { ReadFifo(cfg, s, a.t, a.x); }
    }
  }
}
