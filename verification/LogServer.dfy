/** The log server in its own form: a buffer of addresses, the heap and the log file, updated in place. */
module LogServer {
  import opened Ring
  import opened RingMap
  import opened Buffers
  import opened Logger
  import opened LoggerRuns

  // ---- what the program sees of a state of the machine ----

  /** Pointers are bare addresses, and a heap block is its text. */
  datatype Seen = Seen(ring: State, heap: map<nat, string>, phase: Phase, file: string)

  function AddressIn(allocs: seq<Alloc>): int -> int {
    i => if 0 <= i < |allocs| then allocs[i].addr else 0
  }

  function Texts(heap: map<nat, Block>): map<nat, string> { map a | a in heap :: heap[a].bytes }

  function SeenOf(s: Log): Seen { Seen(MapState(AddressIn(s.allocs), s.ring), Texts(s.heap), s.phase, s.file) }

  lemma InitSeen(size: nat, callers: nat)
    ensures ItemsBelow(1, InitLog(size, callers).ring)
    ensures SeenOf(InitLog(size, callers)) == Seen(Init(LogConfig(size), callers, 1), map[], Fetched, "")
  {
    InitMap(LogConfig(size), callers, 1, AddressIn([Alloc(0, "")]));
  }

  lemma MallocSeen(size: nat, s: Log, p: nat, addr: nat, msg: string)
    requires ItemsBelow(|s.allocs|, s.ring) && p < |s.ring.w.threads| && s.ring.w.threads[p].pc.Idle?
    requires addr != 0 && addr !in s.heap
    ensures var st := Step(LogConfig(size), SeenOf(s).ring, Action(Write, p, addr));
      var r := CallerStep(size, s, p, addr, msg);
      && st.Some? && r.Some? && ItemsBelow(|r.value.allocs|, r.value.ring)
      && SeenOf(r.value) == SeenOf(s).(ring := st.value, heap := SeenOf(s).heap[addr := msg + "\n"])
  {
    var id, a := |s.allocs|, Alloc(addr, msg + "\n");
    var f, g := AddressIn(s.allocs), AddressIn(s.allocs + [a]);
    MapAgrees(id, s.ring, f, g);
    StepMap(LogConfig(size), s.ring, Action(Write, p, id), g);
    StillBelow(id, s.ring);
    StepBelow(LogConfig(size), s.ring, Action(Write, p, id), id + 1);
    var s' := CallerStep(size, s, p, addr, msg).value;
    assert Texts(s'.heap) == Texts(s.heap)[addr := msg + "\n"];
  }

  lemma StillBelow(n: nat, s: State)
    requires ItemsBelow(n, s)
    ensures ItemsBelow(n + 1, s)
  {
  }

  lemma CallSeen(size: nat, s: Log, p: nat, addr: nat, msg: string)
    requires ItemsBelow(|s.allocs|, s.ring) && |s.allocs| == |s.place| > 0
    requires p < |s.ring.w.threads| && !s.ring.w.threads[p].pc.Idle?
    ensures var st := Step(LogConfig(size), SeenOf(s).ring, Action(Write, p, addr));
      var r := CallerStep(size, s, p, addr, msg);
      && st.Some? == r.Some?
      && (r.Some? ==> ItemsBelow(|r.value.allocs|, r.value.ring) && SeenOf(r.value) == SeenOf(s).(ring := st.value))
  {
    var cfg, f := LogConfig(size), AddressIn(s.allocs);
    StepMap(cfg, s.ring, Action(Write, p, 0), f);
    OthersIgnoreItem(cfg, s.ring, p, 0, |s.allocs|);
    OthersIgnoreItem(cfg, MapState(f, s.ring), p, f(0), addr);
    if Step(cfg, s.ring, Action(Write, p, 0)).Some? {
      StepBelow(cfg, s.ring, Action(Write, p, 0), |s.allocs|);
    }
  }

  lemma FetchSeen(size: nat, s: Log, io: Io)
    requires ItemsBelow(|s.allocs|, s.ring) && |s.allocs| > 0 && !Busy(s)
    ensures var st := Step(LogConfig(size), SeenOf(s).ring, Action(Read, 0, 0));
      var r := LogStep(size, s, Move.Logger(io));
      && st.Some? == r.Some?
      && (r.Some? ==>
            && ItemsBelow(|r.value.allocs|, r.value.ring)
            && SeenOf(r.value) == SeenOf(s).(ring := st.value, phase := r.value.phase))
  {
    var cfg, f := LogConfig(size), AddressIn(s.allocs);
    StepMap(cfg, s.ring, Action(Read, 0, 0), f);
    OthersIgnoreAmount(cfg, MapState(f, s.ring), f(0));
    if Step(cfg, s.ring, Action(Read, 0, 0)).Some? {
      StepBelow(cfg, s.ring, Action(Read, 0, 0), |s.allocs|);
    }
  }

  lemma OthersIgnoreAmount(cfg: Config, s: State, x: int)
    ensures Step(cfg, s, Action(Read, 0, x)) == Step(cfg, s, Action(Read, 0, 0))
  {
  }

  /** The address in the logger's hands is that of the block its pointer names. */
  lemma InHandSeen(s: Log)
    requires Busy(s) && Deref(s, s.ring.r.threads[0].item).Some?
    ensures var a, id := SeenOf(s).ring.r.threads[0].item, s.ring.r.threads[0].item;
      a == s.allocs[id].addr && a in SeenOf(s).heap && SeenOf(s).heap[a] == Deref(s, id).value.bytes
  {
  }

  lemma FreeSeen(heap: map<nat, Block>, a: nat)
    ensures Texts(heap - {a}) == Texts(heap) - {a}
  {
  }

  class Server {
    const ring: Buffer
    var heap: map<nat, string>
    var phase: Phase
    var file: string
    ghost var model: Log   // the same state, with pointers told apart by allocation, and the histories

    /** The fields are what the program sees of `model`. */
    ghost predicate Showing()
      reads this, ring, ring.transactions
    {
      ItemsBelow(|model.allocs|, model.ring) && Seen(ring.Model(), heap, phase, file) == SeenOf(model)
    }

    ghost predicate Valid()
      reads this, ring, ring.transactions
    {
      ring.cfg == LogConfig(ring.cfg.size) && LogInv(ring.cfg.size, model) && Showing()
    }

    constructor (size: nat, callers: nat)
      requires size >= 1
      ensures Valid() && ring.cfg.size == size && model == InitLog(size, callers)
      ensures fresh(ring) && fresh(ring.transactions)
    {
      ring := new Buffer(LogConfig(size), callers, 1);
      heap, phase, file, model := map[], Fetched, "", InitLog(size, callers);
      new;
      InitLogInv(size, callers);
      InitSeen(size, callers);
    }

    /** A step of the `my_log` call of thread `p`. */
    method Call(p: nat, addr: nat, msg: string) returns (moved: bool)
      requires Valid()
      modifies this, ring, ring.transactions
      ensures Valid()
      ensures var s := CallerStep(ring.cfg.size, old(model), p, addr, msg);
        moved == s.Some? && model == if moved then s.value else old(model)
    {
      ghost var s := model;
      moved := CallOnce(p, addr, msg);
      if moved { CallerInv(ring.cfg.size, s, p, addr, msg); }
    }

    method CallOnce(p: nat, addr: nat, msg: string) returns (moved: bool)
      requires ring.cfg == LogConfig(ring.cfg.size) && Wf(ring.cfg, model.ring) && |model.allocs| == |model.place| > 0
      requires Showing()
      modifies this, ring, ring.transactions
      ensures Showing()
      ensures var s := CallerStep(ring.cfg.size, old(model), p, addr, msg);
        moved == s.Some? && model == if moved then s.value else old(model)
    {
      if p >= |ring.producers| {
        return false;
      }
      ghost var s := model;
      WfMap(ring.cfg, s.ring, AddressIn(s.allocs));
      var making := ring.producers[p].pc.Idle?;
      if making {
        if addr == 0 || addr in heap {
          return false;
        }
        MallocSeen(ring.cfg.size, s, p, addr, msg);
      } else {
        CallSeen(ring.cfg.size, s, p, addr, msg);
      }
      moved := ring.Advance(Action(Write, p, addr));
      if moved {
        if making { heap := heap[addr := msg + "\n"]; }
        model := CallerStep(ring.cfg.size, s, p, addr, msg).value;
      }
    }

    /** A step of the logger thread; `io` is what `write` would do. */
    method Drain(io: Io) returns (moved: bool)
      requires Valid()
      modifies this, ring, ring.transactions
      ensures Valid()
      ensures var s := LogStep(ring.cfg.size, old(model), Move.Logger(io));
        moved == s.Some? && model == if moved then s.value else old(model)
    {
      ghost var s := model;
      if ring.consumers[0].pc.Unlocked? && !phase.Freed? {
        LiveAtAccess(ring.cfg.size, model);
        moved := WriteOut(io);
      } else {
        moved := Fetch(io);
      }
      if moved { LogStepInv(ring.cfg.size, s, Move.Logger(io)); }
    }

    method Fetch(io: Io) returns (moved: bool)
      requires ring.cfg == LogConfig(ring.cfg.size) && Wf(ring.cfg, model.ring) && |model.allocs| > 0
      requires Showing() && |ring.consumers| == 1 && !Busy(model)
      modifies this, ring, ring.transactions
      ensures Showing()
      ensures var s := LogStep(ring.cfg.size, old(model), Move.Logger(io));
        moved == s.Some? && model == if moved then s.value else old(model)
    {
      WfMap(ring.cfg, model.ring, AddressIn(model.allocs));
      FetchSeen(ring.cfg.size, model, io);
      var last := ring.consumers[0].pc.Released?;
      moved := ring.Advance(Action(Read, 0, 0));
      if moved {
        if last { phase := Fetched; }
        model := LogStep(ring.cfg.size, model, Move.Logger(io)).value;
      }
    }

    /** One turn of the loop around `write`, or the `free` after it. */
    method WriteOut(io: Io) returns (moved: bool)
      requires Showing() && Busy(model) && Deref(model, model.ring.r.threads[0].item).Some?
      modifies this`heap, this`phase, this`file, this`model
      ensures Showing()
      ensures var s := WriteStep(old(model), io);
        moved == s.Some? && model == if moved then s.value else old(model)
    {
      InHandSeen(model);
      var msg := ring.consumers[0].item;
      var bytes := heap[msg];
      moved := true;
      match phase {
        case Fetched => phase := Writing(0, |bytes|);
        case Writing(w, left) =>
          if left == 0 {
            heap, phase := heap - {msg}, Freed;
            FreeSeen(model.heap, msg);
          } else if io.Wrote? {
            if io.n <= left && w + io.n <= |bytes| {
              file := file + bytes[w..w + io.n];
              phase := Writing(w + io.n, left - io.n);
            } else {
              moved := false;
            }
          }
      }
      if moved { model := WriteStep(model, io).value; }
    }
  }
}
