/** The shared variables of the circular buffer, updated in place by one step of one thread at a time. */
module Buffers {
  import opened Sums
  import opened Ring
  import opened RingRuns

  class Buffer {
    const cfg: Config
    const transactions: array<int>
    var fillCount: nat
    var emptyCount: nat
    var readMutex: nat
    var writeMutex: nat
    var readIndex: nat
    var writeIndex: nat

    // Each thread's program point and local variables.
    var producers: seq<Thread>
    var consumers: seq<Thread>

    // Histories of the slot accesses.
    ghost var written: seq<int>
    ghost var writers: seq<nat>
    ghost var taken: seq<int>
    ghost var takers: seq<nat>

    ghost function Model(): State
      reads this, transactions
    {
      State(transactions[..],
            Side(emptyCount, writeMutex, writeIndex, producers, written, writers),
            Side(fillCount, readMutex, readIndex, consumers, taken, takers))
    }

    constructor (cfg: Config, nProducers: nat, nConsumers: nat)
      ensures this.cfg == cfg && Model() == Init(cfg, nProducers, nConsumers)
      ensures fresh(transactions)
    {
      this.cfg := cfg;
      transactions := new int[cfg.size](_ => 0);
      fillCount, emptyCount, readMutex, writeMutex := 0, cfg.size, 1, 1;
      readIndex, writeIndex := 0, 0;
      producers := seq(nProducers, _ => Thread(Idle, 0, []));
      consumers := seq(nConsumers, _ => Thread(Idle, 0, []));
      written, writers, taken, takers := [], [], [], [];
      new;
      assert transactions[..] == Init(cfg, nProducers, nConsumers).buf;
    }

    /** `transactions[write_index] = currentTransaction`, with the index already loaded. */
    method StoreSlot(p: nat)
      requires p < |producers| && producers[p].pc.Slot? && producers[p].pc.i < transactions.Length
      modifies this`written, this`writers, this`producers, transactions
      ensures Some(Model()) == Step(cfg, old(Model()), Action(Write, p, 0))
    {
      var h := producers[p];
      transactions[h.pc.i] := h.item;
      written, writers := written + [h.item], writers + [p];
      producers := producers[p := h.(pc := Accessed)];
    }

    /** A step of producer `p` before its slot access; `x` is the amount it would draw.
        `moved` is false when it blocks. */
    method ProducerEnter(p: nat, x: int) returns (moved: bool)
      requires p < |producers| && Rank(producers[p]) >= 10 && !producers[p].pc.Slot?
      modifies this`emptyCount, this`writeMutex, this`producers
      ensures var s := Step(cfg, old(Model()), Action(Write, p, x));
        moved == s.Some? && Model() == if moved then s.value else old(Model())
    {
      moved := true;
      var h := producers[p];
      match h.pc {
        case Idle =>
          producers := producers[p := Thread(Ready, x, h.log + [x])];
        case Ready =>
          if emptyCount == 0 {
            moved := false;
          } else {
            emptyCount := emptyCount - 1;
            producers := producers[p := h.(pc := if cfg.writeMutex then Token else Enter)];
          }
        case Token =>
          if writeMutex == 0 {
            moved := false;
          } else {
            writeMutex := writeMutex - 1;
            producers := producers[p := h.(pc := Enter)];
          }
        case Enter =>
          producers := producers[p := h.(pc := Slot(writeIndex))];
      }
    }

    /** A step of producer `p` after its slot access. */
    method ProducerLeave(p: nat)
      requires p < |producers| && 5 <= Rank(producers[p]) <= 8 && transactions.Length == cfg.size >= 1
      modifies this`writeMutex, this`writeIndex, this`fillCount, this`producers
      ensures Some(Model()) == Step(cfg, old(Model()), Action(Write, p, 0))
    {
      var h := producers[p];
      match h.pc {
        case Accessed =>
          producers := producers[p := h.(pc := Next(writeIndex))];
        case Next(i) =>
          writeIndex := (i + 1) % cfg.size;
          producers := producers[p := h.(pc := if cfg.writeMutex then Indexed else Unlocked)];
        case Indexed =>
          writeMutex := writeMutex + 1;
          producers := producers[p := h.(pc := Unlocked)];
        case Unlocked =>
          fillCount := fillCount + 1;
          producers := producers[p := h.(pc := Idle)];
      }
    }

    /** The load of `transactions[read_index]`, with the index already loaded. */
    method LoadSlot(c: nat)
      requires c < |consumers| && consumers[c].pc.Slot? && consumers[c].pc.i < transactions.Length
      modifies this`taken, this`takers, this`consumers
      ensures Some(Model()) == Step(cfg, old(Model()), Action(Read, c, 0))
    {
      var h := consumers[c];
      var item := transactions[h.pc.i];
      taken, takers := taken + [item], takers + [c];
      consumers := consumers[c := Thread(Accessed, item, h.log + [item])];
    }

    /** A step of consumer `c` before its slot access. `moved` is false when it blocks. */
    method ConsumerEnter(c: nat) returns (moved: bool)
      requires c < |consumers| && Rank(consumers[c]) >= 10 && !consumers[c].pc.Slot? && !consumers[c].pc.Ready?
      modifies this`fillCount, this`readMutex, this`consumers
      ensures var s := Step(cfg, old(Model()), Action(Read, c, 0));
        moved == s.Some? && Model() == if moved then s.value else old(Model())
    {
      moved := true;
      var h := consumers[c];
      match h.pc {
        case Idle =>
          if fillCount == 0 {
            moved := false;
          } else {
            fillCount := fillCount - 1;
            consumers := consumers[c := h.(pc := if cfg.readMutex then Token else Enter)];
          }
        case Token =>
          if readMutex == 0 {
            moved := false;
          } else {
            readMutex := readMutex - 1;
            consumers := consumers[c := h.(pc := Enter)];
          }
        case Enter =>
          consumers := consumers[c := h.(pc := Slot(readIndex))];
      }
    }

    /** A step of consumer `c` on the buffer after its slot access. */
    method ConsumerLeave(c: nat)
      requires c < |consumers| && Rank(consumers[c]) < 10 && transactions.Length == cfg.size >= 1
      modifies this`readMutex, this`readIndex, this`emptyCount, this`consumers
      ensures Some(Model()) == Step(cfg, old(Model()), Action(Read, c, 0))
    {
      var h := consumers[c];
      match h.pc {
        case Accessed =>
          consumers := consumers[c := h.(pc := Next(readIndex))];
        case Next(i) =>
          readIndex := (i + 1) % cfg.size;
          consumers := consumers[c := h.(pc := if cfg.readMutex then Indexed else Unlocked)];
        case Indexed =>
          readMutex := readMutex + 1;
          consumers := consumers[c := h.(pc := Unlocked)];
        case Unlocked =>
          emptyCount := emptyCount + 1;
          consumers := consumers[c := h.(pc := Released)];
        case Released =>
          consumers := consumers[c := h.(pc := Idle)];
      }
    }

    /** Lets the named thread take its next step, if it can. */
    method Advance(a: Action) returns (moved: bool)
      requires Wf(cfg, Model())
      modifies this, transactions
      ensures moved == Step(cfg, old(Model()), a).Some?
      ensures Model() == if moved then Step(cfg, old(Model()), a).value else old(Model())
    {
      if a.kind.Write? {
        moved := AdvanceProducer(a.t, a.x);
      } else {
        moved := AdvanceConsumer(a.t, a.x);
      }
    }

    method AdvanceProducer(p: nat, x: int) returns (moved: bool)
      requires Wf(cfg, Model())
      modifies this, transactions
      ensures var s := Step(cfg, old(Model()), Action(Write, p, x));
        moved == s.Some? && Model() == if moved then s.value else old(Model())
    {
      if p >= |producers| {
        return false;
      }
      assert PcWf(ViewOf(cfg, Model(), Write), Model().w.threads[p].pc);
      moved := true;
      if producers[p].pc.Slot? {
        StoreSlot(p);
      } else if Rank(producers[p]) < 10 {
        ProducerLeave(p);
      } else {
        moved := ProducerEnter(p, x);
      }
    }

    method AdvanceConsumer(c: nat, x: int) returns (moved: bool)
      requires Wf(cfg, Model())
      modifies this, transactions
      ensures var s := Step(cfg, old(Model()), Action(Read, c, x));
        moved == s.Some? && Model() == if moved then s.value else old(Model())
    {
      if c >= |consumers| {
        return false;
      }
      assert PcWf(ViewOf(cfg, Model(), Read), Model().r.threads[c].pc);
      ReadIgnoresAmount(cfg, Model(), Action(Read, c, x));
      moved := true;
      if consumers[c].pc.Slot? {
        LoadSlot(c);
      } else if Rank(consumers[c]) < 10 {
        ConsumerLeave(c);
      } else {
        moved := ConsumerEnter(c);
      }
    }
  }
}
