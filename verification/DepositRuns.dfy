/** Whole runs of the four producer/consumer programs: the balance and what is printed. */
module DepositRuns {
  import opened Sums
  import opened Ring
  import opened RingRuns
  import opened Deposit

  function Cells(b: Bank): seq<Cell>
    requires |b.work| == |b.ring.r.threads|
  {
    seq(|b.work|, c requires 0 <= c < |b.work| => Cell(b.ring.r.threads[c], b.work[c]))
  }

  /** Which work stages go with which program points. */
  predicate Gate(lock: bool, pc: Pc, w: Work) {
    match pc
    case Accessed => if lock then w.Fresh? || w.Have? || w.Added? else w.Fresh?
    case Next(_) => if lock then w.Added? else w.Fresh?
    case Indexed => lock && (w.Added? || w.Due? || w.Done?)
    case Unlocked => if lock then w.Done? else w.Fresh?
    case Released => lock ==> w.Done?
    case _ => w.Fresh?
  }

  predicate OneReader(cfg: Config, s: State) { cfg.readMutex || |s.r.threads| <= 1 }

  ghost predicate BankInv(cfg: Config, b: Bank) {
    && Inv(cfg, b.ring)
    && |b.work| == |b.ring.r.threads|
    && (forall c :: 0 <= c < |b.work| ==> Gate(cfg.readMutex, b.ring.r.threads[c].pc, b.work[c]))
    && (OneReader(cfg, b.ring) ==> Money(b.deposit, b.ring.r.done, Cells(b)))
    && (OneReader(cfg, b.ring) && Guarded(cfg, b.ring)
        ==> Books(b.printed, PrintPoint(cfg.size), b.ring.r.done, Cells(b)))
  }

  /** When a consumer is about to load its slot, no other has an item to settle. */
  lemma NothingOpen(cfg: Config, b: Bank, c: nat)
    requires BankInv(cfg, b) && OneReader(cfg, b.ring) && c < |b.work| && b.ring.r.threads[c].pc.Slot?
    ensures Sum(Cells(b), Unprinted) == 0 && Sum(Cells(b), Unadded) == 0
  {
    var ts := b.ring.r.threads;
    if cfg.readMutex { SoleHolder(ts, c, Crit, Crit); }
    SumBound(Cells(b), Unprinted, 0);
    SumBound(Cells(b), Unadded, 0);
  }

  /** When a consumer tests `read_index`, the index has caught up with the history. */
  lemma IndexCaughtUp(cfg: Config, b: Bank, c: nat)
    requires BankInv(cfg, b) && OneReader(cfg, b.ring) && Guarded(cfg, b.ring) && c < |b.work|
    requires b.ring.r.threads[c].pc.Indexed? || b.ring.r.threads[c].pc.Released?
    requires b.work[c].Added?
    ensures b.ring.r.index == |b.ring.r.done| % cfg.size
  {
    var ts := b.ring.r.threads;
    if cfg.readMutex {
      SoleHolder(ts, c, Crit, Pend);
    } else {
      SumBound(ts, Pend, 0);
    }
  }

  lemma CellsUpdate(b: Bank, b': Bank, c: nat)
    requires |b.work| == |b.ring.r.threads| && c < |b.work|
    requires |b'.ring.r.threads| == |b'.work| == |b.work|
    requires forall q :: 0 <= q < |b.work| && q != c ==>
               b'.work[q] == b.work[q] && b'.ring.r.threads[q] == b.ring.r.threads[q]
    ensures Cells(b') == Cells(b)[c := Cell(b'.ring.r.threads[c], b'.work[c])]
  {
  }

  /** What a ring step of consumer `c` does to its cell, when no work is due. */
  lemma RingCell(cfg: Config, b: Bank, a: Action)
    requires BankInv(cfg, b) && a.kind.Read? && a.t < |b.work|
    requires !WorkDue(cfg.readMutex, b.ring.r.threads[a.t].pc, b.work[a.t])
    requires BankStep(cfg, b, a).Some?
    ensures var b' := BankStep(cfg, b, a).value; var c := a.t;
      var e, e' := Cell(b.ring.r.threads[c], b.work[c]), Cell(b'.ring.r.threads[c], b'.work[c]);
      && b'.deposit == b.deposit && b'.printed == b.printed && b'.ring == Step(cfg, b.ring, a).value
      && |b'.work| == |b.work| && |b'.ring.r.threads| == |b.ring.r.threads|
      && (forall q :: 0 <= q < |b.work| && q != c ==>
            b'.work[q] == b.work[q] && b'.ring.r.threads[q] == b.ring.r.threads[q])
      && Gate(cfg.readMutex, e'.h.pc, e'.w)
      && (if e.h.pc.Slot? then
            Past(e'.h.pc) && e'.w.Fresh? && b'.ring.r.done == b.ring.r.done + [e'.h.item]
          else
            && b'.ring.r.done == b.ring.r.done
            && Unadded(e') == Unadded(e) && Unprinted(e') == Unprinted(e)
            && (Unadded(e') == 1 ==> e'.h.item == e.h.item && e'.w == e.w)
            && (Past(e'.h.pc) && e'.w.Due? ==> Past(e.h.pc) && e.w.Due?))
  {
    assert Gate(cfg.readMutex, b.ring.r.threads[a.t].pc, b.work[a.t]);
    assert PcWf(ViewOf(cfg, b.ring, Read), b.ring.r.threads[a.t].pc);
  }

  lemma RingStepBank(cfg: Config, b: Bank, a: Action)
    requires BankInv(cfg, b) && a.kind.Read? && a.t < |b.work|
    requires !WorkDue(cfg.readMutex, b.ring.r.threads[a.t].pc, b.work[a.t])
    requires BankStep(cfg, b, a).Some?
    ensures BankInv(cfg, BankStep(cfg, b, a).value)
  {
    var b' := BankStep(cfg, b, a).value;
    var c, cells := a.t, Cells(b);
    RingCell(cfg, b, a);
    StepInv(cfg, b.ring, a);
    CellsUpdate(b, b', c);
    var e := Cell(b'.ring.r.threads[c], b'.work[c]);
    if OneReader(cfg, b.ring) {
      if b.ring.r.threads[c].pc.Slot? {
        NothingOpen(cfg, b, c);
        MoneyAccess(b.deposit, b.ring.r.done, cells, c, e);
        if Guarded(cfg, b.ring) { BooksAccess(b.printed, PrintPoint(cfg.size), b.ring.r.done, cells, c, e); }
      } else {
        MoneyKeep(b.deposit, b.ring.r.done, cells, c, e);
        if Guarded(cfg, b.ring) { BooksKeep(b.printed, PrintPoint(cfg.size), b.ring.r.done, cells, c, e); }
      }
    }
  }

  lemma WorkStepBank(cfg: Config, b: Bank, c: nat)
    requires BankInv(cfg, b) && c < |b.work|
    requires WorkDue(cfg.readMutex, b.ring.r.threads[c].pc, b.work[c])
    ensures BankInv(cfg, WorkStep(b, c))
  {
    var b' := WorkStep(b, c);
    var cells, done, due := Cells(b), b.ring.r.done, PrintPoint(cfg.size);
    CellsUpdate(b, b', c);
    var e := Cell(b.ring.r.threads[c], b'.work[c]);
    if OneReader(cfg, b.ring) {
      if b.work[c].Have? { MoneyStore(b.deposit, done, cells, c, e); } else { MoneyKeep(b.deposit, done, cells, c, e); }
      if Guarded(cfg, b.ring) { WorkStepBooks(cfg, b, c); }
    }
  }

  lemma WorkStepBooks(cfg: Config, b: Bank, c: nat)
    requires BankInv(cfg, b) && OneReader(cfg, b.ring) && Guarded(cfg, b.ring) && c < |b.work|
    requires WorkDue(cfg.readMutex, b.ring.r.threads[c].pc, b.work[c])
    ensures Books(WorkStep(b, c).printed, PrintPoint(cfg.size), b.ring.r.done, Cells(WorkStep(b, c)))
  {
    var b' := WorkStep(b, c);
    var cells, done, due := Cells(b), b.ring.r.done, PrintPoint(cfg.size);
    CellsUpdate(b, b', c);
    var e := Cell(b.ring.r.threads[c], b'.work[c]);
    match b.work[c] {
      case Fresh => BooksKeep(b.printed, due, done, cells, c, e);
      case Have(_) => BooksKeep(b.printed, due, done, cells, c, e);
      case Added =>
        IndexCaughtUp(cfg, b, c);
        assert due(|done|) <==> b.ring.r.index % 10 == 0;
        if due(|done|) {
          BooksKeep(b.printed, due, done, cells, c, e);
        } else {
          BooksSettle(b.printed, due, done, cells, c, e, []);
          assert b.printed + [] == b.printed;
        }
      case Due =>
        SoleHolder(cells, c, Unprinted, Unadded);
        assert done[..|done|] == done;
        assert cells[c].w.Due?;
        BooksSettle(b.printed, due, done, cells, c, e, [b.deposit]);
    }
  }

  lemma WriteStepBank(cfg: Config, b: Bank, a: Action)
    requires BankInv(cfg, b) && a.kind.Write? && BankStep(cfg, b, a).Some?
    ensures BankInv(cfg, BankStep(cfg, b, a).value)
  {
    var b' := BankStep(cfg, b, a).value;
    StepInv(cfg, b.ring, a.(x := RandomTransaction(a.x)));
    assert b'.ring.r.threads == b.ring.r.threads && b'.ring.r.done == b.ring.r.done;
    StepThreads(cfg, b.ring, a.(x := RandomTransaction(a.x)));
    assert Cells(b') == Cells(b);
  }

  lemma BankStepInv(cfg: Config, b: Bank, a: Action)
    requires BankInv(cfg, b) && BankStep(cfg, b, a).Some?
    ensures BankInv(cfg, BankStep(cfg, b, a).value)
  {
    if a.kind.Write? {
      WriteStepBank(cfg, b, a);
    } else if WorkDue(cfg.readMutex, b.ring.r.threads[a.t].pc, b.work[a.t]) {
      WorkStepBank(cfg, b, a.t);
    } else {
      RingStepBank(cfg, b, a);
    }
  }

  lemma InitBankInv(cfg: Config, producers: nat, consumers: nat)
    requires cfg.size >= 1
    ensures BankInv(cfg, InitBank(cfg, producers, consumers))
  {
    var b := InitBank(cfg, producers, consumers);
    InitInv(cfg, producers, consumers);
    SumBound(Cells(b), Unadded, 0);
    SumBound(Cells(b), Unprinted, 0);
  }

  lemma BankStepThreads(cfg: Config, b: Bank, a: Action)
    requires BankStep(cfg, b, a).Some?
    ensures SameThreads(b.ring, BankStep(cfg, b, a).value.ring)
  {
  }

  lemma {:induction false} BankRunInv(cfg: Config, b: Bank, sched: seq<Action>)
    requires BankInv(cfg, b) && BankExec(cfg, b, sched).Some?
    ensures BankInv(cfg, BankExec(cfg, b, sched).value)
    ensures SameThreads(b.ring, BankExec(cfg, b, sched).value.ring)
    decreases |sched|
  {
    if sched == [] {
    } else {
      BankStepInv(cfg, b, sched[0]);
      BankStepThreads(cfg, b, sched[0]);
      BankRunInv(cfg, BankStep(cfg, b, sched[0]).value, sched[1..]);
    }
  }

  lemma {:induction false} BankExecSnoc(cfg: Config, b: Bank, sched: seq<Action>, a: Action)
    ensures BankExec(cfg, b, sched + [a]) ==
      if BankExec(cfg, b, sched).None? then None else BankStep(cfg, BankExec(cfg, b, sched).value, a)
    decreases |sched|
  {
    var all := sched + [a];
    if sched == [] {
      assert all[0] == a && all[1..] == [];
    } else {
      assert all[0] == sched[0] && all[1..] == sched[1..] + [a];
      if BankStep(cfg, b, sched[0]).Some? { BankExecSnoc(cfg, BankStep(cfg, b, sched[0]).value, sched[1..], a); }
    }
  }

  // ---- the range of amounts ----

  predicate InRange(x: int) { -MAX_TRANSACTION <= x <= MAX_TRANSACTION }

  ghost predicate Amounts(s: State) {
    && (forall k :: 0 <= k < |s.buf| ==> InRange(s.buf[k]))
    && (forall k :: 0 <= k < |s.w.done| ==> InRange(s.w.done[k]))
    && (forall k :: 0 <= k < |s.r.done| ==> InRange(s.r.done[k]))
    && (forall t :: 0 <= t < |s.w.threads| ==> InRange(s.w.threads[t].item))
  }

  lemma StepAmounts(cfg: Config, s: State, a: Action)
    requires Amounts(s) && InRange(a.x) && Step(cfg, s, a).Some?
    ensures Amounts(Step(cfg, s, a).value)
  {
  }

  lemma {:induction false} BankRunAmounts(cfg: Config, b: Bank, sched: seq<Action>)
    requires Amounts(b.ring) && BankExec(cfg, b, sched).Some?
    ensures Amounts(BankExec(cfg, b, sched).value.ring)
    decreases |sched|
  {
    if sched == [] {
    } else {
      var a := sched[0];
      var b' := BankStep(cfg, b, a).value;
      if a.kind.Write? {
        StepAmounts(cfg, b.ring, a.(x := RandomTransaction(a.x)));
      } else if !WorkDue(cfg.readMutex, b.ring.r.threads[a.t].pc, b.work[a.t]) {
        ReadIgnoresAmount(cfg, b.ring, a);
        StepAmounts(cfg, b.ring, a.(x := 0));
      }
      BankRunAmounts(cfg, b', sched[1..]);
    }
  }

  lemma {:induction false} TotalBound(s: seq<int>)
    requires forall k :: 0 <= k < |s| ==> InRange(s[k])
    ensures -MAX_TRANSACTION * |s| <= Total(s) <= MAX_TRANSACTION * |s|
  {
    if s == [] {
    } else {
      TotalBound(s[..|s| - 1]);
    }
  }

  // ---- main results ----

  /** The producers share the buffer safely and at most one consumer works on the balance at a time. */
  predicate Sound(cfg: Config, producers: nat, consumers: nat) {
    && cfg.size >= 1
    && (cfg.writeMutex || producers <= 1 || cfg.size == 1)
    && (cfg.readMutex || consumers <= 1)
  }

  predicate AllIdle(ts: seq<Thread>) { forall c :: 0 <= c < |ts| ==> ts[c].pc.Idle? }

  /** For every schedule of a sound program: items are loaded in the order stored, the printed
      balances are the exact sums of prefixes of the stored items at the print points, one behind
      at most, and the deposit at rest is the exact sum of what was loaded, within its bound. */
  lemma BalanceOfRun(cfg: Config, producers: nat, consumers: nat, sched: seq<Action>) returns (n: nat)
    requires Sound(cfg, producers, consumers) && BankExec(cfg, InitBank(cfg, producers, consumers), sched).Some?
    ensures var b := BankExec(cfg, InitBank(cfg, producers, consumers), sched).value;
      && Fifo(b.ring)
      && |b.ring.r.done| <= n + 1 && n <= |b.ring.r.done| <= |b.ring.w.done|
      && b.printed == Reports(b.ring.w.done, PrintPoint(cfg.size), n)
      && (AllIdle(b.ring.r.threads) ==>
            n == |b.ring.r.done| && b.deposit == INITIAL_DEPOSIT + Total(b.ring.w.done[..n]))
      && -MAX_TRANSACTION * |b.ring.r.done| <= b.deposit - INITIAL_DEPOSIT <= MAX_TRANSACTION * |b.ring.r.done|
  {
    var b0 := InitBank(cfg, producers, consumers);
    var b := BankExec(cfg, b0, sched).value;
    InitBankInv(cfg, producers, consumers);
    BankRunInv(cfg, b0, sched);
    BankRunAmounts(cfg, b0, sched);
    n := |b.ring.r.done| - Sum(Cells(b), Unprinted);
    PrintedSoFar(cfg, b);
    DepositSoFar(cfg, b);
  }

  lemma PrintedSoFar(cfg: Config, b: Bank)
    requires BankInv(cfg, b) && OneReader(cfg, b.ring) && Guarded(cfg, b.ring)
    ensures var n := |b.ring.r.done| - Sum(Cells(b), Unprinted);
      && 0 <= n <= |b.ring.w.done| && |b.ring.r.done| <= n + 1
      && b.printed == Reports(b.ring.w.done, PrintPoint(cfg.size), n)
      && (AllIdle(b.ring.r.threads) ==> n == |b.ring.r.done|)
  {
    ReportsPrefix(b.ring.r.done, b.ring.w.done, PrintPoint(cfg.size), |b.ring.r.done| - Sum(Cells(b), Unprinted));
    if AllIdle(b.ring.r.threads) { SumBound(Cells(b), Unprinted, 0); }
  }

  lemma DepositSoFar(cfg: Config, b: Bank)
    requires BankInv(cfg, b) && OneReader(cfg, b.ring) && Amounts(b.ring)
    ensures var n := |b.ring.r.done|;
      && (AllIdle(b.ring.r.threads) ==> b.deposit == INITIAL_DEPOSIT + Total(b.ring.r.done))
      && (b.ring.r.done <= b.ring.w.done && AllIdle(b.ring.r.threads)
          ==> b.deposit == INITIAL_DEPOSIT + Total(b.ring.w.done[..n]))
      && -MAX_TRANSACTION * n <= b.deposit - INITIAL_DEPOSIT <= MAX_TRANSACTION * n
  {
    var done := b.ring.r.done;
    if AllIdle(b.ring.r.threads) {
      SumBound(Cells(b), Unadded, 0);
      assert done[..|done|] == done;
      if done <= b.ring.w.done { assert b.ring.w.done[..|done|] == done; }
    }
    TotalBound(done[..|done| - Sum(Cells(b), Unadded)]);
  }

  lemma {:induction false} ReportsPrefix(s: seq<int>, t: seq<int>, due: nat -> bool, n: nat)
    requires s <= t && n <= |s|
    ensures Reports(s, due, n) == Reports(t, due, n)
  {
    if n == 0 {
    } else {
      ReportsPrefix(s, t, due, n - 1);
      assert s[..n] == t[..n];
    }
  }

  lemma PointAt(size: nat, k: nat, q: nat, i: nat)
    requires i < size && k == q * size + i
    ensures PrintPoint(size)(k) <==> i % 10 == 0
  {
    ModUnique(k, size, q, i);
  }

  lemma PointSoon(size: nat, k: nat, q: nat, i: nat, d: nat)
    requires i + d < size && k == q * size + i && i % 10 == 0 && d <= 10
    ensures PrintPoint(size)(k + d) <==> d == 0 || d == 10
  {
    PointAt(size, k + d, q, i + d);
  }

  /** After a print at position `k`, the next comes ten items later, or sooner when the index wraps. */
  lemma NextPrint(size: nat, k: nat, gap: nat)
    requires size >= 1 && PrintPoint(size)(k)
    requires gap == if k % size + 10 < size then 10 else size - k % size
    ensures PrintPoint(size)(k + gap)
    ensures forall j: nat :: k < j < k + gap ==> !PrintPoint(size)(j)
  {
    var q, i := k / size, k % size;
    var lap := q * size;
    assert k == lap + i;
    if i + 10 < size {
      PointSoon(size, k, q, i, 10);
    } else {
      assert k + gap == lap + size;
      PointAt(size, lap + size, q + 1, 0);
    }
    forall j: nat | k < j < k + gap ensures !PrintPoint(size)(j) {
      PointSoon(size, k, q, i, j - k);
    }
  }

  /** With the 128-slot buffer the prints are 10 items apart, except the one closing each lap: 8. */
  lemma PrintGaps(k: nat, gap: nat)
    requires PrintPoint(128)(k) && gap == (if k % 128 == 120 then 8 else 10)
    ensures PrintPoint(128)(k + gap)
    ensures forall j: nat :: k < j < k + gap ==> !PrintPoint(128)(j)
  {
    assert (k % 128) % 10 == 0;
    NextPrint(128, k, gap);
  }

  // ---- the whole program never stops delivering ----

  lemma BankCanStep(cfg: Config, b: Bank)
    requires BankInv(cfg, b) && |b.ring.w.threads| >= 1 && |b.ring.r.threads| >= 1
    ensures exists a :: BankStep(cfg, b, a).Some?
  {
    SomeoneCanStep(cfg, b.ring);
    var a :| Step(cfg, b.ring, a).Some?;
    if a.kind.Write? { assert Step(cfg, b.ring, a.(x := RandomTransaction(a.x))).Some?; }
    assert BankStep(cfg, b, a).Some?;
  }

  function WorkRank(e: Cell): nat {
    if !Past(e.h.pc) then 4
    else match e.w case Fresh => 0 case Have(_) => 1 case Added => 2 case Due => 3 case Done => 4
  }

  function WorkPotential(b: Bank): int
    requires |b.work| == |b.ring.r.threads|
  {
    4 * |b.ring.r.done| + Sum(Cells(b), WorkRank) - 4 * |b.work|
  }

  ghost predicate Advanced(b: Bank, b': Bank) {
    && |b.work| == |b.ring.r.threads| && |b'.work| == |b'.ring.r.threads|
    && Potential(b'.ring.w) + Potential(b'.ring.r) + WorkPotential(b')
       >= Potential(b.ring.w) + Potential(b.ring.r) + WorkPotential(b) + 1
  }

  lemma WorkAdvances(cfg: Config, b: Bank, c: nat)
    requires BankInv(cfg, b) && c < |b.work| && WorkDue(cfg.readMutex, b.ring.r.threads[c].pc, b.work[c])
    ensures Advanced(b, WorkStep(b, c))
  {
    var b' := WorkStep(b, c);
    CellsUpdate(b, b', c);
    SumUpdate(Cells(b), c, Cell(b'.ring.r.threads[c], b'.work[c]), WorkRank);
  }

  lemma RingAdvances(cfg: Config, b: Bank, a: Action)
    requires BankInv(cfg, b) && a.kind.Read? && a.t < |b.work|
    requires !WorkDue(cfg.readMutex, b.ring.r.threads[a.t].pc, b.work[a.t])
    requires BankStep(cfg, b, a).Some?
    ensures Advanced(b, BankStep(cfg, b, a).value)
  {
    var b', c := BankStep(cfg, b, a).value, a.t;
    RingCell(cfg, b, a);
    CellsUpdate(b, b', c);
    StepProgress(cfg, b.ring, a);
    SumUpdate(Cells(b), c, Cell(b'.ring.r.threads[c], b'.work[c]), WorkRank);
    RingRank(cfg, b, a);
  }

  lemma RingRank(cfg: Config, b: Bank, a: Action)
    requires BankInv(cfg, b) && a.kind.Read? && a.t < |b.work|
    requires !WorkDue(cfg.readMutex, b.ring.r.threads[a.t].pc, b.work[a.t])
    requires BankStep(cfg, b, a).Some?
    ensures var b' := BankStep(cfg, b, a).value; var c := a.t;
      |b'.work| == |b.work| == |b'.ring.r.threads| &&
      4 * |b'.ring.r.done| + WorkRank(Cell(b'.ring.r.threads[c], b'.work[c]))
        >= 4 * |b.ring.r.done| + WorkRank(Cell(b.ring.r.threads[c], b.work[c]))
  {
    assert Gate(cfg.readMutex, b.ring.r.threads[a.t].pc, b.work[a.t]);
  }

  lemma BankAdvances(cfg: Config, b: Bank, a: Action)
    requires BankInv(cfg, b) && BankStep(cfg, b, a).Some?
    ensures Advanced(b, BankStep(cfg, b, a).value)
  {
    if a.kind.Write? {
      var b' := BankStep(cfg, b, a).value;
      StepProgress(cfg, b.ring, a.(x := RandomTransaction(a.x)));
      assert Cells(b') == Cells(b);
    } else if WorkDue(cfg.readMutex, b.ring.r.threads[a.t].pc, b.work[a.t]) {
      WorkAdvances(cfg, b, a.t);
    } else {
      RingAdvances(cfg, b, a);
    }
  }

  lemma {:induction false} BankRunAdvances(cfg: Config, b: Bank, sched: seq<Action>)
    requires BankInv(cfg, b) && BankExec(cfg, b, sched).Some?
    ensures var b' := BankExec(cfg, b, sched).value;
      |b'.work| == |b'.ring.r.threads| &&
      Potential(b'.ring.w) + Potential(b'.ring.r) + WorkPotential(b')
        >= Potential(b.ring.w) + Potential(b.ring.r) + WorkPotential(b) + |sched|
    decreases |sched|
  {
    if sched == [] {
    } else {
      BankAdvances(cfg, b, sched[0]);
      BankStepInv(cfg, b, sched[0]);
      BankRunAdvances(cfg, BankStep(cfg, b, sched[0]).value, sched[1..]);
    }
  }

  /** Every schedule, fair or not, makes the whole program deliver: a run of n steps has loaded
      at least (n - 10*size - 4*threads) / 24 items, whichever mutexes are present. */
  lemma BankThroughput(cfg: Config, producers: nat, consumers: nat, sched: seq<Action>)
    requires cfg.size >= 1 && BankExec(cfg, InitBank(cfg, producers, consumers), sched).Some?
    ensures var b := BankExec(cfg, InitBank(cfg, producers, consumers), sched).value;
      |sched| <= 24 * |b.ring.r.done| + 10 * cfg.size + 4 * (producers + consumers)
  {
    var b0 := InitBank(cfg, producers, consumers);
    var b := BankExec(cfg, b0, sched).value;
    InitBankInv(cfg, producers, consumers);
    BankRunInv(cfg, b0, sched);
    BankRunAdvances(cfg, b0, sched);
    SumUniform(b0.ring.w.threads, Rank, 10);
    SumUniform(b0.ring.r.threads, Rank, 10);
    PotentialBound(b.ring.w);
    PotentialBound(b.ring.r);
    SumBound(Cells(b), WorkRank, 4);
    SumUniform(Cells(b0), WorkRank, 4);
  }

  // ---- where the amounts come from ----

  /** The amounts that producer `p` draws from the `rand()` results of its making steps. */
  function Drawn(cfg: Config, b: Bank, sched: seq<Action>, p: nat): seq<int>
    decreases |sched|
  {
    if sched == [] || BankStep(cfg, b, sched[0]).None? then []
    else
      (if Makes(b.ring, sched[0], p) then [RandomTransaction(sched[0].x)] else [])
      + Drawn(cfg, BankStep(cfg, b, sched[0]).value, sched[1..], p)
  }

  lemma BankStepMakes(cfg: Config, b: Bank, a: Action, p: nat)
    requires p < |b.ring.w.threads| && BankStep(cfg, b, a).Some?
    ensures var b' := BankStep(cfg, b, a).value;
      && p < |b'.ring.w.threads|
      && b'.ring.w.threads[p].log
           == b.ring.w.threads[p].log + (if Makes(b.ring, a, p) then [RandomTransaction(a.x)] else [])
  {
    if a.kind.Write? {
      StepMakes(cfg, b.ring, a.(x := RandomTransaction(a.x)), p);
    } else if !WorkDue(cfg.readMutex, b.ring.r.threads[a.t].pc, b.work[a.t]) {
      StepMakes(cfg, b.ring, a, p);
    }
  }

  /** In every run a producer's items are the amounts it draws, in the order it draws them. */
  lemma {:induction false} RunDraws(cfg: Config, b: Bank, sched: seq<Action>, p: nat)
    requires p < |b.ring.w.threads| && BankExec(cfg, b, sched).Some?
    ensures var b' := BankExec(cfg, b, sched).value;
      p < |b'.ring.w.threads| && b'.ring.w.threads[p].log == b.ring.w.threads[p].log + Drawn(cfg, b, sched, p)
    decreases |sched|
  {
    if sched == [] {
    } else {
      BankStepMakes(cfg, b, sched[0], p);
      RunDraws(cfg, BankStep(cfg, b, sched[0]).value, sched[1..], p);
    }
  }
}
