/** The running balance of the producer/consumer programs, layered on the circular buffer. */
module Deposit {
  import opened Sums
  import opened Ring

  const INITIAL_DEPOSIT: int := 0
  const MAX_TRANSACTION: int := 1000

  /** The amount drawn from one `rand()` result: the lower half of the range gives deposits, the upper half
      withdrawals, and the draw can be recovered from the amount. */
  function RandomTransaction(r: int): (amount: int)
    ensures -MAX_TRANSACTION <= amount <= MAX_TRANSACTION && amount != 0
    ensures amount > 0 <==> r % (2 * MAX_TRANSACTION) < MAX_TRANSACTION
    ensures r % (2 * MAX_TRANSACTION) == if amount > 0 then amount - 1 else MAX_TRANSACTION - 1 - amount
  {
    var amount := r % (2 * MAX_TRANSACTION);
    if amount >= MAX_TRANSACTION then MAX_TRANSACTION - (amount + 1) else amount + 1
  }

  /** Every non-zero amount in range is drawn by some result. */
  lemma EveryAmountDrawn(amount: int)
    requires -MAX_TRANSACTION <= amount <= MAX_TRANSACTION && amount != 0
    ensures exists r: nat :: RandomTransaction(r) == amount
  {
    var r: nat := if amount > 0 then amount - 1 else MAX_TRANSACTION - amount - 1;
    assert RandomTransaction(r) == amount;
  }

  /** A consumer's share of the loop body outside the buffer protocol. */
  datatype Work =
    | Fresh          // about to load deposit
    | Have(d: int)   // about to store deposit
    | Added          // about to test read_index
    | Due            // about to load deposit and print it
    | Done

  datatype Bank = Bank(ring: State, work: seq<Work>, deposit: int, printed: seq<int>)

  function InitBank(cfg: Config, producers: nat, consumers: nat): Bank {
    Bank(Init(cfg, producers, consumers), seq(consumers, _ => Fresh), INITIAL_DEPOSIT, [])
  }

  /** With the mutex the balance is updated and printed inside the critical section,
      without it only after the slot has been given back. */
  predicate WorkDue(lock: bool, pc: Pc, w: Work) {
    if lock then (pc.Accessed? && (w.Fresh? || w.Have?)) || (pc.Indexed? && (w.Added? || w.Due?))
    else pc.Released? && !w.Done?
  }

  function WorkStep(b: Bank, c: nat): Bank
    requires c < |b.work| && c < |b.ring.r.threads|
  {
    match b.work[c]
    case Fresh => b.(work := b.work[c := Have(b.deposit)])
    case Have(d) => b.(deposit := d + b.ring.r.threads[c].item, work := b.work[c := Added])
    case Added => b.(work := b.work[c := if b.ring.r.index % 10 == 0 then Due else Done])
    case Due => b.(printed := b.printed + [b.deposit], work := b.work[c := Done])
    case Done => b
  }

  /** A producer's step takes the `rand()` result from the action. */
  function BankStep(cfg: Config, b: Bank, a: Action): Option<Bank> {
    if a.kind.Write? then
      var s := Step(cfg, b.ring, a.(x := RandomTransaction(a.x)));
      if s.None? then None else Some(b.(ring := s.value))
    else if a.t >= |b.ring.r.threads| || a.t >= |b.work| then None
    else
      var pc := b.ring.r.threads[a.t].pc;
      if WorkDue(cfg.readMutex, pc, b.work[a.t]) then Some(WorkStep(b, a.t))
      else
        var s := Step(cfg, b.ring, a);
        if s.None? then None
        else Some(b.(ring := s.value, work := if pc.Released? then b.work[a.t := Fresh] else b.work))
  }

  function BankExec(cfg: Config, b: Bank, sched: seq<Action>): Option<Bank>
    decreases |sched|
  {
    if sched == [] then Some(b)
    else
      var r := BankStep(cfg, b, sched[0]);
      if r.None? then None else BankExec(cfg, r.value, sched[1..])
  }

  // ---- the books, apart from the buffer ----

  function Total(s: seq<int>): int {
    if s == [] then 0 else Total(s[..|s| - 1]) + s[|s| - 1]
  }

  datatype Cell = Cell(h: Thread, w: Work)

  function Unadded(e: Cell): nat { if Past(e.h.pc) && (e.w.Fresh? || e.w.Have?) then 1 else 0 }
  function Unprinted(e: Cell): nat { if Past(e.h.pc) && !e.w.Done? then 1 else 0 }

  /** The deposit is the exact sum of the loaded items, but for one being added. */
  ghost predicate Money(deposit: int, done: seq<int>, cells: seq<Cell>) {
    var u := Sum(cells, Unadded);
    && u <= 1 && u <= |done|
    && deposit == INITIAL_DEPOSIT + Total(done[..|done| - u])
    && forall c :: 0 <= c < |cells| && Unadded(cells[c]) == 1 ==>
         u == 1 && cells[c].h.item == done[|done| - 1] && (cells[c].w.Have? ==> cells[c].w.d == deposit)
  }

  lemma MoneyAccess(deposit: int, done: seq<int>, cells: seq<Cell>, c: nat, e: Cell)
    requires Money(deposit, done, cells) && Sum(cells, Unadded) == 0 && c < |cells|
    requires Past(e.h.pc) && e.w.Fresh?
    ensures Money(deposit, done + [e.h.item], cells[c := e])
  {
    SumUpdate(cells, c, e, Unadded);
    assert (done + [e.h.item])[..|done|] == done[..|done|];
    forall q | 0 <= q < |cells| ensures Unadded(cells[q]) == 0 { SumUpdate(cells, q, cells[q], Unadded); }
  }

  lemma MoneyKeep(deposit: int, done: seq<int>, cells: seq<Cell>, c: nat, e: Cell)
    requires Money(deposit, done, cells) && c < |cells| && Unadded(e) == Unadded(cells[c])
    requires Unadded(e) == 1 ==> e.h.item == cells[c].h.item && (e.w == cells[c].w || e.w == Have(deposit))
    ensures Money(deposit, done, cells[c := e])
  {
    SumUpdate(cells, c, e, Unadded);
  }

  lemma MoneyStore(deposit: int, done: seq<int>, cells: seq<Cell>, c: nat, e: Cell)
    requires Money(deposit, done, cells) && c < |cells| && Past(cells[c].h.pc) && cells[c].w.Have? && Unadded(e) == 0
    ensures Money(cells[c].w.d + cells[c].h.item, done, cells[c := e])
  {
    SumUpdate(cells, c, e, Unadded);
    assert done[..|done|] == done;
    SoleHolder(cells, c, Unadded, Unadded);
  }

  /** The positions at which the advanced index is a multiple of ten. */
  function PrintPoint(size: nat): nat -> bool {
    n => size >= 1 && (n % size) % 10 == 0
  }

  /** The balances printed over the first `n` items. */
  function Reports(done: seq<int>, due: nat -> bool, n: nat): seq<int>
    requires n <= |done|
  {
    if n == 0 then []
    else Reports(done, due, n - 1) + (if due(n) then [INITIAL_DEPOSIT + Total(done[..n])] else [])
  }

  lemma {:induction false} ReportsSnoc(done: seq<int>, x: int, due: nat -> bool, n: nat)
    requires n <= |done|
    ensures Reports(done + [x], due, n) == Reports(done, due, n)
  {
    if n == 0 {
    } else {
      ReportsSnoc(done, x, due, n - 1);
      assert (done + [x])[..n] == done[..n];
    }
  }

  /** Everything due has been printed, but for one item being settled. */
  ghost predicate Books(printed: seq<int>, due: nat -> bool, done: seq<int>, cells: seq<Cell>) {
    var u := Sum(cells, Unprinted);
    && u <= 1 && u <= |done|
    && printed == Reports(done, due, |done| - u)
    && forall c :: 0 <= c < |cells| && Past(cells[c].h.pc) && cells[c].w.Due? ==> due(|done|)
  }

  lemma BooksAccess(printed: seq<int>, due: nat -> bool, done: seq<int>, cells: seq<Cell>, c: nat, e: Cell)
    requires Books(printed, due, done, cells) && Sum(cells, Unprinted) == 0 && c < |cells|
    requires Past(e.h.pc) && e.w.Fresh?
    ensures Books(printed, due, done + [e.h.item], cells[c := e])
  {
    SumUpdate(cells, c, e, Unprinted);
    ReportsSnoc(done, e.h.item, due, |done|);
    forall q | 0 <= q < |cells| ensures Unprinted(cells[q]) == 0 { SumUpdate(cells, q, cells[q], Unprinted); }
  }

  lemma BooksKeep(printed: seq<int>, due: nat -> bool, done: seq<int>, cells: seq<Cell>, c: nat, e: Cell)
    requires Books(printed, due, done, cells) && c < |cells| && Unprinted(e) == Unprinted(cells[c])
    requires Past(e.h.pc) && e.w.Due? ==> due(|done|)
    ensures Books(printed, due, done, cells[c := e])
  {
    SumUpdate(cells, c, e, Unprinted);
  }

  lemma ReportsLast(done: seq<int>, due: nat -> bool)
    requires done != []
    ensures Reports(done, due, |done|)
      == Reports(done, due, |done| - 1) + (if due(|done|) then [INITIAL_DEPOSIT + Total(done)] else [])
  {
    assert done[..|done|] == done;
  }

  lemma BooksOpen(printed: seq<int>, due: nat -> bool, done: seq<int>, cells: seq<Cell>, c: nat, e: Cell)
    requires Books(printed, due, done, cells) && c < |cells| && Unprinted(cells[c]) == 1 && Unprinted(e) == 0
    ensures Sum(cells[c := e], Unprinted) == 0 && |done| >= 1
    ensures printed == Reports(done, due, |done| - 1)
  {
    SumUpdate(cells, c, e, Unprinted);
  }

  lemma BooksClosed(printed: seq<int>, due: nat -> bool, done: seq<int>, cells: seq<Cell>)
    requires Sum(cells, Unprinted) == 0 && printed == Reports(done, due, |done|)
    ensures Books(printed, due, done, cells)
  {
    forall q | 0 <= q < |cells| ensures Unprinted(cells[q]) == 0 { SumUpdate(cells, q, cells[q], Unprinted); }
  }

  lemma BooksSettle(printed: seq<int>, due: nat -> bool, done: seq<int>, cells: seq<Cell>, c: nat, e: Cell,
      out: seq<int>)
    requires Books(printed, due, done, cells) && c < |cells| && Unprinted(cells[c]) == 1 && Unprinted(e) == 0
    requires out == if due(|done|) then [INITIAL_DEPOSIT + Total(done)] else []
    ensures Books(printed + out, due, done, cells[c := e])
  {
    BooksOpen(printed, due, done, cells, c, e);
    ReportsLast(done, due);
    BooksClosed(printed + out, due, done, cells[c := e]);
  }
}
