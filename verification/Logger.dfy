/** The log server's buffer of heap strings: many callers of `my_log`, one logger thread. */
module Logger {
  import opened Sums
  import opened Ring

  /** A live heap block. `id` numbers the allocation; no step reads it. */
  datatype Block = Block(id: nat, bytes: string)

  datatype Alloc = Alloc(addr: nat, bytes: string)

  /** Where an allocation is: in a caller's hands, or stored as the k-th item. `Null` is for number 0. */
  datatype Place = Null | Hand(p: nat) | At(k: nat)

  /** The logger between loading a pointer and giving the slot back. */
  datatype Phase = Fetched | Writing(written: nat, left: nat) | Freed

  /** A pointer is written as the number of its allocation, so that a stale pointer is told from a later
      one to the same address; number 0 is the null pointer. `allocs`, `place` and `freed` are histories.
      The program itself sees addresses only. */
  datatype Log = Log(ring: State, heap: map<nat, Block>, phase: Phase, file: string,
                     allocs: seq<Alloc>, place: seq<Place>, freed: seq<int>)

  /** What one `write` call does: it is interrupted, or takes some bytes. */
  datatype Io = Interrupted | Wrote(n: nat)

  /** A caller's step names the address `malloc` returns and the message, for the step that needs them. */
  datatype Move = Caller(p: nat, addr: nat, msg: string) | Logger(io: Io)

  function LogConfig(size: nat): Config { Config(size, true, false) }

  function InitLog(size: nat, callers: nat): Log {
    Log(Init(LogConfig(size), callers, 1), map[], Fetched, "", [Alloc(0, "")], [Null], [])
  }

  /** The block a pointer names, whatever allocation now lives at its address. */
  function Deref(s: Log, item: int): Option<Block> {
    if 0 <= item < |s.allocs| && s.allocs[item].addr in s.heap then Some(s.heap[s.allocs[item].addr]) else None
  }

  function CallerStep(size: nat, s: Log, p: nat, addr: nat, msg: string): Option<Log> {
    if p >= |s.ring.w.threads| then None
    else
      var h := s.ring.w.threads[p];
      var id := |s.allocs|;
      var ring := Step(LogConfig(size), s.ring, Action(Write, p, id));
      if ring.None? then None
      else if h.pc.Idle? then
        // tmp = malloc(...): any address not in use; sprintf(tmp, "%s\n", msg)
        if addr == 0 || addr in s.heap then None
        else Some(s.(ring := ring.value, heap := s.heap[addr := Block(id, msg + "\n")],
                     allocs := s.allocs + [Alloc(addr, msg + "\n")], place := s.place + [Hand(p)]))
      else if h.pc.Slot? then
        if 0 <= h.item < |s.place| then
          Some(s.(ring := ring.value, place := s.place[h.item := At(|s.ring.w.done|)]))
        else None
      else Some(s.(ring := ring.value))
  }

  predicate Busy(s: Log) {
    |s.ring.r.threads| == 1 && s.ring.r.threads[0].pc.Unlocked? && !s.phase.Freed?
  }

  /** The loop around `write`, then `free`. `None` is a dereference of a dead pointer, or a result
      `write` cannot give. */
  function WriteStep(s: Log, io: Io): Option<Log>
    requires Busy(s)
  {
    var item := s.ring.r.threads[0].item;
    var b := Deref(s, item);
    if b.None? then None
    else match s.phase
      case Fetched => Some(s.(phase := Writing(0, |b.value.bytes|)))
      case Writing(w, l) =>
        if l == 0 then Some(s.(phase := Freed, heap := s.heap - {s.allocs[item].addr}, freed := s.freed + [item]))
        else if io.Interrupted? then Some(s)
        else if io.n <= l && w + io.n <= |b.value.bytes| then
          Some(s.(file := s.file + b.value.bytes[w..w + io.n], phase := Writing(w + io.n, l - io.n)))
        else None
  }

  function LogStep(size: nat, s: Log, m: Move): Option<Log> {
    match m
    case Caller(p, addr, msg) => CallerStep(size, s, p, addr, msg)
    case Logger(io) =>
      if Busy(s) then WriteStep(s, io)
      else
        var ring := Step(LogConfig(size), s.ring, Action(Read, 0, 0));
        if ring.None? then None
        else Some(s.(ring := ring.value, phase := if s.ring.r.threads[0].pc.Released? then Fetched else s.phase))
  }

  function LogExec(size: nat, s: Log, sched: seq<Move>): Option<Log>
    decreases |sched|
  {
    if sched == [] then Some(s)
    else
      var r := LogStep(size, s, sched[0]);
      if r.None? then None else LogExec(size, r.value, sched[1..])
  }

  // ---- where every allocation is ----

  predicate Holding(h: Thread) { h.pc.Ready? || h.pc.Token? || h.pc.Enter? || h.pc.Slot? }

  ghost predicate Placed(threads: seq<Thread>, done: seq<int>, place: seq<Place>) {
    && (forall p :: 0 <= p < |threads| && Holding(threads[p]) ==>
          0 <= threads[p].item < |place| && place[threads[p].item] == Hand(p))
    && (forall k :: 0 <= k < |done| ==> 0 <= done[k] < |place| && place[done[k]] == At(k))
    && (forall id :: 0 <= id < |place| ==>
          match place[id]
          case Null => id == 0
          case Hand(p) => p < |threads| && Holding(threads[p]) && threads[p].item == id
          case At(k) => k < |done| && done[k] == id)
  }

  predicate Alive(place: seq<Place>, f: nat, id: nat)
    requires id < |place|
  {
    place[id].Hand? || (place[id].At? && place[id].k >= f)
  }

  /** The heap holds exactly the live allocations, each at its address with its text. */
  ghost predicate HeapOk(heap: map<nat, Block>, allocs: seq<Alloc>, place: seq<Place>, f: nat) {
    && |allocs| == |place|
    && (forall id :: 0 <= id < |place| && Alive(place, f, id) ==>
          allocs[id].addr in heap && heap[allocs[id].addr] == Block(id, allocs[id].bytes))
    && (forall a :: a in heap ==>
          heap[a].id < |place| && Alive(place, f, heap[a].id) && allocs[heap[a].id].addr == a)
  }

  lemma PlacedMalloc(threads: seq<Thread>, done: seq<int>, place: seq<Place>, p: nat, h: Thread)
    requires Placed(threads, done, place) && p < |threads| && !Holding(threads[p])
    requires h.pc.Ready? && h.item == |place|
    ensures Placed(threads[p := h], done, place + [Hand(p)])
  {
  }

  lemma PlacedStore(threads: seq<Thread>, done: seq<int>, place: seq<Place>, p: nat, h: Thread)
    requires Placed(threads, done, place) && p < |threads| && Holding(threads[p]) && !Holding(h)
    ensures 0 <= threads[p].item < |place|
    ensures Placed(threads[p := h], done + [threads[p].item], place[threads[p].item := At(|done|)])
  {
  }

  lemma PlacedMove(threads: seq<Thread>, done: seq<int>, place: seq<Place>, p: nat, h: Thread)
    requires Placed(threads, done, place) && p < |threads| && Holding(h) == Holding(threads[p])
    requires Holding(h) ==> h.item == threads[p].item
    ensures Placed(threads[p := h], done, place)
  {
  }

  lemma HeapMalloc(heap: map<nat, Block>, allocs: seq<Alloc>, place: seq<Place>, f: nat, p: nat, addr: nat,
      bytes: string)
    requires HeapOk(heap, allocs, place, f) && addr !in heap
    ensures HeapOk(heap[addr := Block(|allocs|, bytes)], allocs + [Alloc(addr, bytes)], place + [Hand(p)], f)
  {
  }

  lemma HeapStore(heap: map<nat, Block>, allocs: seq<Alloc>, place: seq<Place>, f: nat, id: nat, k: nat)
    requires HeapOk(heap, allocs, place, f) && id < |place| && place[id].Hand? && f <= k
    ensures HeapOk(heap, allocs, place[id := At(k)], f)
  {
  }

  lemma HeapFree(heap: map<nat, Block>, allocs: seq<Alloc>, place: seq<Place>, f: nat, id: nat, done: seq<int>)
    requires HeapOk(heap, allocs, place, f) && id < |place| && place[id] == At(f)
    requires f < |done| && done[f] == id
    requires forall i :: 0 <= i < |place| && place[i].At? ==> place[i].k < |done| && done[place[i].k] == i
    ensures HeapOk(heap - {allocs[id].addr}, allocs, place, f + 1)
  {
  }
}
