/** The corrected counter: one cell per thread, summed by `main` as it joins the threads. */
module Accumulators {
  import opened Sums
  import opened Counter

  datatype Main =
    | Creating(i: nat)
    | Joining(i: nat, sum: nat)    // blocked in pthread_join on thread i
    | Adding(i: nat, sum: nat)     // thread i joined, its cell not yet added

  datatype Pool = Pool(cells: seq<nat>, ts: seq<Thread>, main: Main)

  datatype Who = Worker(p: nat) | MainThread

  function InitPool(n: nat): Pool { Pool(seq(n, _ => 0), seq(n, _ => Thread(0, None)), Creating(0)) }

  function Created(s: Pool): nat { if s.main.Creating? then s.main.i else |s.ts| }

  function PoolStep(m: nat, v: int, s: Pool, w: Who): Option<Pool> {
    match w
    case Worker(p) =>
      if p >= |s.ts| || p >= |s.cells| || p >= Created(s) || s.ts[p].i >= m then None
      else if s.ts[p].loaded.None? then Some(s.(ts := s.ts[p := s.ts[p].(loaded := Some(s.cells[p]))]))
      else Some(s.(cells := s.cells[p := Store(v, s.ts[p].loaded.value)], ts := s.ts[p := Thread(s.ts[p].i + 1, None)]))
    case MainThread =>
      match s.main
      case Creating(i) => Some(s.(main := if i < |s.ts| then Creating(i + 1) else Joining(0, 0)))
      case Joining(i, sum) =>
        if i < |s.ts| && s.ts[i] == Thread(m, None) then Some(s.(main := Adding(i, sum))) else None
      case Adding(i, sum) =>
        if i < |s.cells| then Some(s.(main := Joining(i + 1, (sum + s.cells[i]) % WORD))) else None
  }

  function PoolExec(m: nat, v: int, s: Pool, sched: seq<Who>): Option<Pool>
    decreases |sched|
  {
    if sched == [] then Some(s)
    else
      var r := PoolStep(m, v, s, sched[0]);
      if r.None? then None else PoolExec(m, v, r.value, sched[1..])
  }

  predicate Summed(s: Pool) { s.main.Joining? && s.main.i == |s.ts| }

  ghost predicate PoolInv(m: nat, v: int, s: Pool) {
    && |s.cells| == |s.ts|
    && (forall p :: Created(s) <= p < |s.ts| ==> s.ts[p] == Thread(0, None))
    && (forall p :: 0 <= p < |s.ts| ==>
          && s.ts[p].i <= m && s.cells[p] == Units(v, s.ts[p].i)
          && (s.ts[p].loaded.Some? ==> s.ts[p].loaded.value == s.cells[p] && s.ts[p].i < m))
    && (if s.main.Creating? then s.main.i <= |s.ts|
        else
          && s.main.sum == Units(v, s.main.i * m)
          && s.main.i <= |s.ts| && (s.main.Adding? ==> s.main.i < |s.ts| && s.ts[s.main.i] == Thread(m, None)))
  }

  lemma UnitsAdd(v: int, a: nat, b: nat)
    ensures (Units(v, a) + Units(v, b)) % WORD == Units(v, a + b)
  {
    assert (a + b) * v == a * v + b * v;
    ModAdd(a * v, Units(v, b));
    ModAdd(b * v, a * v);
  }

  lemma PoolStepInv(m: nat, v: int, s: Pool, w: Who)
    requires PoolInv(m, v, s) && PoolStep(m, v, s, w).Some?
    ensures PoolInv(m, v, PoolStep(m, v, s, w).value)
  {
    match w {
      case Worker(p) => UnitsNext(v, s.ts[p].i);
      case MainThread =>
        if s.main.Creating? {
          assert 0 * v == 0 && 0 * m == 0;
        } else if s.main.Adding? {
          UnitsAdd(v, s.main.i * m, m);
          assert s.main.i * m + m == (s.main.i + 1) * m;
        }
    }
  }

  // ---- every run terminates, and never sticks before the sum is complete ----

  function Left(m: nat): Thread -> nat {
    (t: Thread) => if t.i >= m then 0 else 2 * (m - t.i) - (if t.loaded.Some? then 1 else 0)
  }

  /** The number of steps still to be taken. */
  function Remaining(m: nat, s: Pool): int {
    Sum(s.ts, Left(m)) +
    match s.main
    case Creating(i) => 3 * |s.ts| - i + 1
    case Joining(i, _) => 2 * (|s.ts| - i)
    case Adding(i, _) => 2 * (|s.ts| - i) - 1
  }

  lemma PoolStepCounts(m: nat, v: int, s: Pool, w: Who)
    requires PoolInv(m, v, s) && PoolStep(m, v, s, w).Some?
    ensures Remaining(m, PoolStep(m, v, s, w).value) == Remaining(m, s) - 1
  {
    if w.Worker? { SumUpdate(s.ts, w.p, PoolStep(m, v, s, w).value.ts[w.p], Left(m)); }
  }

  lemma PoolCanStep(m: nat, v: int, s: Pool)
    requires PoolInv(m, v, s) && !Summed(s)
    ensures exists w :: PoolStep(m, v, s, w).Some?
  {
    if s.main.Joining? && s.ts[s.main.i] != Thread(m, None) {
      assert PoolStep(m, v, s, Worker(s.main.i)).Some?;
    } else {
      assert PoolStep(m, v, s, MainThread).Some?;
    }
  }

  lemma {:induction false} PoolRun(m: nat, v: int, s: Pool, sched: seq<Who>)
    requires PoolInv(m, v, s) && PoolExec(m, v, s, sched).Some?
    ensures var s' := PoolExec(m, v, s, sched).value;
      PoolInv(m, v, s') && |s'.ts| == |s.ts| && Remaining(m, s') == Remaining(m, s) - |sched|
    decreases |sched|
  {
    if sched == [] {
    } else {
      PoolStepInv(m, v, s, sched[0]);
      PoolStepCounts(m, v, s, sched[0]);
      PoolRun(m, v, PoolStep(m, v, s, sched[0]).value, sched[1..]);
    }
  }

  /** In every run: a thread not yet created has done nothing, and every cell holds its own thread's adds. */
  lemma CellsAndThreads(n: nat, m: nat, v: int, sched: seq<Who>, p: nat)
    requires PoolExec(m, v, InitPool(n), sched).Some? && p < n
    ensures var s := PoolExec(m, v, InitPool(n), sched).value;
      && |s.ts| == |s.cells| == n && s.cells[p] == Units(v, s.ts[p].i)
      && (p >= Created(s) ==> s.ts[p] == Thread(0, None))
  {
    assert 0 * v == 0;
    PoolRun(m, v, InitPool(n), sched);
  }

  /** For every interleaving of the workers with `main`: the run never sticks before the sum is
      complete, has at most n*(2m + 3) + 1 steps, and then `computed_value` is the expected value. */
  lemma SumIsExpected(n: nat, m: nat, v: int, sched: seq<Who>)
    requires PoolExec(m, v, InitPool(n), sched).Some?
    ensures var s := PoolExec(m, v, InitPool(n), sched).value;
      && |sched| <= n * (2 * m + 3) + 1
      && (Summed(s) ==> s.main.sum == (n * m * v) % WORD)
      && (!Summed(s) ==> exists w :: PoolStep(m, v, s, w).Some?)
  {
    var s0 := InitPool(n);
    var s := PoolExec(m, v, s0, sched).value;
    assert 0 * v == 0;
    PoolRun(m, v, s0, sched);
    SumUniform(s0.ts, Left(m), 2 * m);
    assert 2 * m * n + 3 * n == n * (2 * m + 3);
    if !Summed(s) { PoolCanStep(m, v, s); }
  }

  // ---- the program in its own form ----

  class Program {
    const m: nat
    const v: int
    const sharedArray: array<nat>
    var threads: seq<Thread>
    var main: Main

    ghost function Model(): Pool reads this, sharedArray { Pool(sharedArray[..], threads, main) }

    ghost predicate Valid() reads this, sharedArray { PoolInv(m, v, Model()) }

    constructor (n: nat, m: nat, v: int)
      ensures Valid() && this.m == m && this.v == v && Model() == InitPool(n) && fresh(sharedArray)
    {
      this.m, this.v := m, v;
      sharedArray := new nat[n](_ => 0);
      threads := seq(n, _ => Thread(0, None));
      main := Creating(0);
      new;
      assert sharedArray[..] == seq(n, _ => 0);
      assert 0 * v == 0;
    }

    /** One access of `shared_array[p] += v`; false when thread `p` is not running. */
    method Access(p: nat) returns (moved: bool)
      requires Valid()
      modifies this`threads, sharedArray
      ensures Valid()
      ensures moved == PoolStep(m, v, old(Model()), Worker(p)).Some?
      ensures Model() == if moved then PoolStep(m, v, old(Model()), Worker(p)).value else old(Model())
    {
      if p >= |threads| || (main.Creating? && p >= main.i) || threads[p].i >= m {
        return false;
      }
      ghost var s := Model();
      if threads[p].loaded.None? {
        threads := threads[p := threads[p].(loaded := Some(sharedArray[p]))];
      } else {
        sharedArray[p] := Store(v, threads[p].loaded.value);
        threads := threads[p := Thread(threads[p].i + 1, None)];
      }
      moved := true;
      PoolStepInv(m, v, s, Worker(p));
    }

    /** A step of the create and join-and-sum loops; false when the join blocks or all is summed. */
    method Advance() returns (moved: bool)
      requires Valid()
      modifies this`main
      ensures Valid()
      ensures moved == PoolStep(m, v, old(Model()), MainThread).Some?
      ensures Model() == if moved then PoolStep(m, v, old(Model()), MainThread).value else old(Model())
    {
      ghost var s := Model();
      moved := true;
      match main {
        case Creating(i) =>
          main := if i < |threads| then Creating(i + 1) else Joining(0, 0);
        case Joining(i, sum) =>
          moved := i < |threads| && threads[i] == Thread(m, None);
          if moved { main := Adding(i, sum); }
        case Adding(i, sum) =>
          main := Joining(i + 1, (sum + sharedArray[i]) % WORD);
      }
      if moved { PoolStepInv(m, v, s, MainThread); }
    }
  }
}
