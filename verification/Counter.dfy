/** The unprotected shared counter: `shared_variable += v` is a load and a store, and updates get lost. */
module Counter {
  import opened Sums

  /** `unsigned long` arithmetic. */
  const WORD: nat := 0x1_0000_0000_0000_0000

  /** `i` adds done; `loaded` is the value read by the add in progress. */
  datatype Thread = Thread(i: nat, loaded: Option<nat>)

  datatype State = State(x: nat, ts: seq<Thread>)

  function Init(n: nat): State { State(0, seq(n, _ => Thread(0, None))) }

  function Store(v: int, t: nat): nat { (t + v) % WORD }

  /** The next shared access of thread `p`: the load or the store of its current add. */
  function Step(m: nat, v: int, s: State, p: nat): Option<State> {
    if p >= |s.ts| || s.ts[p].i >= m then None
    else if s.ts[p].loaded.None? then Some(s.(ts := s.ts[p := s.ts[p].(loaded := Some(s.x))]))
    else Some(State(Store(v, s.ts[p].loaded.value), s.ts[p := Thread(s.ts[p].i + 1, None)]))
  }

  function Exec(m: nat, v: int, s: State, sched: seq<nat>): Option<State>
    decreases |sched|
  {
    if sched == [] then Some(s)
    else
      var r := Step(m, v, s, sched[0]);
      if r.None? then None else Exec(m, v, r.value, sched[1..])
  }

  /** Every thread has returned. */
  predicate Complete(m: nat, s: State) {
    forall p :: 0 <= p < |s.ts| ==> s.ts[p] == Thread(m, None)
  }

  // ---- counting in units of v ----

  /** The same machine with v = 1 and no wrap-around. */
  function UnitStep(m: nat, s: State, p: nat): Option<State> {
    if p >= |s.ts| || s.ts[p].i >= m then None
    else if s.ts[p].loaded.None? then Some(s.(ts := s.ts[p := s.ts[p].(loaded := Some(s.x))]))
    else Some(State(s.ts[p].loaded.value + 1, s.ts[p := Thread(s.ts[p].i + 1, None)]))
  }

  function UnitExec(m: nat, s: State, sched: seq<nat>): Option<State>
    decreases |sched|
  {
    if sched == [] then Some(s)
    else
      var r := UnitStep(m, s, sched[0]);
      if r.None? then None else UnitExec(m, r.value, sched[1..])
  }

  function Units(v: int, k: nat): nat { (k * v) % WORD }

  function ScaleThread(v: int, t: Thread): Thread {
    t.(loaded := if t.loaded.None? then None else Some(Units(v, t.loaded.value)))
  }

  function Scale(v: int, s: State): State {
    State(Units(v, s.x), seq(|s.ts|, p requires 0 <= p < |s.ts| => ScaleThread(v, s.ts[p])))
  }

  lemma UnitsNext(v: int, k: nat)
    ensures Store(v, Units(v, k)) == Units(v, k + 1)
  {
    assert (k + 1) * v == k * v + v;
    ModAdd(k * v, v);
  }

  lemma ModAdd(a: int, b: int)
    ensures (a % WORD + b) % WORD == (a + b) % WORD
  {
  }

  lemma StepScales(m: nat, v: int, s: State, p: nat)
    ensures Step(m, v, Scale(v, s), p).Some? == UnitStep(m, s, p).Some?
    ensures UnitStep(m, s, p).Some? ==> Step(m, v, Scale(v, s), p).value == Scale(v, UnitStep(m, s, p).value)
  {
    if UnitStep(m, s, p).Some? {
      var s', r := UnitStep(m, s, p).value, Step(m, v, Scale(v, s), p).value;
      if s.ts[p].loaded.Some? { UnitsNext(v, s.ts[p].loaded.value); }
      assert r.ts == Scale(v, s').ts;
    }
  }

  /** A run with increment `v` and wrap-around is the unit run, scaled. */
  lemma {:induction false} RunScales(m: nat, v: int, s: State, sched: seq<nat>)
    ensures Exec(m, v, Scale(v, s), sched).Some? == UnitExec(m, s, sched).Some?
    ensures UnitExec(m, s, sched).Some?
        ==> Exec(m, v, Scale(v, s), sched).value == Scale(v, UnitExec(m, s, sched).value)
    decreases |sched|
  {
    if sched == [] {
    } else {
      StepScales(m, v, s, sched[0]);
      if UnitStep(m, s, sched[0]).Some? { RunScales(m, v, UnitStep(m, s, sched[0]).value, sched[1..]); }
    }
  }

  // ---- how much can be lost ----

  function Iters(t: Thread): nat { t.i }

  /** The fewest adds that can survive. */
  function Fewest(n: nat, m: nat): nat {
    if n == 0 || m == 0 then 0 else if n == 1 then m else if m == 1 then 1 else 2
  }

  ghost predicate Inv(m: nat, s: State) {
    && s.x <= Sum(s.ts, Iters)
    && (forall p :: 0 <= p < |s.ts| ==>
          && s.ts[p].i <= m
          && (s.ts[p].i >= 1 ==> s.x >= 1)
          && (s.ts[p].loaded.Some? ==>
                s.ts[p].i < m && s.ts[p].loaded.value <= Sum(s.ts, Iters)
                    && (s.ts[p].i >= 1 ==> s.ts[p].loaded.value >= 1)))
    && (|s.ts| == 1 ==> s.x == s.ts[0].i && (s.ts[0].loaded.Some? ==> s.ts[0].loaded.value == s.x))
    && (|s.ts| >= 1 && m >= 2 && Complete(m, s) ==> s.x >= 2)
  }

  lemma StepInv(m: nat, s: State, p: nat)
    requires Inv(m, s) && UnitStep(m, s, p).Some?
    ensures Inv(m, UnitStep(m, s, p).value)
  {
    var s' := UnitStep(m, s, p).value;
    SumUpdate(s.ts, p, s'.ts[p], Iters);
  }

  lemma InitInv(n: nat, m: nat)
    ensures Inv(m, Init(n))
  {
    if n >= 1 { assert !Complete(m, Init(n)) || m == 0 by { assert Init(n).ts[0].i == 0; } }
  }

  lemma {:induction false} RunInv(m: nat, s: State, sched: seq<nat>)
    requires Inv(m, s) && UnitExec(m, s, sched).Some?
    ensures Inv(m, UnitExec(m, s, sched).value) && |UnitExec(m, s, sched).value.ts| == |s.ts|
    decreases |sched|
  {
    if sched == [] {
    } else {
      StepInv(m, s, sched[0]);
      RunInv(m, UnitStep(m, s, sched[0]).value, sched[1..]);
    }
  }

  lemma UnitBounds(n: nat, m: nat, sched: seq<nat>)
    requires UnitExec(m, Init(n), sched).Some? && Complete(m, UnitExec(m, Init(n), sched).value)
    ensures Fewest(n, m) <= UnitExec(m, Init(n), sched).value.x <= n * m
  {
    InitInv(n, m);
    RunInv(m, Init(n), sched);
    SumUniform(UnitExec(m, Init(n), sched).value.ts, Iters, m);
  }

  // ---- the program in its own form ----

  function Threads(counters: seq<nat>, registers: seq<Option<nat>>): seq<Thread>
    requires |counters| == |registers|
  {
    seq(|counters|, p requires 0 <= p < |counters| => Thread(counters[p], registers[p]))
  }

  class Program {
    const m: nat
    const v: int
    const counter: array<nat>             // each thread's i
    const register: array<Option<nat>>    // the value it has loaded
    var sharedVariable: nat

    ghost predicate Valid() reads this { counter.Length == register.Length }

    ghost function Model(): State
      requires Valid()
      reads this, counter, register
    {
      State(sharedVariable, Threads(counter[..], register[..]))
    }

    constructor (n: nat, m: nat, v: int)
      ensures Valid() && this.m == m && this.v == v && Model() == Init(n)
      ensures fresh(counter) && fresh(register)
    {
      this.m, this.v, sharedVariable := m, v, 0;
      counter := new nat[n](_ => 0);
      register := new Option<nat>[n](_ => None);
      new;
      assert Threads(counter[..], register[..]) == Init(n).ts;
    }

    /** One access of `shared_variable += v` by thread `p`; false when it has returned. */
    method Access(p: nat) returns (moved: bool)
      requires Valid()
      modifies this`sharedVariable, counter, register
      ensures moved == Step(m, v, old(Model()), p).Some?
      ensures Model() == if moved then Step(m, v, old(Model()), p).value else old(Model())
    {
      if p >= counter.Length || counter[p] >= m {
        return false;
      }
      ghost var s := Model();
      if register[p].None? {
        register[p] := Some(sharedVariable);
      } else {
        sharedVariable := (register[p].value + v) % WORD;
        counter[p], register[p] := counter[p] + 1, None;
      }
      moved := true;
      assert Threads(counter[..], register[..]) == s.ts[p := Thread(counter[p], register[p])];
    }

    /** Plays a schedule up to the first thread in it that has returned. */
    method Play(sched: seq<nat>) returns (k: nat)
      requires Valid()
      modifies this`sharedVariable, counter, register
      ensures k <= |sched| && Exec(m, v, old(Model()), sched[..k]) == Some(Model())
      ensures k < |sched| ==> Step(m, v, Model(), sched[k]).None?
    {
      k := 0;
      var moved := true;
      assert sched[..0] == [];
      while moved && k < |sched|
        invariant k <= |sched| && Exec(m, v, old(Model()), sched[..k]) == Some(Model())
        invariant !moved ==> k < |sched| && Step(m, v, Model(), sched[k]).None?
        decreases |sched| - k, moved
      {
        moved := Access(sched[k]);
        if moved {
          assert sched[..k + 1] == sched[..k] + [sched[k]];
          ExecSnoc(m, v, old(Model()), sched[..k], sched[k]);
          k := k + 1;
        }
      }
    }
  }

  lemma {:induction false} ExecSnoc(m: nat, v: int, s: State, sched: seq<nat>, p: nat)
    requires Exec(m, v, s, sched).Some?
    ensures Exec(m, v, s, sched + [p]) == Step(m, v, Exec(m, v, s, sched).value, p)
    decreases |sched|
  {
    var all := sched + [p];
    if sched == [] {
      assert all[1..] == [];
    } else {
      assert all[0] == sched[0] && all[1..] == sched[1..] + [p];
      ExecSnoc(m, v, Step(m, v, s, sched[0]).value, sched[1..], p);
    }
  }
}
