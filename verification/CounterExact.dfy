/** Every amount of loss within the bounds happens: the exact set of final values. */
module CounterExact {
  import opened Sums
  import opened Counter

  ghost predicate Reaches(m: nat, s: State, s': State) {
    exists sched :: UnitExec(m, s, sched) == Some(s')
  }

  lemma {:induction false} UnitExecSnoc(m: nat, s: State, sched: seq<nat>, p: nat)
    ensures UnitExec(m, s, sched + [p]) ==
      if UnitExec(m, s, sched).None? then None else UnitStep(m, UnitExec(m, s, sched).value, p)
    decreases |sched|
  {
    var all := sched + [p];
    if sched == [] {
      assert all[0] == p && all[1..] == [];
    } else {
      assert all[0] == sched[0] && all[1..] == sched[1..] + [p];
      if UnitStep(m, s, sched[0]).Some? { UnitExecSnoc(m, UnitStep(m, s, sched[0]).value, sched[1..], p); }
    }
  }

  lemma Go(m: nat, s0: State, s: State, p: nat) returns (s': State)
    requires Reaches(m, s0, s) && UnitStep(m, s, p).Some?
    ensures s' == UnitStep(m, s, p).value && Reaches(m, s0, s')
  {
    var sched :| UnitExec(m, s0, sched) == Some(s);
    UnitExecSnoc(m, s0, sched, p);
    s' := UnitStep(m, s, p).value;
  }

  function Id(c: nat): nat { c }

  /** Every thread may go on to its cap, and a thread with an add in progress is at its cap. */
  predicate Within(m: nat, s: State, caps: seq<nat>) {
    && |caps| == |s.ts|
    && forall p :: 0 <= p < |caps| ==> s.ts[p].i <= caps[p] <= m && (s.ts[p].loaded.Some? ==> s.ts[p].i == caps[p])
  }

  lemma {:induction false} FindRoom(ts: seq<Thread>, caps: seq<nat>, n: nat) returns (p: nat)
    requires n <= |ts| == |caps| && SumTo(ts, Iters, n) < SumTo(caps, Id, n)
    ensures p < n && ts[p].i < caps[p]
  {
    if ts[n - 1].i < caps[n - 1] { p := n - 1; } else { p := FindRoom(ts, caps, n - 1); }
  }

  lemma {:induction false} NoRoom(ts: seq<Thread>, caps: seq<nat>, n: nat)
    requires n <= |ts| == |caps| && forall p :: 0 <= p < |ts| ==> ts[p].i <= caps[p]
    ensures SumTo(ts, Iters, n) <= SumTo(caps, Id, n)
    ensures SumTo(ts, Iters, n) == SumTo(caps, Id, n) ==> forall p :: 0 <= p < n ==> ts[p].i == caps[p]
  {
    if n == 0 {
    } else {
      NoRoom(ts, caps, n - 1);
    }
  }

  /** `b` whole adds, one after the other, by threads below their caps. */
  lemma {:induction false} AddMany(m: nat, s0: State, s: State, caps: seq<nat>, b: nat) returns (s': State)
    requires Reaches(m, s0, s) && Within(m, s, caps) && Sum(s.ts, Iters) + b <= Sum(caps, Id)
    ensures Reaches(m, s0, s') && Within(m, s', caps)
    ensures s'.x == s.x + b && Sum(s'.ts, Iters) == Sum(s.ts, Iters) + b
    ensures forall p :: 0 <= p < |s.ts| && s.ts[p].loaded.Some? ==> s'.ts[p] == s.ts[p]
    ensures forall p :: 0 <= p < |s.ts| && s.ts[p].loaded.None? ==> s'.ts[p].loaded.None?
    ensures forall p :: 0 <= p < |s.ts| && s.ts[p].i == caps[p] ==> s'.ts[p] == s.ts[p]
    decreases b
  {
    if b == 0 {
      s' := s;
    } else {
      var p := FindRoom(s.ts, caps, |caps|);
      var s1 := Go(m, s0, s, p);
      var s2 := Go(m, s0, s1, p);
      assert s2.ts == s.ts[p := Thread(s.ts[p].i + 1, None)];
      SumUpdate(s.ts, p, s2.ts[p], Iters);
      s' := AddMany(m, s0, s2, caps, b - 1);
    }
  }

  /** All the adds the caps allow. */
  lemma Fill(m: nat, s0: State, s: State, caps: seq<nat>) returns (s': State)
    requires Reaches(m, s0, s) && Within(m, s, caps)
    ensures Reaches(m, s0, s') && |s'.ts| == |s.ts|
    ensures s'.x + Sum(s.ts, Iters) == s.x + Sum(caps, Id)
    ensures forall p :: 0 <= p < |s.ts| ==> s'.ts[p].i == caps[p] && s'.ts[p].loaded == s.ts[p].loaded
    ensures Sum(s'.ts, Iters) == Sum(caps, Id)
  {
    NoRoom(s.ts, caps, |caps|);
    s' := AddMany(m, s0, s, caps, Sum(caps, Id) - Sum(s.ts, Iters));
    NoRoom(s'.ts, caps, |caps|);
  }

  /** Caps of `m` for all but threads 0 and 1. */
  function Caps(n: nat, m: nat, a: nat, b: nat): seq<nat>
    requires n >= 2
  {
    seq(n, _ => m)[0 := a][1 := b]
  }

  lemma CapsSum(n: nat, m: nat, a: nat, b: nat)
    requires n >= 2
    ensures Sum(Caps(n, m, a, b), Id) + 2 * m == n * m + a + b
  {
    var all: seq<nat> := seq(n, _ => m);
    SumUniform(all, Id, m);
    SumUpdate(all, 0, a, Id);
    SumUpdate(all[0 := a], 1, b, Id);
  }

  lemma InitSum(n: nat)
    ensures Sum(Init(n).ts, Iters) == 0
  {
    SumBound(Init(n).ts, Iters, 0);
  }

  /** Thread 0 sits on the initial zero while `lost` adds of the others happen, then stores 1. */
  lemma FirstLoss(n: nat, m: nat, a: nat, lost: nat) returns (s: State)
    requires n >= 2 && m >= 1 && a <= m && lost <= (n - 2) * m + a
    ensures Reaches(m, Init(n), s) && |s.ts| == n && s.x == 1 && s.ts[0] == Thread(1, None)
    ensures Within(m, s, Caps(n, m, m, a)) && Sum(s.ts, Iters) == lost + 1
    ensures forall p :: 0 <= p < n ==> s.ts[p].loaded.None?
  {
    var s0 := Init(n);
    assert UnitExec(m, s0, []) == Some(s0);
    var s1 := Go(m, s0, s0, 0);
    InitSum(n);
    SumUpdate(s0.ts, 0, s1.ts[0], Iters);
    CapsSum(n, m, 0, a);
    assert (n - 2) * m + 2 * m == n * m;
    var s2 := AddMany(m, s0, s1, Caps(n, m, 0, a), lost);
    s := Go(m, s0, s2, 0);
    SumUpdate(s2.ts, 0, s.ts[0], Iters);
  }

  /** Thread 1 sits on its last load while `lost` adds of thread 0 happen, then stores. */
  lemma SecondLoss(n: nat, m: nat, s1: State, lost: nat) returns (s: State)
    requires n >= 2 && m >= 2 && lost <= m - 1 && Reaches(m, Init(n), s1) && |s1.ts| == n
    requires s1.ts[0] == Thread(1, None) && Within(m, s1, Caps(n, m, m, m - 1))
    requires forall p :: 0 <= p < n ==> s1.ts[p].loaded.None?
    ensures Reaches(m, Init(n), s) && Complete(m, s)
    ensures s.x + Sum(s1.ts, Iters) + lost == s1.x + n * m
  {
    var s0 := Init(n);
    CapsSum(n, m, m - lost, m - 1);
    var s2 := Fill(m, s0, s1, Caps(n, m, m - lost, m - 1));
    var s3 := Go(m, s0, s2, 1);
    var s4 := Fill(m, s0, s3, Caps(n, m, m, m - 1));
    s := Go(m, s0, s4, 1);
  }

  /** Two or more threads and adds each: any number from 2 to n*m of the adds can survive. */
  lemma Attained(n: nat, m: nat, k: nat) returns (s: State)
    requires n >= 2 && m >= 2 && 2 <= k <= n * m
    ensures Reaches(m, Init(n), s) && Complete(m, s) && s.x == k
  {
    var others := (n - 2) * m + (m - 1);
    assert others + m + 1 == n * m;
    var loss := n * m - k;
    var first := if loss < others then loss else others;
    s := FirstLoss(n, m, m - 1, first);
    s := SecondLoss(n, m, s, loss - first);
  }

  lemma AttainedOneEach(n: nat, k: nat) returns (s: State)
    requires n >= 2 && 1 <= k <= n
    ensures Reaches(1, Init(n), s) && Complete(1, s) && s.x == k
  {
    var s0 := Init(n);
    var s1 := FirstLoss(n, 1, 1, n - k);
    CapsSum(n, 1, 1, 1);
    s := Fill(1, s0, s1, Caps(n, 1, 1, 1));
  }

  lemma AttainedAll(n: nat, m: nat) returns (s: State)
    ensures Reaches(m, Init(n), s) && Complete(m, s) && s.x == n * m
  {
    var s0 := Init(n);
    assert UnitExec(m, s0, []) == Some(s0);
    var caps: seq<nat> := seq(n, _ => m);
    SumUniform(caps, Id, m);
    InitSum(n);
    s := Fill(m, s0, s0, caps);
  }

  lemma UnitAttained(n: nat, m: nat, k: nat) returns (s: State)
    requires Fewest(n, m) <= k <= n * m
    ensures Reaches(m, Init(n), s) && Complete(m, s) && s.x == k
  {
    if k == n * m {
      s := AttainedAll(n, m);
    } else if m == 1 {
      s := AttainedOneEach(n, k);
    } else {
      s := Attained(n, m, k);
    }
  }

  /** A complete run of `n` threads adding `v` `m` times each can leave `y` in the shared variable. */
  ghost predicate CanEndWith(n: nat, m: nat, v: int, y: nat) {
    exists sched :: EndsWith(n, m, v, y, sched)
  }

  predicate EndsWith(n: nat, m: nat, v: int, y: nat, sched: seq<nat>) {
    var r := Exec(m, v, Init(n), sched);
    r.Some? && r.value.x == y && forall p :: 0 <= p < |r.value.ts| ==> r.value.ts[p] == Thread(m, None)
  }

  lemma ScaledInit(n: nat, v: int)
    ensures Scale(v, Init(n)) == Init(n)
  {
    assert 0 * v == 0;
    assert Scale(v, Init(n)).ts == Init(n).ts;
  }

  /** The exact outcomes, for every n, m and v and with wrap-around: k surviving adds for
      each k from `Fewest(n, m)` to n*m, and nothing else. */
  lemma Outcomes(n: nat, m: nat, v: int, y: nat)
    ensures CanEndWith(n, m, v, y) <==> exists k: nat :: Fewest(n, m) <= k <= n * m && y == Units(v, k)
  {
    ScaledInit(n, v);
    if CanEndWith(n, m, v, y) {
      var sched :| EndsWith(n, m, v, y, sched);
      RunScales(m, v, Init(n), sched);
      var u := UnitExec(m, Init(n), sched).value;
      forall p | 0 <= p < |u.ts| ensures u.ts[p] == Thread(m, None) {
        assert Scale(v, u).ts[p] == ScaleThread(v, u.ts[p]);
      }
      UnitBounds(n, m, sched);
    }
    if k: nat :| Fewest(n, m) <= k <= n * m && y == Units(v, k) {
      var s := UnitAttained(n, m, k);
      var sched :| UnitExec(m, Init(n), sched) == Some(s);
      RunScales(m, v, Init(n), sched);
      assert EndsWith(n, m, v, y, sched);
    }
  }

  /** What `main` reports, in `unsigned long` arithmetic: the increment is converted too. When it is zero
      so is the expected value, and the division is not reached. */
  function LostAdds(n: nat, m: nat, v: int, y: nat): nat { Report(Units(v, n * m), v % WORD, y) }

  function Report(expected: nat, d: nat, y: nat): nat {
    if expected > y && d != 0 then (expected - y) / d else 0
  }

  /** With a positive increment and no overflow the division is exact: the reported number is the
      number of adds lost, and with two or more threads and adds it never exceeds n*m - 2. */
  lemma LostAddsExact(n: nat, m: nat, v: nat, y: nat)
    requires v >= 1 && n * m * v < WORD && CanEndWith(n, m, v, y)
    ensures LostAdds(n, m, v, y) * v + y == n * m * v
    ensures LostAdds(n, m, v, y) <= n * m - Fewest(n, m)
    ensures Fewest(n, m) * v <= y
  {
    Outcomes(n, m, v, y);
    var k: nat :| Fewest(n, m) <= k <= n * m && y == Units(v, k);
    InRangeReport(n * m, v, k);
    SurvivingAdds(n * m, v, k);
    MulMono(Fewest(n, m), k, v);
  }

  lemma InRangeReport(all: nat, v: nat, k: nat)
    requires v >= 1 && k <= all && all * v < WORD
    ensures Report(Units(v, all), v % WORD, Units(v, k)) == all - k
  {
    SurvivingAdds(all, v, k);
    if k < all { MulMono(1, all, v); }
  }

  // ---- exactly when the report is right ----

  /** The range of a C `int`. */
  predicate IsInt(v: int) { -0x8000_0000 <= v < 0x8000_0000 }

  /** Whatever number of adds survives, `main` reports how many did not. */
  ghost predicate ReportsRight(n: nat, m: nat, v: int) {
    forall k: nat :: Fewest(n, m) <= k <= n * m ==> LostAdds(n, m, v, Units(v, k)) == n * m - k
  }

  lemma FewestFacts(n: nat, m: nat)
    ensures Fewest(n, m) <= n * m
    ensures Fewest(n, m) == n * m || (Fewest(n, m) <= 2 && (n * m >= Fewest(n, m) + 2 || n * m == 2))
    ensures Fewest(n, m) == n * m <==> n <= 1 || m == 0
  {
    if n >= 2 && m >= 2 { assert n * m >= 2 * m; }
  }

  /** One add lost is reported as none, or two are. */
  lemma NegativeReport(all: nat, v: int, two: bool)
    requires IsInt(v) && v < 0 && all >= 2 && (two || all == 2)
    ensures Report(Units(v, all), v % WORD, Units(v, all - 1)) != 1
      || (two && Report(Units(v, all), v % WORD, Units(v, all - 2)) != 2)
  {
    var a, e := -v, Units(v, all);
    assert (all - 1) * v == all * v + a && (all - 2) * v == all * v + 2 * a;
    ModAdd(all * v, a);
    ModAdd(all * v, 2 * a);
    assert Units(v, all - 1) == (e + a) % WORD && Units(v, all - 2) == (e + 2 * a) % WORD;
    NegativeArith(a, e, two);
    if all == 2 { assert all * v == -2 * a; }
  }

  lemma NegativeArith(a: int, e: nat, two: bool)
    requires 1 <= a <= 0x8000_0000 && e < WORD && (two || e == (-2 * a) % WORD)
    ensures Report(e, (-a) % WORD, (e + a) % WORD) != 1 || (two && Report(e, (-a) % WORD, (e + 2 * a) % WORD) != 2)
  {
    assert (-a) % WORD == WORD - a;
    if e + a < WORD {
      assert (e + a) % WORD == e + a;
    } else {
      assert (-2 * a) % WORD == WORD - 2 * a;
      var y := (e + 2 * a) % WORD;
      assert y == e + 2 * a - WORD;
      assert (e - y) / (WORD - a) == 0;
    }
  }

  /** The first multiple of `v` above `e`. */
  lemma FirstAbove(e: nat, v: nat) returns (j: nat)
    requires v >= 1
    ensures j >= 1 && e < j * v <= e + v
  {
    j := e / v + 1;
    assert e == (e / v) * v + e % v;
    assert j * v == (e / v) * v + v;
  }

  lemma WithinReach(all: nat, v: nat, f: nat, j: nat)
    requires f <= 2 && f <= all && j * v <= (all * v) - 2 * v
    requires v >= 1
    ensures j <= all - f
  {
    assert (all - 2 - j) * v == all * v - 2 * v - j * v;
    MulSign(all - 2 - j, v);
  }

  lemma WrapArith(e: nat, jv: nat, v: nat)
    requires 1 <= v < 0x8000_0000 && e < WORD && e < jv <= e + v
    ensures 0 <= e - jv + WORD < WORD && Report(e, v, e - jv + WORD) == 0
  {
    if jv > WORD { assert (jv - WORD) / v == 0; }
  }

  /** When the expected value has wrapped, some loss is reported as none. */
  lemma WrappedReport(all: nat, v: nat, f: nat) returns (k: nat)
    requires IsInt(v) && v >= 1 && all * v >= WORD && f <= 2 && f <= all
    ensures f <= k < all && Report(Units(v, all), v % WORD, Units(v, k)) == 0
  {
    var e, q, p := Units(v, all), all * v / WORD, all * v;
    assert p == q * WORD + e && q >= 1;
    var j := FirstAbove(e, v);
    WithinReach(all, v, f, j);
    k := all - j;
    var jv := j * v;
    assert k * v == p - jv;
    WrapArith(e, jv, v);
    ModUnique(k * v, WORD, q - 1, e - jv + WORD);
  }

  /** For every n, m and every `int` increment, the report is right whatever is lost exactly when nothing can
      be lost, or the increment is positive and the expected value does not overflow. */
  lemma ReportExactly(n: nat, m: nat, v: int)
    requires IsInt(v)
    ensures ReportsRight(n, m, v) <==> n <= 1 || m == 0 || (v >= 1 && n * m * v < WORD)
  {
    var all, f := n * m, Fewest(n, m);
    FewestFacts(n, m);
    if f == all {
    } else if v >= 1 && all * v < WORD {
      forall k: nat | f <= k <= all ensures LostAdds(n, m, v, Units(v, k)) == all - k { InRangeReport(all, v, k); }
    } else if v >= 1 {
      var k := WrappedReport(all, v, f);
      assert LostAdds(n, m, v, Units(v, k)) != all - k;
    } else if v == 0 {
      assert f * v == 0;
      assert LostAdds(n, m, v, Units(v, f)) != all - f;
    } else {
      NegativeReport(all, v, all >= f + 2);
      assert LostAdds(n, m, v, Units(v, all - 1)) != 1
        || (all >= f + 2 && LostAdds(n, m, v, Units(v, all - 2)) != 2);
    }
  }

  /** The reported losses account for the missing value, whatever value a run ends with, exactly when the
      increment or the number of adds is zero, or the increment is positive and the expected value does not
      overflow. */
  lemma AddsUpExactly(n: nat, m: nat, v: int, y: nat)
    requires IsInt(v) && CanEndWith(n, m, v, y)
    ensures LostAdds(n, m, v, y) * v + y == n * m * v <==> v == 0 || n * m == 0 || (v >= 1 && n * m * v < WORD)
  {
    Outcomes(n, m, v, y);
    var k: nat :| Fewest(n, m) <= k <= n * m && y == Units(v, k);
    FewestFacts(n, m);
    if v == 0 || n * m == 0 {
      assert k * v == 0 && n * m * v == 0;
    } else if v >= 1 && n * m * v < WORD {
      LostAddsExact(n, m, v, y);
    } else if v >= 1 {
      ReportBelow(Units(v, n * m), v, y);
    } else {
      NegativeFallsShort(n * m, v, k);
    }
  }

  lemma ReportBelow(e: nat, v: nat, y: nat)
    requires 1 <= v && e < WORD && y < WORD
    ensures Report(e, v, y) * v + y < WORD
  {
    if e > y {
      var q := (e - y) / v;
      assert e - y == q * v + (e - y) % v;
    }
  }

  lemma NegativeFallsShort(all: nat, v: int, k: nat)
    requires IsInt(v) && v < 0 && 1 <= all && k <= all && (all == 1 ==> k == 1)
    ensures Report(Units(v, all), v % WORD, Units(v, k)) * v + Units(v, k) != all * v
  {
    var r := Report(Units(v, all), v % WORD, Units(v, k));
    assert v % WORD == WORD + v;
    AtMostOne(Units(v, all), WORD + v, Units(v, k));
    assert r <= 1;
    if all == 1 {
      assert r == 0 && r * v == 0 && all * v == v;
    } else {
      assert all * v == v + (all - 1) * v;
      MulSign(all - 1, -v);
      assert (all - 1) * v == -((all - 1) * -v);
      assert r * v >= v;
    }
  }

  lemma AtMostOne(e: nat, d: nat, y: nat)
    requires e < WORD && WORD < 2 * d
    ensures Report(e, d, y) <= 1
  {
    if e > y {
      var q := (e - y) / d;
      assert e - y == q * d + (e - y) % d;
      if q >= 2 { MulMono(2, q, d); }
    }
  }

  /** With `k` of `all` adds surviving, the difference is a whole number of increments. */
  lemma SurvivingAdds(all: nat, v: nat, k: nat)
    requires v >= 1 && k <= all && all * v < WORD
    ensures Units(v, k) == k * v <= all * v && (all * v - k * v) / v == all - k
    ensures (all - k) * v + k * v == all * v
  {
    MulMono(k, all, v);
    DivExact(all - k, v);
  }

  lemma MulMono(a: nat, b: nat, v: nat)
    requires a <= b
    ensures a * v <= b * v
  {
  }

  lemma DivExact(a: nat, v: nat)
    requires v >= 1
    ensures (a * v) / v == a
  {
    var d := (a * v) / v - a;
    MulSign(d, v);
    assert a * v == ((a * v) / v) * v + (a * v) % v;
    assert d * v == -((a * v) % v);
  }
}
