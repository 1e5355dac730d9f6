/** The end of the recap `main`: tally the log and report the busiest child. */
module Tally {
  import opened Recap
  import opened RecapRuns

  /** Reads the log entry by entry, counting per child. */
  method AccessStats(log: seq<nat>, n: nat) returns (stats: array<nat>)
    requires forall k :: 0 <= k < |log| ==> log[k] < n
    ensures fresh(stats) && stats.Length == n
    ensures forall i :: 0 <= i < n ==> stats[i] == Count(log, i)
  {
    stats := new nat[n](_ => 0);
    var k := 0;
    while k < |log|
      invariant 0 <= k <= |log| && fresh(stats)
      invariant forall i :: 0 <= i < n ==> stats[i] == Count(log[..k], i)
    {
      assert log[..k + 1] == log[..k] + [log[k]];
      forall i | 0 <= i < n ensures Count(log[..k + 1], i) == Count(log[..k], i) + (if log[k] == i then 1 else 0) {
        CountSnoc(log[..k], log[k], i);
      }
      stats[log[k]] := stats[log[k]] + 1;
      k := k + 1;
    }
    assert log[..k] == log;
  }

  /** The first child with the most accesses; -1 when there is none. */
  method Busiest(stats: array<nat>) returns (id: int, accesses: int)
    ensures stats.Length == 0 ==> id == -1 && accesses == -1
    ensures stats.Length > 0 ==> 0 <= id < stats.Length && accesses == stats[id]
    ensures forall j :: 0 <= j < stats.Length ==> stats[j] <= accesses && (j < id ==> stats[j] < accesses)
  {
    id, accesses := -1, -1;
    var i := 0;
    while i < stats.Length
      invariant 0 <= i <= stats.Length && (i == 0 ==> id == -1 && accesses == -1)
      invariant i > 0 ==> 0 <= id < i && accesses == stats[id]
      invariant forall j :: 0 <= j < i ==> stats[j] <= accesses && (j < id ==> stats[j] < accesses)
    {
      if stats[i] > accesses {
        accesses, id := stats[i], i;
      }
      i := i + 1;
    }
  }

  /** From any final state of the protocol, `main` names the smallest child that ran the most
      rounds, with m accesses for each of them; with no threads to count it names child 0. */
  method Report(m: nat, ghost s: State, log: seq<nat>, n: nat) returns (id: int, accesses: int)
    requires Inv(m, s) && s.main.Reported? && log == s.log && n == |s.children|
    ensures n == 0 ==> id == -1 && accesses == -1
    ensures n > 0 ==> 0 <= id < n && accesses == m * s.children[id].rounds
    ensures m == 0 && n > 0 ==> id == 0
    ensures forall j :: 0 <= j < n && id >= 0 && m >= 1 ==>
      s.children[j].rounds <= s.children[id].rounds && (j < id ==> s.children[j].rounds < s.children[id].rounds)
  {
    var stats := AccessStats(log, n);
    id, accesses := Busiest(stats);
    forall j | 0 <= j < n ensures stats[j] == m * s.children[j].rounds { FinalLog(m, s, j); }
    if m == 0 {
      forall j | 0 <= j < n ensures stats[j] == 0 { assert 0 * s.children[j].rounds == 0; }
      assert n > 0 ==> stats[0] == 0;
    } else if n > 0 {
      forall j | 0 <= j < n
        ensures s.children[j].rounds <= s.children[id].rounds
            && (j < id ==> s.children[j].rounds < s.children[id].rounds)
      {
        MulCancel(m, s.children[j].rounds, s.children[id].rounds);
      }
    }
  }

  lemma MulCancel(m: nat, a: nat, b: nat)
    requires m >= 1
    ensures m * a <= m * b ==> a <= b
    ensures m * a < m * b ==> a < b
  {
    if a > b { assert m * a == m * b + m * (a - b); }
    if a == b { assert m * a == m * b; }
  }
}
