/** Exactly when the balance is right: two unguarded consumers can lose an update. */
module DepositExact {
  import opened Sums
  import opened Ring
  import opened RingExact
  import opened Deposit
  import opened DepositRuns

  ghost predicate BankReaches(cfg: Config, b: Bank, b': Bank) {
    exists sched :: BankExec(cfg, b, sched) == Some(b')
  }

  lemma BankGo(cfg: Config, b0: Bank, b: Bank, a: Action) returns (b': Bank)
    requires BankReaches(cfg, b0, b) && BankStep(cfg, b, a).Some?
    ensures b' == BankStep(cfg, b, a).value && BankReaches(cfg, b0, b')
  {
    var sched :| BankExec(cfg, b0, sched) == Some(b);
    BankExecSnoc(cfg, b0, sched, a);
    b' := BankStep(cfg, b, a).value;
  }

  /** The item value a step sees for the `rand()` result `r`. */
  function Amount(kind: Kind, r: int): int { if kind.Write? then RandomTransaction(r) else r }

  lemma {:induction false} BankLocalN(cfg: Config, b0: Bank, b: Bank, kind: Kind, t: nat, r: int, n: nat)
    requires BankReaches(cfg, b0, b) && !cfg.readMutex && |b.work| == |b.ring.r.threads|
    requires t < |ViewOf(cfg, b.ring, kind).me.threads|
    requires LocalN(ViewOf(cfg, b.ring, kind), Get(ViewOf(cfg, b.ring, kind), t), Amount(kind, r), n).Some?
    ensures var v := ViewOf(cfg, b.ring, kind);
      BankReaches(cfg, b0, b.(ring := Back(b.ring, Put(v, t, LocalN(v, Get(v, t), Amount(kind, r), n).value))))
  {
    var v, x := ViewOf(cfg, b.ring, kind), Amount(kind, r);
    if n == 0 {
      assert Put(v, t, Get(v, t)).me.threads == v.me.threads;
      assert b.(ring := Back(b.ring, Put(v, t, Get(v, t)))) == b;
    } else {
      BankLocalN(cfg, b0, b, kind, t, r, n - 1);
      var g := LocalN(v, Get(v, t), x, n - 1).value;
      var m := b.(ring := Back(b.ring, Put(v, t, g)));
      var b' := BankGo(cfg, b0, m, Action(kind, t, r));
      var g' := LocalN(v, Get(v, t), x, n).value;
      assert Put(Put(v, t, g), t, g').me.threads == Put(v, t, g').me.threads;
    }
  }

  lemma BankClimb(cfg: Config, b0: Bank, b: Bank, kind: Kind, t: nat, r: int, g: Regs) returns (b': Bank)
    requires BankReaches(cfg, b0, b) && !cfg.readMutex && |b.work| == |b.ring.r.threads|
    requires t < |ViewOf(cfg, b.ring, kind).me.threads|
    requires Climbs(ViewOf(cfg, b.ring, kind), Get(ViewOf(cfg, b.ring, kind), t), Amount(kind, r), g)
    ensures b' == b.(ring := Back(b.ring, Put(ViewOf(cfg, b.ring, kind), t, g)))
    ensures BankReaches(cfg, b0, b')
  {
    var v := ViewOf(cfg, b.ring, kind);
    var n: nat :| LocalN(v, Get(v, t), Amount(kind, r), n) == Some(g);
    BankLocalN(cfg, b0, b, kind, t, r, n);
    b' := b.(ring := Back(b.ring, Put(v, t, g)));
  }

  lemma BankPass(cfg: Config, b0: Bank, b: Bank, kind: Kind, t: nat, r: int) returns (b': Bank)
    requires BankReaches(cfg, b0, b) && !cfg.readMutex && |b.work| == |b.ring.r.threads|
    requires var v := ViewOf(cfg, b.ring, kind);
      && t < |v.me.threads| && v.me.threads[t].pc.Idle? && v.me.avail > 0 && v.me.index < |v.buf|
      && (v.lock ==> v.me.mutex > 0)
    ensures BankReaches(cfg, b0, b')
    ensures b' == b.(ring := Back(b.ring, Passed(ViewOf(cfg, b.ring, kind), t, Amount(kind, r))))
  {
    var v, x := ViewOf(cfg, b.ring, kind), Amount(kind, r);
    ToSlot(v, Get(v, t), x);
    b' := BankClimb(cfg, b0, b, kind, t, r, AtSlot(v, Get(v, t), x));
    b' := BankGo(cfg, b0, b', Action(kind, t, r));
    var u := ViewOf(cfg, b'.ring, kind);
    ToHandedOver(u, Get(u, t), x);
    b' := BankClimb(cfg, b0, b', kind, t, r, HandedOver(u, Get(u, t)));
    PassedIs(v, t, x);
  }

  /** From the index test to the end of the loop body. */
  lemma Finish(cfg: Config, b0: Bank, b: Bank, c: nat) returns (b': Bank)
    requires BankReaches(cfg, b0, b) && !cfg.readMutex && |b.work| == |b.ring.r.threads| && c < |b.work|
    requires b.ring.r.threads[c].pc.Released? && b.work[c].Added?
    ensures BankReaches(cfg, b0, b')
    ensures b'.deposit == b.deposit && b'.work == b.work[c := Fresh]
    ensures b'.ring == b.ring.(r := b.ring.r.(threads := b.ring.r.threads[c := b.ring.r.threads[c].(pc := Idle)]))
  {
    var a := Action(Read, c, 0);
    b' := BankGo(cfg, b0, b, a);
    if b'.work[c].Due? { b' := BankGo(cfg, b0, b', a); }
    assert b'.ring == b.ring && b'.deposit == b.deposit && b'.work == b.work[c := Done];
    b' := BankGo(cfg, b0, b', a);
    assert b'.work == b.work[c := Fresh];
  }

  lemma Settle(cfg: Config, b0: Bank, b: Bank, c: nat) returns (b': Bank)
    requires BankReaches(cfg, b0, b) && !cfg.readMutex && |b.work| == |b.ring.r.threads| && c < |b.work|
    requires b.ring.r.threads[c].pc.Released? && b.work[c].Have?
    ensures BankReaches(cfg, b0, b')
    ensures b'.deposit == b.work[c].d + b.ring.r.threads[c].item && b'.work == b.work[c := Fresh]
    ensures b'.ring == b.ring.(r := b.ring.r.(threads := b.ring.r.threads[c := b.ring.r.threads[c].(pc := Idle)]))
  {
    b' := BankGo(cfg, b0, b, Action(Read, c, 0));
    b' := Finish(cfg, b0, b', c);
    assert b'.work == b.work[c := Fresh];
  }

  /** One item taken by consumer 0, which has loaded the balance and not yet stored it. */
  lemma FirstHolds(cfg: Config, producers: nat, consumers: nat) returns (b: Bank)
    requires cfg.size >= 1 && !cfg.readMutex && producers >= 1 && consumers >= 2
    ensures BankReaches(cfg, InitBank(cfg, producers, consumers), b)
    ensures var b0 := InitBank(cfg, producers, consumers);
      && b.work == b0.work[0 := Have(0)] && b.deposit == 0
      && |b.ring.buf| == cfg.size && b.ring.w.index == b.ring.r.index == 1 % cfg.size
      && b.ring.w.avail == cfg.size && b.ring.w.mutex == 1 && b.ring.r.avail == 0
      && |b.ring.w.threads| == producers && b.ring.w.threads[0].pc.Idle?
      && b.ring.r.threads == b0.ring.r.threads[0 := Thread(Released, 1, [1])]
      && b.ring.r.done == [1]
  {
    var b0 := InitBank(cfg, producers, consumers);
    assert BankExec(cfg, b0, []) == Some(b0);
    var b1 := BankPass(cfg, b0, b0, Write, 0, 0);
    assert b1.ring.buf[0] == 1 && b1.ring.r == b0.ring.r.(avail := 1);
    var b2 := BankPass(cfg, b0, b1, Read, 0, 0);
    assert b2.ring.r.threads[0].log == [1];
    b := BankGo(cfg, b0, b2, Action(Read, 0, 0));
  }

  /** Then a second item, taken by consumer 1, which has loaded the same balance. */
  lemma BothHold(cfg: Config, producers: nat, consumers: nat) returns (b: Bank)
    requires cfg.size >= 1 && !cfg.readMutex && producers >= 1 && consumers >= 2
    ensures BankReaches(cfg, InitBank(cfg, producers, consumers), b)
    ensures var b0 := InitBank(cfg, producers, consumers);
      && b.work == b0.work[0 := Have(0)][1 := Have(0)]
      && b.ring.r.threads == b0.ring.r.threads[0 := Thread(Released, 1, [1])][1 := Thread(Released, 2, [2])]
      && b.ring.r.done == [1, 2]
  {
    var b0 := InitBank(cfg, producers, consumers);
    var b1 := FirstHolds(cfg, producers, consumers);
    var b2 := BankPass(cfg, b0, b1, Write, 0, 1);
    assert b2.ring.buf[b1.ring.r.index] == 2 && b2.ring.r == b1.ring.r.(avail := 1);
    var b3 := BankPass(cfg, b0, b2, Read, 1, 0);
    assert b3.ring.r.threads[1].log == [2];
    b := BankGo(cfg, b0, b3, Action(Read, 1, 0));
  }

  /** Consumer 1 stores its sum, then consumer 0 stores over it. */
  lemma LostUpdate(cfg: Config, producers: nat, consumers: nat) returns (b: Bank)
    requires cfg.size >= 1 && !cfg.readMutex && producers >= 1 && consumers >= 2
    ensures BankReaches(cfg, InitBank(cfg, producers, consumers), b)
    ensures AllIdle(b.ring.r.threads) && b.ring.r.done == [1, 2] && b.deposit == 1
  {
    var b0 := InitBank(cfg, producers, consumers);
    b := BothHold(cfg, producers, consumers);
    b := Settle(cfg, b0, b, 1);
    b := Settle(cfg, b0, b, 0);
  }

  /** The balance at rest equals the sum of the loaded items in every run, exactly when the
      consumers share a mutex, or there is one consumer, or nothing is ever produced. */
  lemma DepositExactly(cfg: Config, producers: nat, consumers: nat)
    requires cfg.size >= 1
    ensures (forall b :: BankReaches(cfg, InitBank(cfg, producers, consumers), b) && AllIdle(b.ring.r.threads)
               ==> b.deposit == INITIAL_DEPOSIT + Total(b.ring.r.done))
      <==> (cfg.readMutex || consumers <= 1 || producers == 0)
  {
    var b0 := InitBank(cfg, producers, consumers);
    InitBankInv(cfg, producers, consumers);
    if cfg.readMutex || consumers <= 1 || producers == 0 {
      forall b | BankReaches(cfg, b0, b) && AllIdle(b.ring.r.threads)
        ensures b.deposit == INITIAL_DEPOSIT + Total(b.ring.r.done)
      {
        var sched :| BankExec(cfg, b0, sched) == Some(b);
        BankRunInv(cfg, b0, sched);
        BankRunAmounts(cfg, b0, sched);
        if producers == 0 { Untouched(cfg, b0, sched); } else { DepositSoFar(cfg, b); }
      }
    } else {
      var b := LostUpdate(cfg, producers, consumers);
      assert Total([1, 2]) == 3 by { assert [1, 2][..1] == [1] && [1][..0] == []; }
    }
  }

  /** Without producers nothing moves. */
  lemma Untouched(cfg: Config, b: Bank, sched: seq<Action>)
    requires |b.ring.w.threads| == 0 && b.ring.r.avail == 0 && AllIdle(b.ring.r.threads)
    ensures BankExec(cfg, b, sched) == if sched == [] then Some(b) else None
  {
  }
}
