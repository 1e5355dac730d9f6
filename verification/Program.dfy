/** The producer/consumer programs in their own form: shared variables updated in place. */
module Program {
  import opened Sums
  import opened Ring
  import opened Buffers
  import opened Deposit
  import opened DepositRuns

  class Globals {
    const ring: Buffer
    var deposit: int
    var printed: seq<int>
    var work: seq<Work>   // where each consumer stands in updating and printing the balance

    ghost function Model(): Bank
      reads this, ring, ring.transactions
    {
      Bank(ring.Model(), work, deposit, printed)
    }

    ghost predicate Valid()
      reads this, ring, ring.transactions
    {
      BankInv(ring.cfg, Model())
    }

    constructor (cfg: Config, nProducers: nat, nConsumers: nat)
      requires cfg.size >= 1
      ensures Valid() && ring.cfg == cfg && Model() == InitBank(cfg, nProducers, nConsumers)
      ensures fresh(ring) && fresh(ring.transactions)
    {
      ring := new Buffer(cfg, nProducers, nConsumers);
      deposit, printed := INITIAL_DEPOSIT, [];
      work := seq(nConsumers, _ => Fresh);
      new;
      InitBankInv(cfg, nProducers, nConsumers);
    }

    /** One access of `deposit += x` or of the conditional print. */
    method BalanceStep(c: nat)
      requires c < |ring.consumers| && c < |work|
      modifies this`deposit, this`printed, this`work
      ensures Model() == WorkStep(old(Model()), c)
    {
      match work[c] {
        case Fresh => work := work[c := Have(deposit)];
        case Have(d) =>
          deposit := d + ring.consumers[c].item;
          work := work[c := Added];
        case Added => work := work[c := if ring.readIndex % 10 == 0 then Due else Done];
        case Due =>
          printed := printed + [deposit];
          work := work[c := Done];
        case Done =>
      }
    }

    /** Lets the named thread take its next step, if it can; a producer draws its amount from the
        `rand()` result in the action. */
    method Advance(a: Action) returns (moved: bool)
      requires Valid()
      modifies this, ring, ring.transactions
      ensures Valid()
      ensures moved == BankStep(ring.cfg, old(Model()), a).Some?
      ensures Model() == if moved then BankStep(ring.cfg, old(Model()), a).value else old(Model())
    {
      ghost var b := Model();
      if a.kind.Write? {
        moved := ring.Advance(a.(x := RandomTransaction(a.x)));
      } else {
        moved := AdvanceConsumer(a);
      }
      if moved { BankStepInv(ring.cfg, b, a); }
    }

    method AdvanceConsumer(a: Action) returns (moved: bool)
      requires Wf(ring.cfg, ring.Model()) && |work| == |ring.consumers| && a.kind.Read?
      modifies this, ring, ring.transactions
      ensures var b := BankStep(ring.cfg, old(Model()), a);
        moved == b.Some? && Model() == if moved then b.value else old(Model())
    {
      if a.t >= |work| {
        moved := false;
      } else if WorkDue(ring.cfg.readMutex, ring.consumers[a.t].pc, work[a.t]) {
        BalanceStep(a.t);
        moved := true;
      } else {
        var last := ring.consumers[a.t].pc.Released?;
        moved := ring.Advance(a);
        if moved && last { work := work[a.t := Fresh]; }
      }
    }

    /** Plays a schedule up to the first blocked step. */
    method Play(sched: seq<Action>) returns (n: nat)
      requires Valid()
      modifies this, ring, ring.transactions
      ensures Valid() && n <= |sched|
      ensures BankExec(ring.cfg, old(Model()), sched[..n]) == Some(Model())
      ensures n < |sched| ==> BankStep(ring.cfg, Model(), sched[n]).None?
    {
      n := 0;
      var moved := true;
      assert sched[..0] == [];
      while moved && n < |sched|
        invariant Valid() && n <= |sched|
        invariant BankExec(ring.cfg, old(Model()), sched[..n]) == Some(Model())
        invariant !moved ==> n < |sched| && BankStep(ring.cfg, Model(), sched[n]).None?
        decreases |sched| - n, moved
      {
        moved := Advance(sched[n]);
        if moved {
          assert sched[..n + 1] == sched[..n] + [sched[n]];
          BankExecSnoc(ring.cfg, old(Model()), sched[..n], sched[n]);
          n := n + 1;
        }
      }
    }
  }
}
