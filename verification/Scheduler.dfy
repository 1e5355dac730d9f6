/** The resource scheduler: any number of clients, two work items per permit. */
module Scheduler {
  import opened Sums
  import opened Bytes

  datatype Pc =
    | Top        // at the loop test
    | First      // permit held, about to do item i
    | Second     // about to test whether an item is left, and do it
    | Release    // about to post the permit
    | Done

  /** `done` lists the items worked on; `grabs` counts acquisitions. */
  datatype Client = Client(tasks: nat, i: nat, pc: Pc, done: seq<nat>, grabs: nat)

  datatype State = State(permits: nat, clients: seq<Client>)

  datatype Event = Spawn(tasks: nat) | Run(c: nat)

  function Init(resources: nat): State { State(resources, []) }

  function ClientStep(s: State, c: nat): Option<State>
    requires c < |s.clients|
  {
    var k := s.clients[c];
    match k.pc
    case Top =>
      if k.i >= k.tasks then Some(s.(clients := s.clients[c := k.(pc := Done)]))
      else if s.permits == 0 then None
      else Some(State(s.permits - 1, s.clients[c := k.(pc := First, grabs := k.grabs + 1)]))
    case First => Some(s.(clients := s.clients[c := k.(pc := Second, i := k.i + 1, done := k.done + [k.i])]))
    case Second =>
      var done := if k.i != k.tasks then k.done + [k.i] else k.done;
      Some(s.(clients := s.clients[c := k.(pc := Release, i := k.i + 1, done := done)]))
    case Release => Some(State(s.permits + 1, s.clients[c := k.(pc := Top)]))
    case Done => None
  }

  function Step(s: State, e: Event): Option<State> {
    match e
    case Spawn(tasks) => Some(s.(clients := s.clients + [Client(tasks, 0, Top, [], 0)]))
    case Run(c) => if c < |s.clients| then ClientStep(s, c) else None
  }

  function Exec(s: State, run: seq<Event>): Option<State>
    decreases |run|
  {
    if run == [] then Some(s)
    else
      var r := Step(s, run[0]);
      if r.None? then None else Exec(r.value, run[1..])
  }

  function Holds(k: Client): nat { if k.pc.First? || k.pc.Second? || k.pc.Release? then 1 else 0 }

  /** A client has done its items in order, once each, two per acquisition. */
  ghost predicate ClientOk(k: Client) {
    && k.i <= k.tasks + 1
    && |k.done| == Min(k.i, k.tasks) && (forall j :: 0 <= j < |k.done| ==> k.done[j] == j)
    && (match k.pc
        case Top => k.i == 2 * k.grabs
        case First => k.i + 2 == 2 * k.grabs && k.i < k.tasks
        case Second => k.i + 1 == 2 * k.grabs && k.i <= k.tasks
        case Release => k.i == 2 * k.grabs
        case Done => k.i == 2 * k.grabs && k.i >= k.tasks)
  }

  ghost predicate Inv(resources: nat, s: State) {
    && s.permits + Sum(s.clients, Holds) == resources
    && forall c :: 0 <= c < |s.clients| ==> ClientOk(s.clients[c])
  }

  lemma ClientStepOk(s: State, c: nat)
    requires c < |s.clients| && ClientOk(s.clients[c]) && ClientStep(s, c).Some?
    ensures var s' := ClientStep(s, c).value;
      && ClientOk(s'.clients[c]) && s'.clients == s.clients[c := s'.clients[c]]
      && s'.permits + Holds(s'.clients[c]) == s.permits + Holds(s.clients[c])
      && (s'.clients[c].done != s.clients[c].done ==> Holds(s.clients[c]) == 1 && Holds(s'.clients[c]) == 1)
  {
  }

  lemma StepInv(resources: nat, s: State, e: Event)
    requires Inv(resources, s) && Step(s, e).Some?
    ensures Inv(resources, Step(s, e).value)
  {
    match e {
      case Spawn(tasks) => SumSnoc(s.clients, Client(tasks, 0, Top, [], 0), Holds);
      case Run(c) =>
        ClientStepOk(s, c);
        SumUpdate(s.clients, c, Step(s, e).value.clients[c], Holds);
    }
  }

  /** In every run, spawning included, permits and holders add up to the resources and every client
      has done the items it is past, each once, in order and while holding a permit. */
  lemma {:induction false} RunInv(resources: nat, s: State, run: seq<Event>)
    requires Inv(resources, s) && Exec(s, run).Some?
    ensures Inv(resources, Exec(s, run).value)
    ensures Sum(Exec(s, run).value.clients, Holds) <= resources
    decreases |run|
  {
    if run == [] {
    } else {
      StepInv(resources, s, run[0]);
      RunInv(resources, Step(s, run[0]).value, run[1..]);
    }
  }

  /** A finished client did every item once and acquired the semaphore ceil(tasks / 2) times. */
  lemma FinishedClient(k: Client)
    requires ClientOk(k) && k.pc.Done?
    ensures k.done == seq(k.tasks, j => j) && k.grabs == (k.tasks + 1) / 2
  {
    assert |k.done| == k.tasks;
  }

  // ---- without further spawning, everyone finishes ----

  /** Steps the client has left. */
  function Rest(k: Client): nat {
    var pairs := if k.i < k.tasks then (k.tasks + 1 - k.i) / 2 else 0;
    match k.pc
    case Top => 4 * pairs + 1
    case First => 4 * pairs
    case Second => (if k.i < k.tasks then 4 * ((k.tasks - k.i) / 2) else 0) + 3
    case Release => 4 * pairs + 2
    case Done => 0
  }

  lemma RestDrops(s: State, c: nat)
    requires c < |s.clients| && ClientOk(s.clients[c]) && ClientStep(s, c).Some?
    ensures Rest(ClientStep(s, c).value.clients[c]) + 1 == Rest(s.clients[c])
  {
  }

  lemma {:induction false} RunDrops(resources: nat, s: State, run: seq<Event>)
    requires Inv(resources, s) && Exec(s, run).Some? && forall j :: 0 <= j < |run| ==> run[j].Run?
    ensures Sum(Exec(s, run).value.clients, Rest) + |run| == Sum(s.clients, Rest)
    decreases |run|
  {
    if run == [] {
    } else {
      var e := run[0];
      RestDrops(s, e.c);
      SumUpdate(s.clients, e.c, Step(s, e).value.clients[e.c], Rest);
      StepInv(resources, s, e);
      RunDrops(resources, Step(s, e).value, run[1..]);
    }
  }

  predicate AllDone(s: State) { forall c :: 0 <= c < |s.clients| ==> s.clients[c].pc.Done? }

  lemma SomeoneCanRun(resources: nat, s: State)
    requires Inv(resources, s) && resources >= 1 && !AllDone(s)
    ensures exists c :: Step(s, Run(c)).Some?
  {
    if s.permits == 0 {
      var c := SumToWitness(s.clients, Holds, |s.clients|);
      assert Step(s, Run(c)).Some?;
    } else {
      var c :| 0 <= c < |s.clients| && !s.clients[c].pc.Done?;
      assert Step(s, Run(c)).Some?;
    }
  }

  /** With at least one resource and no further spawning: a run is bounded, never sticks before
      everyone is done, and then every permit is back. */
  lemma EveryoneFinishes(resources: nat, s: State, run: seq<Event>)
    requires Inv(resources, s) && resources >= 1
    requires Exec(s, run).Some? && forall j :: 0 <= j < |run| ==> run[j].Run?
    ensures |run| <= Sum(s.clients, Rest)
    ensures var s' := Exec(s, run).value;
      if AllDone(s') then s'.permits == resources else exists c :: Step(s', Run(c)).Some?
  {
    RunInv(resources, s, run);
    RunDrops(resources, s, run);
    var s' := Exec(s, run).value;
    if AllDone(s') { SumBound(s'.clients, Holds, 0); } else { SomeoneCanRun(resources, s'); }
  }

  // ---- every client does the items it was spawned with ----

  function Spawned(run: seq<Event>): seq<nat> {
    if run == [] then [] else (if run[0].Spawn? then [run[0].tasks] else []) + Spawned(run[1..])
  }

  function TasksOf(clients: seq<Client>): seq<nat> {
    seq(|clients|, c requires 0 <= c < |clients| => clients[c].tasks)
  }

  lemma StepTasks(s: State, e: Event)
    requires Step(s, e).Some?
    ensures TasksOf(Step(s, e).value.clients) == TasksOf(s.clients) + (if e.Spawn? then [e.tasks] else [])
  {
  }

  /** The clients are those spawned, in order, and none ever changes its number of items. */
  lemma {:induction false} RunTasks(s: State, run: seq<Event>)
    requires Exec(s, run).Some?
    ensures TasksOf(Exec(s, run).value.clients) == TasksOf(s.clients) + Spawned(run)
    decreases |run|
  {
    if run == [] {
    } else {
      StepTasks(s, run[0]);
      RunTasks(Step(s, run[0]).value, run[1..]);
      var first := if run[0].Spawn? then [run[0].tasks] else [];
      Regroup(TasksOf(s.clients), first, Spawned(run[1..]));
    }
  }

  /** In every run in which all are done, client c did the items 0 to (tasks of the c-th spawn) - 1, once each and
      in order. */
  lemma AllItemsDone(resources: nat, run: seq<Event>)
    requires Exec(Init(resources), run).Some? && AllDone(Exec(Init(resources), run).value)
    ensures var s := Exec(Init(resources), run).value;
      && s.permits == resources && |s.clients| == |Spawned(run)|
      && forall c :: 0 <= c < |s.clients| ==> DidAll(s.clients[c], Spawned(run)[c])
  {
    RunInv(resources, Init(resources), run);
    RunTasks(Init(resources), run);
    var s := Exec(Init(resources), run).value;
    assert TasksOf(s.clients) == Spawned(run);
    SumBound(s.clients, Holds, 0);
    forall c: nat | c < |s.clients| ensures DidAll(s.clients[c], Spawned(run)[c]) {
      ItemsOf(resources, s, c);
    }
  }

  /** All the items of a client spawned with `tasks` of them, once each and in order, two per acquisition. */
  predicate DidAll(k: Client, tasks: nat) { k.done == seq(tasks, j => j) && k.grabs == (tasks + 1) / 2 }

  lemma ItemsOf(resources: nat, s: State, c: nat)
    requires Inv(resources, s) && AllDone(s) && c < |s.clients|
    ensures DidAll(s.clients[c], TasksOf(s.clients)[c])
  {
    FinishedClient(s.clients[c]);
  }

  /** A client is held up by nothing but the semaphore at zero. */
  lemma BlocksExactly(resources: nat, s: State, c: nat)
    requires Inv(resources, s) && c < |s.clients| && !s.clients[c].pc.Done?
    ensures Step(s, Run(c)).None? <==> s.permits == 0 && s.clients[c].pc.Top? && s.clients[c].i < s.clients[c].tasks
  {
  }

  // ---- the program in its own form ----

  /** A step that leaves the semaphore alone depends on its own client only. */
  lemma OwnStep(s: State, c: nat)
    requires c < |s.clients| && var k := s.clients[c]; k.pc.First? || k.pc.Second? || (k.pc.Top? && k.i >= k.tasks)
    ensures var own := ClientStep(State(0, [s.clients[c]]), 0);
      && own.Some? && |own.value.clients| == 1
      && ClientStep(s, c) == Some(s.(clients := s.clients[c := own.value.clients[0]]))
  {
  }

  /** A thread with its arguments and its local variable. */
  class ClientThread {
    const tasks: nat
    var i: nat
    var pc: Pc
    ghost var done: seq<nat>
    ghost var grabs: nat

    ghost function Value(): Client reads this { Client(tasks, i, pc, done, grabs) }

    constructor (tasks: nat)
      ensures Value() == Client(tasks, 0, Top, [], 0)
    {
      this.tasks, i, pc, done, grabs := tasks, 0, Top, [], 0;
    }

    /** A step other than the wait and the post. */
    method Work()
      requires pc.First? || pc.Second? || (pc.Top? && i >= tasks)
      modifies this
      ensures ClientStep(State(0, [old(Value())]), 0) == Some(State(0, [Value()]))
    {
      match pc {
        case First =>
          done := done + [i];
          i, pc := i + 1, Second;
        case Second =>
          if i != tasks { done := done + [i]; }
          i, pc := i + 1, Release;
        case Top =>
          pc := Done;
      }
      assert [old(Value())][0 := Value()] == [Value()];
    }
  }

  class Program {
    ghost const resources: nat
    var semaphore: nat
    var threads: seq<ClientThread>

    ghost predicate Distinct() reads this { forall c, d :: 0 <= c < d < |threads| ==> threads[c] != threads[d] }

    ghost function Clients(): (r: seq<Client>)
      reads this, threads
      ensures |r| == |threads| && forall c :: 0 <= c < |r| ==> r[c] == threads[c].Value()
    {
      seq(|threads|, c requires 0 <= c < |threads| reads this, threads => threads[c].Value())
    }

    ghost function Model(): State reads this, threads { State(semaphore, Clients()) }

    ghost predicate Valid() reads this, threads { Distinct() && Inv(resources, Model()) }

    constructor (resources: nat)
      ensures Valid() && this.resources == resources && Model() == Init(resources)
    {
      this.resources, semaphore, threads := resources, resources, [];
    }

    /** The driver starts a client. */
    method Start(tasks: nat)
      requires Valid()
      modifies this`threads
      ensures Valid() && Some(Model()) == Step(old(Model()), Spawn(tasks))
    {
      ghost var s := Model();
      var thread := new ClientThread(tasks);
      threads := threads + [thread];
      assert Clients() == s.clients + [Client(tasks, 0, Top, [], 0)];
      StepInv(resources, s, Spawn(tasks));
    }

    /** The next step of client `c`; false when it is blocked or done. */
    method Advance(c: nat) returns (moved: bool)
      requires Valid()
      modifies this`semaphore, threads
      ensures Valid()
      ensures moved == Step(old(Model()), Run(c)).Some?
      ensures Model() == if moved then Step(old(Model()), Run(c)).value else old(Model())
    {
      if c >= |threads| {
        return false;
      }
      ghost var s := Model();
      var k := threads[c];
      moved := true;
      if k.pc.Done? || (k.pc.Top? && k.i < k.tasks && semaphore == 0) {
        return false;
      } else if k.pc.Top? && k.i < k.tasks {
        semaphore, k.pc, k.grabs := semaphore - 1, First, k.grabs + 1;
      } else if k.pc.Release? {
        semaphore, k.pc := semaphore + 1, Top;
      } else {
        k.Work();
        OwnStep(s, c);
      }
      assert Clients() == s.clients[c := k.Value()];
      StepInv(resources, s, Run(c));
    }
  }
}
