/** The connection limiter: a counting semaphore bounds the handler processes. */
module Limiter {
  import opened Sums

  /** `Lost` exited through an error before reaching its post. */
  datatype Handler = Serving | Posted | Lost

  datatype Main = Accepting | Accepted | Admitted

  datatype Server = Server(permits: nat, main: Main, handlers: seq<Handler>)

  datatype Event = Accept | TakePermit | Fork | Post(i: nat) | Die(i: nat)

  function InitServer(max: nat): Server { Server(max, Accepting, []) }

  function ServerStep(s: Server, e: Event): Option<Server> {
    match e
    case Accept => if s.main.Accepting? then Some(s.(main := Accepted)) else None
    case TakePermit => if s.main.Accepted? && s.permits > 0 then Some(s.(main := Admitted, permits := s.permits - 1))
        else None
    case Fork => if s.main.Admitted? then Some(s.(main := Accepting, handlers := s.handlers + [Serving])) else None
    case Post(i) =>
      if i < |s.handlers| && s.handlers[i].Serving?
      then Some(s.(permits := s.permits + 1, handlers := s.handlers[i := Posted])) else None
    case Die(i) =>
      if i < |s.handlers| && s.handlers[i].Serving? then Some(s.(handlers := s.handlers[i := Lost])) else None
  }

  function ServerExec(s: Server, run: seq<Event>): Option<Server>
    decreases |run|
  {
    if run == [] then Some(s)
    else
      var r := ServerStep(s, run[0]);
      if r.None? then None else ServerExec(r.value, run[1..])
  }

  function IsServing(h: Handler): nat { if h.Serving? then 1 else 0 }
  function IsLost(h: Handler): nat { if h.Lost? then 1 else 0 }

  function InUse(s: Server): nat { Sum(s.handlers, IsServing) + (if s.main.Admitted? then 1 else 0) }
  function Leaked(s: Server): nat { Sum(s.handlers, IsLost) }

  ghost predicate PermitsAddUp(max: nat, s: Server) { s.permits + InUse(s) + Leaked(s) == max }

  lemma StepAddsUp(max: nat, s: Server, e: Event)
    requires PermitsAddUp(max, s) && ServerStep(s, e).Some?
    ensures PermitsAddUp(max, ServerStep(s, e).value) && Leaked(ServerStep(s, e).value) >= Leaked(s)
  {
    match e {
      case Fork =>
        SumSnoc(s.handlers, Serving, IsServing);
        SumSnoc(s.handlers, Serving, IsLost);
      case Post(i) =>
        SumUpdate(s.handlers, i, Posted, IsServing);
        SumUpdate(s.handlers, i, Posted, IsLost);
      case Die(i) =>
        SumUpdate(s.handlers, i, Lost, IsServing);
        SumUpdate(s.handlers, i, Lost, IsLost);
      case _ =>
    }
  }

  /** In every run: permits, handlers at work and handlers lost add up to the maximum, so the handlers
      at work never exceed what the losses leave. */
  lemma {:induction false} RunAddsUp(max: nat, s: Server, run: seq<Event>)
    requires PermitsAddUp(max, s) && ServerExec(s, run).Some?
    ensures var s' := ServerExec(s, run).value;
      PermitsAddUp(max, s') && Leaked(s') >= Leaked(s) && Sum(s'.handlers, IsServing) <= max - Leaked(s)
    decreases |run|
  {
    if run == [] {
    } else {
      StepAddsUp(max, s, run[0]);
      RunAddsUp(max, ServerStep(s, run[0]).value, run[1..]);
    }
  }

  /** Every permit leaked: no further connection is ever handled. */
  lemma {:induction false} WedgedForever(max: nat, s: Server, run: seq<Event>)
    requires PermitsAddUp(max, s) && Leaked(s) == max && ServerExec(s, run).Some?
    ensures ServerExec(s, run).value.handlers == s.handlers
    decreases |run|
  {
    if run == [] {
    } else {
      StepAddsUp(max, s, run[0]);
      StillWedged(max, s, run[0]);
      WedgedForever(max, ServerStep(s, run[0]).value, run[1..]);
    }
  }

  lemma StillWedged(max: nat, s: Server, e: Event)
    requires PermitsAddUp(max, s) && Leaked(s) == max && ServerStep(s, e).Some?
    ensures ServerStep(s, e).value.handlers == s.handlers && Leaked(ServerStep(s, e).value) == max
  {
    assert forall i :: 0 <= i < |s.handlers| ==> IsServing(s.handlers[i]) == 0 by {
      forall i | 0 <= i < |s.handlers| ensures IsServing(s.handlers[i]) == 0 {
        SumUpdate(s.handlers, i, s.handlers[i], IsServing);
      }
    }
  }

  /** A permit left: the server can go on to handle another connection, whatever state it is in. */
  lemma CanServeAnother(max: nat, s: Server) returns (run: seq<Event>)
    requires PermitsAddUp(max, s) && Leaked(s) < max
    ensures ServerExec(s, run).Some? && |ServerExec(s, run).value.handlers| == |s.handlers| + 1
    decreases if s.main.Admitted? then 0 else if s.permits > 0 then 1 else 2, s.main.Accepting?
  {
    if s.main.Admitted? {
      run := [Fork];
      Prefix(s, Fork, []);
    } else if s.main.Accepting? {
      var rest := CanServeAnother(max, ServerStep(s, Accept).value);
      run := [Accept] + rest;
      Prefix(s, Accept, rest);
    } else if s.permits > 0 {
      StepAddsUp(max, s, TakePermit);
      var rest := CanServeAnother(max, ServerStep(s, TakePermit).value);
      run := [TakePermit] + rest;
      Prefix(s, TakePermit, rest);
    } else {
      var i := SumToWitness(s.handlers, IsServing, |s.handlers|);
      StepAddsUp(max, s, Post(i));
      SumUpdate(s.handlers, i, Posted, IsLost);
      var rest := CanServeAnother(max, ServerStep(s, Post(i)).value);
      run := [Post(i)] + rest;
      Prefix(s, Post(i), rest);
    }
  }

  lemma Prefix(s: Server, e: Event, rest: seq<Event>)
    requires ServerStep(s, e).Some?
    ensures ServerExec(s, [e] + rest) == ServerExec(ServerStep(s, e).value, rest)
    ensures ServerExec(s, [e]) == Some(ServerStep(s, e).value)
  {
    assert ([e] + rest)[1..] == rest && [e][1..] == [];
  }

  ghost predicate GrowsTo(s: Server, run: seq<Event>) {
    ServerExec(s, run).Some? && |ServerExec(s, run).value.handlers| > |s.handlers|
  }

  /** The server can ever serve a further connection exactly while some permit has not leaked. */
  lemma ServesExactly(max: nat, s: Server)
    requires PermitsAddUp(max, s)
    ensures (exists run :: GrowsTo(s, run)) <==> Leaked(s) < max
  {
    if Leaked(s) < max {
      var run := CanServeAnother(max, s);
      assert GrowsTo(s, run);
    } else {
      forall run | ServerExec(s, run).Some? ensures !GrowsTo(s, run) { WedgedForever(max, s, run); }
    }
  }

  // ---- a run is told by its events ----

  function Number(run: seq<Event>, which: Event -> bool): nat {
    if run == [] then 0 else (if which(run[0]) then 1 else 0) + Number(run[1..], which)
  }

  /** A handler's end: `Posted` when it posts, `Lost` when it exits through an error. */
  predicate Ends(h: Handler, run: seq<Event>, i: nat, end: Handler) {
    match h
    case Serving =>
      if Post(i) in run then end.Posted? && Die(i) !in run
      else if Die(i) in run then end.Lost?
      else end.Serving?
    case _ => end == h && Post(i) !in run && Die(i) !in run
  }

  function HandlerAt(s: Server, i: nat): Handler { if i < |s.handlers| then s.handlers[i] else Serving }

  lemma StepEnds(s: Server, run: seq<Event>, i: nat, end: Handler)
    requires run != [] && ServerStep(s, run[0]).Some?
    requires Ends(HandlerAt(ServerStep(s, run[0]).value, i), run[1..], i, end)
    ensures Ends(HandlerAt(s, i), run, i, end)
  {
    assert run == [run[0]] + run[1..];
  }

  /** In every run each handler ends as its own events say: a normal exit gives the permit back, an exit
      through an error does not. Permits, handlers and leaks follow the numbers of events. */
  lemma {:induction false} RunIsItsEvents(s: Server, run: seq<Event>)
    requires ServerExec(s, run).Some?
    ensures var s' := ServerExec(s, run).value;
      && |s'.handlers| == |s.handlers| + Number(run, (e: Event) => e.Fork?)
      && s'.permits == s.permits - Number(run, (e: Event) => e.TakePermit?) + Number(run, (e: Event) => e.Post?)
      && Leaked(s') == Leaked(s) + Number(run, (e: Event) => e.Die?)
      && forall i :: 0 <= i < |s'.handlers| ==> Ends(HandlerAt(s, i), run, i, s'.handlers[i])
    decreases |run|
  {
    if run == [] {
    } else {
      var s1 := ServerStep(s, run[0]).value;
      StepLeaks(s, run[0]);
      RunIsItsEvents(s1, run[1..]);
      var s' := ServerExec(s1, run[1..]).value;
      forall i | 0 <= i < |s'.handlers| ensures Ends(HandlerAt(s, i), run, i, s'.handlers[i]) {
        StepEnds(s, run, i, s'.handlers[i]);
      }
    }
  }

  lemma StepLeaks(s: Server, e: Event)
    requires ServerStep(s, e).Some?
    ensures Leaked(ServerStep(s, e).value) == Leaked(s) + (if e.Die? then 1 else 0)
  {
    match e {
      case Fork => SumSnoc(s.handlers, Serving, IsLost);
      case Post(i) => SumUpdate(s.handlers, i, Posted, IsLost);
      case Die(i) => SumUpdate(s.handlers, i, Lost, IsLost);
      case _ =>
    }
  }

  /** The accept loop accepts, takes a permit and forks, in that order, over and over. */
  lemma {:induction false} LoopOrder(s: Server, run: seq<Event>)
    requires ServerExec(s, run).Some?
    ensures var s' := ServerExec(s, run).value;
      var accepts := Number(run, (e: Event) => e.Accept?);
      var takes := Number(run, (e: Event) => e.TakePermit?);
      var forks := Number(run, (e: Event) => e.Fork?);
      && accepts + (if s.main.Accepted? then 1 else 0) == takes + (if s'.main.Accepted? then 1 else 0)
      && takes + (if s.main.Admitted? then 1 else 0) == forks + (if s'.main.Admitted? then 1 else 0)
    decreases |run|
  {
    if run == [] {
    } else {
      LoopOrder(ServerStep(s, run[0]).value, run[1..]);
    }
  }

  // ---- the server in its own form ----

  class Listener {
    ghost const max: nat
    var connections: nat
    var main: Main
    ghost var handlers: seq<Handler>   // the child processes, which the server does not track

    ghost function Model(): Server reads this { Server(connections, main, handlers) }

    ghost predicate Valid() reads this { PermitsAddUp(max, Model()) }

    constructor (max: nat)
      ensures Valid() && this.max == max && Model() == InitServer(max)
    {
      this.max, connections, main, handlers := max, max, Accepting, [];
    }

    /** The next step of the accept loop; false when it waits for a permit. */
    method AcceptLoop() returns (moved: bool)
      requires Valid()
      modifies this
      ensures Valid()
      ensures var e := match old(main) case Accepting => Accept case Accepted => TakePermit case Admitted => Fork;
        && moved == ServerStep(old(Model()), e).Some?
        && Model() == if moved then ServerStep(old(Model()), e).value else old(Model())
    {
      moved := true;
      match main {
        case Accepting => main := Accepted;
        case Accepted =>
          moved := connections > 0;
          if moved { main, connections := Admitted, connections - 1; }
        case Admitted =>
          SumSnoc(handlers, Serving, IsServing);
          SumSnoc(handlers, Serving, IsLost);
          main, handlers := Accepting, handlers + [Serving];
      }
    }

    /** Handler `i` reaches its post, or exits through an error before it. */
    method Finish(ghost i: nat, error: bool)
      requires Valid() && i < |handlers| && handlers[i].Serving?
      modifies this
      ensures Valid() && Some(Model()) == ServerStep(old(Model()), if error then Die(i) else Post(i))
    {
      StepAddsUp(max, Model(), if error then Die(i) else Post(i));
      if !error { connections := connections + 1; }
      handlers := handlers[i := if error then Lost else Posted];
    }
  }
}
