/** The send loops of the echo servers, which test `ret == 1 && errno == EINTR`. */
module SendLoop {
  import opened Bytes

  /** One `send`: some bytes went out (errno is then left alone), or an error set errno. */
  datatype Result = Sent(n: nat) | Error(interrupted: bool)

  /** `stale` says errno holds EINTR from an earlier call; `wire` is what the peer has been sent;
      `repeats` counts one-byte sends taken for interruptions. */
  datatype Sender = Sender(bytesSent: nat, stale: bool, alive: bool, wire: seq<byte>, repeats: nat)

  function Start(stale: bool): Sender { Sender(0, stale, true, [], 0) }

  /** The kernel may send any positive number of the bytes offered. */
  predicate Possible(msg: seq<byte>, s: Sender, r: Result) {
    s.alive && s.bytesSent < |msg| && (r.Sent? ==> 1 <= r.n <= |msg| - s.bytesSent)
  }

  function SendOnce(msg: seq<byte>, s: Sender, r: Result): Sender
    requires Possible(msg, s, r)
  {
    match r
    case Error(e) => s.(alive := false, stale := e)
    case Sent(n) =>
      var out := s.wire + msg[s.bytesSent..s.bytesSent + n];
      if n == 1 && s.stale then s.(wire := out, repeats := s.repeats + 1)
      else s.(wire := out, bytesSent := s.bytesSent + n)
  }

  /** The whole run, while the results are ones the kernel can give. */
  ghost predicate SendRun(msg: seq<byte>, s: Sender, results: seq<Result>, s': Sender)
    decreases |results|
  {
    if results == [] then s' == s
    else Possible(msg, s, results[0]) && SendRun(msg, SendOnce(msg, s, results[0]), results[1..], s')
  }

  predicate Delivered(msg: seq<byte>, s: Sender) { s.alive && s.bytesSent == |msg| }

  ghost predicate Ok(msg: seq<byte>, stale: bool, s: Sender) {
    && s.bytesSent <= |msg|
    && |s.wire| == s.bytesSent + s.repeats
    && (s.repeats == 0 ==> s.wire == msg[..s.bytesSent])
    && (s.alive ==> s.stale == stale) && (!stale ==> s.repeats == 0)
  }

  lemma {:induction false} RunOk(msg: seq<byte>, stale: bool, s: Sender, results: seq<Result>, s': Sender)
    requires Ok(msg, stale, s) && SendRun(msg, s, results, s')
    ensures Ok(msg, stale, s')
    decreases |results|
  {
    if results == [] {
    } else {
      var r := results[0];
      if r.Sent? {
        assert msg[..s.bytesSent + r.n] == msg[..s.bytesSent] + msg[s.bytesSent..s.bytesSent + r.n];
      }
      RunOk(msg, stale, SendOnce(msg, s, r), results[1..], s');
    }
  }

  /** A finished loop has put the length of the message plus one byte per repeat on the wire, and the
      message itself exactly when there was no repeat. */
  lemma FinishedLoop(msg: seq<byte>, stale: bool, results: seq<Result>, s: Sender)
    requires SendRun(msg, Start(stale), results, s) && Delivered(msg, s)
    ensures |s.wire| == |msg| + s.repeats
    ensures s.wire == msg <==> s.repeats == 0
  {
    RunOk(msg, stale, Start(stale), results, s);
    assert msg[..|msg|] == msg;
  }

  /** What the peer has been sent, in every state of every run. */
  ghost predicate Prefix(msg: seq<byte>, stale: bool, results: seq<Result>, s: Sender) {
    SendRun(msg, Start(stale), results, s) ==> s.wire <= msg
  }

  ghost predicate AlwaysPrefix(msg: seq<byte>, stale: bool) {
    forall results, s :: Prefix(msg, stale, results, s)
  }

  /** Safety, finished or not: the peer is only ever sent a prefix of the message, exactly when errno is
      not left at EINTR on entry, or there is nothing to send. */
  lemma PrefixExactly(msg: seq<byte>, stale: bool)
    ensures AlwaysPrefix(msg, stale) <==> !stale || msg == []
  {
    if stale && msg != [] {
      Flooded(msg, |msg| + 1);
    } else {
      forall results, s ensures Prefix(msg, stale, results, s) {
        if SendRun(msg, Start(stale), results, s) {
          RunOk(msg, stale, Start(stale), results, s);
        }
      }
    }
  }

  function Ones(k: nat): seq<Result> { if k == 0 then [] else Ones(k - 1) + [Sent(1)] }

  function Copies(b: byte, k: nat): seq<byte> { if k == 0 then [] else Copies(b, k - 1) + [b] }

  /** With errno at EINTR, one-byte sends put the first byte on the wire any number of times and the
      loop gets nowhere. */
  lemma {:induction false} Flooded(msg: seq<byte>, k: nat)
    requires msg != []
    ensures |Copies(msg[0], k)| == k
    ensures SendRun(msg, Start(true), Ones(k), Sender(0, true, true, Copies(msg[0], k), k))
    ensures k > |msg| ==> !Prefix(msg, true, Ones(k), Sender(0, true, true, Copies(msg[0], k), k))
  {
    if k == 0 {
    } else {
      Flooded(msg, k - 1);
      var s := Sender(0, true, true, Copies(msg[0], k - 1), k - 1);
      RunSnoc(msg, Start(true), Ones(k - 1), s, Sent(1));
      assert msg[0..1] == [msg[0]];
    }
  }

  predicate ErrorFree(results: seq<Result>) { forall k :: 0 <= k < |results| ==> results[k].Sent? }

  /** Progress with a clean errno: every send moves the loop on. */
  lemma {:induction false} EachSendAdvances(msg: seq<byte>, s: Sender, results: seq<Result>, s': Sender)
    requires SendRun(msg, s, results, s') && ErrorFree(results) && s.alive && !s.stale && s.bytesSent <= |msg|
    ensures s'.alive && s.bytesSent + |results| <= s'.bytesSent <= |msg|
    decreases |results|
  {
    if results == [] {
    } else {
      assert results[0].Sent?;
      EachSendAdvances(msg, SendOnce(msg, s, results[0]), results[1..], s');
    }
  }

  /** Total correctness with a clean errno: without errors the loop makes at most one send per byte,
      and a run that can be extended by no send has delivered the message and nothing else. */
  lemma CleanLoopDelivers(msg: seq<byte>, results: seq<Result>, s: Sender)
    requires SendRun(msg, Start(false), results, s) && ErrorFree(results)
    ensures |results| <= |msg| && s.bytesSent <= |msg| && s.wire == msg[..s.bytesSent]
    ensures (forall n :: !Possible(msg, s, Sent(n))) <==> Delivered(msg, s)
    ensures Delivered(msg, s) <==> s.wire == msg
  {
    EachSendAdvances(msg, Start(false), results, s);
    RunOk(msg, false, Start(false), results, s);
    assert msg[..|msg|] == msg;
    assert s.bytesSent < |msg| ==> Possible(msg, s, Sent(1));
  }

  /** Termination without errors: under a stale errno there are runs of every length. */
  lemma TerminatesExactly(msg: seq<byte>, stale: bool)
    ensures (exists bound: nat :: Bounded(msg, stale, bound)) <==> !stale || msg == []
  {
    if stale && msg != [] {
      forall bound: nat ensures !Bounded(msg, stale, bound) {
        Flooded(msg, bound + 1);
        OnesAreSends(bound + 1);
        assert |Ones(bound + 1)| > bound;
      }
    } else {
      forall results, s | SendRun(msg, Start(stale), results, s) && ErrorFree(results) ensures |results| <= |msg| {
        if msg != [] {
          EachSendAdvances(msg, Start(stale), results, s);
        }
      }
      assert Bounded(msg, stale, |msg|);
    }
  }

  /** No error-free run is longer than `bound` sends. */
  ghost predicate Bounded(msg: seq<byte>, stale: bool, bound: nat) {
    forall results, s :: SendRun(msg, Start(stale), results, s) && ErrorFree(results) ==> |results| <= bound
  }

  lemma {:induction false} OnesAreSends(k: nat)
    ensures |Ones(k)| == k && ErrorFree(Ones(k))
  {
    if k == 0 {
    } else {
      OnesAreSends(k - 1);
    }
  }

  /** How many of the results are sends of one byte, and the bytes of the others. */
  function OneByte(results: seq<Result>): nat {
    if results == [] then 0 else (if results[0] == Sent(1) then 1 else 0) + OneByte(results[1..])
  }

  function LongerBytes(results: seq<Result>): nat {
    if results == [] then 0
    else (if results[0].Sent? && results[0].n != 1 then results[0].n else 0) + LongerBytes(results[1..])
  }

  /** With errno at EINTR the loop repeats exactly the sends of one byte and counts exactly the others; with a
      clean errno it counts them all. */
  lemma {:induction false} RepeatsExactly(msg: seq<byte>, s: Sender, results: seq<Result>, s': Sender)
    requires SendRun(msg, s, results, s') && ErrorFree(results) && s.alive
    ensures s'.repeats == s.repeats + (if s.stale then OneByte(results) else 0)
    ensures s'.bytesSent == s.bytesSent + LongerBytes(results) + (if s.stale then 0 else OneByte(results))
    decreases |results|
  {
    if results == [] {
    } else {
      assert results[0].Sent?;
      RepeatsExactly(msg, SendOnce(msg, s, results[0]), results[1..], s');
    }
  }

  ghost predicate Faithful(msg: seq<byte>, stale: bool, results: seq<Result>, s: Sender) {
    SendRun(msg, Start(stale), results, s) && Delivered(msg, s) ==> s.wire == msg
  }

  /** Partial correctness only: every loop that finishes has delivered the message exactly when errno is
      not left at EINTR, or the message is too short for a one-byte send to be followed by another. A
      one-byte message under a stale errno is in the second case because its loop never finishes. */
  lemma ExactlyWhenFaithful(msg: seq<byte>, stale: bool)
    ensures (forall results, s :: Faithful(msg, stale, results, s)) <==> !stale || |msg| <= 1
  {
    if stale && |msg| >= 2 {
      var results := [Sent(1), Sent(|msg|)];
      var s1 := SendOnce(msg, Start(stale), Sent(1));
      var s2 := SendOnce(msg, s1, Sent(|msg|));
      assert results[1..] == [Sent(|msg|)] && results[1..][1..] == [];
      assert SendRun(msg, s1, results[1..], s2);
      assert SendRun(msg, Start(stale), results, s2) && Delivered(msg, s2);
      assert |s2.wire| == |msg| + 1;
      assert !Faithful(msg, stale, results, s2);
    } else {
      forall results, s ensures Faithful(msg, stale, results, s) {
        if SendRun(msg, Start(stale), results, s) {
          RunOk(msg, stale, Start(stale), results, s);
          assert msg[..|msg|] == msg;
          if stale && |msg| == 1 { NeverFinishes(msg, Start(stale), results, s); }
        }
      }
    }
  }

  /** With errno at EINTR and one byte to go, no run of the loop ever finishes. */
  lemma {:induction false} NeverFinishes(msg: seq<byte>, s: Sender, results: seq<Result>, s': Sender)
    requires s.stale && s.alive && s.bytesSent + 1 == |msg| && SendRun(msg, s, results, s')
    ensures !Delivered(msg, s')
    decreases |results|
  {
    if results == [] {
    } else {
      var next := SendOnce(msg, s, results[0]);
      if next.alive { NeverFinishes(msg, next, results[1..], s'); } else { DeadStops(msg, next, results[1..], s'); }
    }
  }

  lemma DeadStops(msg: seq<byte>, s: Sender, results: seq<Result>, s': Sender)
    requires !s.alive && SendRun(msg, s, results, s')
    ensures results == [] && s' == s
  {
  }

  /** A real interruption makes `send` return -1, which the test does not catch: the handler exits. */
  lemma {:induction false} InterruptionKills(msg: seq<byte>, s: Sender, results: seq<Result>, s': Sender, k: nat)
    requires SendRun(msg, s, results, s') && k < |results| && results[k].Error?
    ensures !s'.alive && k == |results| - 1
    decreases |results|
  {
    var next := SendOnce(msg, s, results[0]);
    if k > 0 { InterruptionKills(msg, next, results[1..], s', k - 1); } else { DeadStops(msg, next, results[1..], s'); }
  }

  /** The loop itself, driven by the kernel's results while they last. */
  method SendLoop(msg: array<byte>, stale: bool, results: seq<Result>)
      returns (bytesSent: nat, alive: bool, wire: seq<byte>, used: nat)
    requires forall k :: 0 <= k < |results| && results[k].Sent? ==> 1 <= results[k].n
    ensures used <= |results| && bytesSent <= msg.Length
    ensures exists s ::
              && SendRun(msg[..], Start(stale), results[..used], s)
              && s.bytesSent == bytesSent && s.alive == alive && s.wire == wire
    ensures used < |results| && alive && bytesSent < msg.Length
      ==> results[used].Sent? && results[used].n > msg.Length - bytesSent
  {
    bytesSent, alive, wire, used := 0, true, [], 0;
    ghost var s := Start(stale);
    while alive && bytesSent < msg.Length && used < |results|
      invariant bytesSent <= msg.Length && used <= |results|
      invariant SendRun(msg[..], Start(stale), results[..used], s)
      invariant s.bytesSent == bytesSent && s.alive == alive && s.wire == wire && (alive ==> s.stale == stale)
      decreases |results| - used
    {
      var r := results[used];
      if r.Sent? && r.n > msg.Length - bytesSent { break; }
      RunSnoc(msg[..], Start(stale), results[..used], s, r);
      assert results[..used + 1] == results[..used] + [r];
      s := SendOnce(msg[..], s, r);
      match r {
        case Error(_) => alive := false;
        case Sent(n) =>
          wire := wire + msg[bytesSent..bytesSent + n];
          if !(n == 1 && stale) { bytesSent := bytesSent + n; }
      }
      used := used + 1;
    }
  }

  lemma {:induction false} RunSnoc(msg: seq<byte>, s: Sender, results: seq<Result>, s': Sender, r: Result)
    requires SendRun(msg, s, results, s') && Possible(msg, s', r)
    ensures SendRun(msg, s, results + [r], SendOnce(msg, s', r))
    decreases |results|
  {
    var all := results + [r];
    if results == [] {
      assert all[1..] == [];
    } else {
      assert all[0] == results[0] && all[1..] == results[1..] + [r];
      RunSnoc(msg, SendOnce(msg, s, results[0]), results[1..], s', r);
    }
  }

  // ---- where errno gets its value: the receive loop before each echo ----

  /** One `recv`: bytes (none of them is an end of file), an interruption, or another error. */
  datatype Arrival = Got(bytes: seq<byte>) | RecvInterrupted | RecvFailed

  /** The receive loop: still waiting, done with a message, or exited. */
  datatype Received = Pending | Message(msg: seq<byte>, stale: bool) | Exited

  function ReceiveLoop(stale: bool, calls: seq<Arrival>): Received
    decreases |calls|
  {
    if calls == [] then Pending
    else
      match calls[0]
      case Got(bytes) => if bytes == [] then Exited else Message(bytes, stale)
      case RecvInterrupted => ReceiveLoop(true, calls[1..])
      case RecvFailed => Exited
  }

  predicate Interrupted(calls: seq<Arrival>) { calls != [] && calls[0].RecvInterrupted? }

  /** The interruptions before anything else happens. */
  function Interruptions(calls: seq<Arrival>): (k: nat)
    ensures k <= |calls| && forall j :: 0 <= j < k ==> calls[j].RecvInterrupted?
    ensures k < |calls| ==> !calls[k].RecvInterrupted?
  {
    if calls == [] || !calls[0].RecvInterrupted? then 0 else 1 + Interruptions(calls[1..])
  }

  predicate Arrived(c: Arrival) { c.Got? && c.bytes != [] }

  /** The receive loop outlasts interruptions and gives all the bytes of the first other call; it exits when
      that call is an error or an end of file. */
  lemma {:induction false} ReceivedExactly(stale: bool, calls: seq<Arrival>)
    ensures var r, k := ReceiveLoop(stale, calls), Interruptions(calls);
      if k == |calls| then r.Pending?
      else if Arrived(calls[k]) then r.Message? && r.msg == calls[k].bytes
      else r.Exited?
    decreases |calls|
  {
    if calls == [] || !calls[0].RecvInterrupted? {
    } else {
      ReceivedExactly(true, calls[1..]);
    }
  }

  /** A loop that has received enters the next send loop with errno at EINTR exactly when errno was there
      before or its first call was interrupted. */
  lemma {:induction false} StaleExactly(stale: bool, calls: seq<Arrival>)
    ensures var r := ReceiveLoop(stale, calls); r.Message? ==> (r.stale <==> stale || Interrupted(calls))
    decreases |calls|
  {
    if calls == [] || !calls[0].RecvInterrupted? {
    } else {
      StaleExactly(true, calls[1..]);
    }
  }

  /** The quit command, which ends a conversation instead of being echoed. */
  const QUIT: seq<byte> := [81, 85, 73, 84]

  /** The send loop of each message of a conversation: what it has to send, and whether errno holds EINTR
      when it begins. The quit command or a receive that gives no message ends the conversation; sends that
      go well leave errno alone. */
  datatype Turn = Turn(msg: seq<byte>, stale: bool)

  function Conversation(stale: bool, receives: seq<seq<Arrival>>): (turns: seq<Turn>)
    ensures |turns| <= |receives|
    decreases |receives|
  {
    if receives == [] then []
    else
      var r := ReceiveLoop(stale, receives[0]);
      if r.Message? && r.msg != QUIT then [Turn(r.msg, r.stale)] + Conversation(r.stale, receives[1..]) else []
  }

  /** `msg` is all that a receive got. */
  predicate CarriedBy(msg: seq<byte>, calls: seq<Arrival>) {
    msg != [] && msg != QUIT && Interruptions(calls) < |calls| && calls[Interruptions(calls)] == Got(msg)
  }

  /** Turn `k` carries what the k-th receive got. */
  lemma {:induction false} TurnCarries(stale: bool, receives: seq<seq<Arrival>>, k: nat)
    requires k < |Conversation(stale, receives)|
    ensures CarriedBy(Conversation(stale, receives)[k].msg, receives[k])
    decreases |receives|
  {
    var r := ReceiveLoop(stale, receives[0]);
    ReceivedExactly(stale, receives[0]);
    if k == 0 {
    } else {
      TurnCarries(r.stale, receives[1..], k - 1);
    }
  }

  /** The conversation stops only at a receive that gets nothing, or the quit command. */
  lemma {:induction false} EveryArrivalHasItsTurn(stale: bool, receives: seq<seq<Arrival>>)
    ensures var n := |Conversation(stale, receives)|;
      n < |receives| ==>
        var k := Interruptions(receives[n]);
        k == |receives[n]| || !Arrived(receives[n][k]) || receives[n][k] == Got(QUIT)
    decreases |receives|
  {
    if receives == [] {
    } else {
      var r := ReceiveLoop(stale, receives[0]);
      ReceivedExactly(stale, receives[0]);
      if r.Message? && r.msg != QUIT { EveryArrivalHasItsTurn(r.stale, receives[1..]); }
    }
  }

  /** Some receive of the first `k` was interrupted. */
  predicate AnyInterrupted(receives: seq<seq<Arrival>>, k: nat)
    requires k <= |receives|
  {
    exists j :: 0 <= j < k && Interrupted(receives[j])
  }

  lemma {:induction false} ErrnoOfTurn(stale: bool, receives: seq<seq<Arrival>>, k: nat)
    requires k < |Conversation(stale, receives)|
    ensures var turn := Conversation(stale, receives)[k];
      turn.stale <==> stale || AnyInterrupted(receives, k + 1)
    decreases |receives|
  {
    var r := ReceiveLoop(stale, receives[0]);
    StaleExactly(stale, receives[0]);
    if k == 0 {
      assert Interrupted(receives[0]) ==> AnyInterrupted(receives, 1);
    } else {
      ErrnoOfTurn(r.stale, receives[1..], k - 1);
      FirstOrLater(receives, k + 1);
    }
  }

  lemma FirstOrLater(receives: seq<seq<Arrival>>, k: nat)
    requires 1 <= k <= |receives|
    ensures AnyInterrupted(receives, k) <==> Interrupted(receives[0]) || AnyInterrupted(receives[1..], k - 1)
  {
    if j :| 0 <= j < k && Interrupted(receives[j]) {
      if j > 0 { assert Interrupted(receives[1..][j - 1]); }
    }
    if j :| 0 <= j < k - 1 && Interrupted(receives[1..][j]) { assert Interrupted(receives[j + 1]); }
  }

  /** In a conversation that begins with a clean errno, the peer is only ever sent a prefix of the k-th
      message exactly when no receive up to it was interrupted: one interrupted `recv` spoils that message
      and every later one. */
  lemma EchoExactly(receives: seq<seq<Arrival>>, k: nat)
    requires k < |Conversation(false, receives)|
    ensures var turn := Conversation(false, receives)[k];
      && CarriedBy(turn.msg, receives[k])
      && (AlwaysPrefix(turn.msg, turn.stale) <==> !AnyInterrupted(receives, k + 1))
  {
    TurnCarries(false, receives, k);
    ErrnoOfTurn(false, receives, k);
    var turn := Conversation(false, receives)[k];
    PrefixExactly(turn.msg, turn.stale);
  }
}
