/** How a chat ends: the stop flag reaches the other side, and then both sides wind down. */
module ChatShutdown {
  import opened Bytes
  import opened Chat

  // ---- why an endpoint stops ----

  predicate SentBye(e: End) { 1 <= e.full <= |e.lines| && e.lines[e.full - 1] == BYE }

  /** Threads leave only once `stop` is set; `stop` is set for a reason; a receiver that has just begun
      a line has something to read. */
  ghost predicate Reasons(e: End, peer: End) {
    && (e.snd.SExit? || e.rcv.RExit? ==> e.stop)
    && (e.stop ==> SentBye(e) || e.sawBye || Closed(peer))
    && (e.rcv == RRecv("") ==> e.got < |peer.wire| || Closed(peer))
  }

  ghost predicate Both(s: Session) {
    ChatInv(s) && Reasons(s.a, s.b) && Reasons(s.b, s.a)
  }

  lemma SendReasons(e: End, peer: End, n: nat)
    requires SendOk(e) && Reasons(e, peer) && Reasons(peer, e) && Send(e, n).Some?
    ensures Reasons(Send(e, n).value, peer) && Reasons(peer, Send(e, n).value)
  {
    var e' := Send(e, n).value;
    SendKeeps(e, n);
    SendLeavesReceiving(e, n);
    assert SentBye(e) ==> SentBye(e') by {
      if SentBye(e) { assert e.snd.SAfter? || e.snd.STest? || e.snd.SExit?; }
    }
  }

  lemma ReceiveReasons(e: End, peer: End, ready: bool)
    requires Reasons(e, peer) && Reasons(peer, e) && Receive(e, peer, ready).Some?
    ensures Reasons(Receive(e, peer, ready).value, peer) && Reasons(peer, Receive(e, peer, ready).value)
  {
    ReceiveLeavesSending(e, peer, ready);
  }

  lemma StepBoth(s: Session, ev: Event)
    requires Both(s) && ChatStep(s, ev).Some?
    ensures Both(ChatStep(s, ev).value)
  {
    StepInv(s, ev);
    match ev {
      case SendA(n) => SendReasons(s.a, s.b, n);
      case SendB(n) => SendReasons(s.b, s.a, n);
      case ReceiveA(r) => ReceiveReasons(s.a, s.b, r);
      case ReceiveB(r) => ReceiveReasons(s.b, s.a, r);
    }
  }

  lemma {:induction false} RunBoth(s: Session, run: seq<Event>)
    requires Both(s) && ChatExec(s, run).Some?
    ensures Both(ChatExec(s, run).value)
    decreases |run|
  {
    if run == [] {
    } else {
      StepBoth(s, run[0]);
      RunBoth(ChatStep(s, run[0]).value, run[1..]);
    }
  }

  /** The stop is on its way to `peer`: it has just sent its own BYE, or has a BYE in hand, or has bytes
      left to read and a receiver to read them. */
  predicate StopUnderWay(e: End, peer: End) {
    || peer.stop
    || (peer.snd.SAfter? && SentBye(peer))
    || (!peer.rcv.RExit? && (peer.rcv.RLine? || peer.got < |e.wire|))
  }

  /** An endpoint never stops alone. */
  lemma StopSpreads(e: End, peer: End)
    requires Half(e, peer) && Half(peer, e) && Reasons(e, peer) && Reasons(peer, e) && e.stop
    ensures StopUnderWay(e, peer)
  {
    if peer.stop || Closed(peer) {
    } else if e.sawBye {
      HeardWhatWasSent(peer, e);
    } else {
      LastLineUnread(e, peer);
    }
  }

  lemma LastLineUnread(e: End, peer: End)
    requires SendOk(e) && Half(peer, e) && Reasons(peer, e) && SentBye(e) && !peer.stop
    ensures peer.rcv.RLine? || peer.got < |e.wire|
  {
    HeardWhatWasSent(e, peer);
    var h := peer.heard;
    FlatNext(e.lines, h);
    assert e.lines[..e.full][..h + 1] == e.lines[..h + 1];
    FlatPrefix(e.lines[..e.full], h + 1);
  }

  // ---- the stop arrives ----

  /** One endpoint's view of the session: its own end, and the peer's. */
  function Mine(s: Session, first: bool): End { if first then s.a else s.b }

  predicate SendsAs(ev: Event, first: bool) { if first then ev.SendA? else ev.SendB? }
  predicate ReceivesAs(ev: Event, first: bool) { if first then ev.ReceiveA? else ev.ReceiveB? }

  /** The receiver of that end goes on with what has arrived: any change but the polling at the top. */
  predicate Reads(s: Session, ev: Event, first: bool) {
    && ReceivesAs(ev, first) && ChatStep(s, ev).Some?
    && var rcv, rcv' := Mine(s, first).rcv, Mine(ChatStep(s, ev).value, first).rcv;
    && rcv' != rcv && !rcv.RTest? && !(rcv.RSelect? && rcv'.RTest?)
  }

  function ReadSteps(s: Session, run: seq<Event>, first: bool): nat
    decreases |run|
  {
    if run == [] || ChatStep(s, run[0]).None? then 0
    else (if Reads(s, run[0], first) then 1 else 0) + ReadSteps(ChatStep(s, run[0]).value, run[1..], first)
  }

  /** All the bytes an endpoint that has stopped will ever have sent: the line in hand is the last. */
  function LastByte(e: End): nat {
    |e.wire| + match e.snd
               case SSend(k) =>
                 if 1 <= e.next <= |e.lines| && k <= |e.lines[e.next - 1]| then |e.lines[e.next - 1]| - k else 0
               case _ => 0
  }

  /** What is left for `peer` to read of `e`: three steps a byte, and the place within them. */
  function ReadRest(e: End, peer: End): int {
    3 * (LastByte(e) - peer.got) +
    match peer.rcv
    case RTest => 1
    case RSelect => 1
    case RRecv(_) => 0
    case RLine(_) => 2
    case RExit => 0
  }

  lemma SendKeepsLast(e: End, n: nat)
    requires WireOk(e) && e.stop && Send(e, n).Some?
    ensures LastByte(Send(e, n).value) == LastByte(e) && Send(e, n).value.stop
  {
  }

  lemma PeerSendKeepsRest(e: End, peer: End, n: nat)
    requires Send(peer, n).Some?
    ensures ReadRest(e, Send(peer, n).value) == ReadRest(e, peer)
  {
    SendLeavesReceiving(peer, n);
  }

  lemma OwnReceiveKeepsRest(e: End, peer: End, ready: bool)
    requires Receive(e, peer, ready).Some? && e.stop
    ensures ReadRest(Receive(e, peer, ready).value, peer) == ReadRest(e, peer) && Receive(e, peer, ready).value.stop
  {
    ReceiveLeavesSending(e, peer, ready);
  }

  lemma ReceiveUsesRest(e: End, peer: End, ready: bool)
    requires Receive(peer, e, ready).Some? && !Receive(peer, e, ready).value.stop
    ensures var rcv, rcv' := peer.rcv, Receive(peer, e, ready).value.rcv;
      ReadRest(e, Receive(peer, e, ready).value)
        + (if rcv' != rcv && !rcv.RTest? && !(rcv.RSelect? && rcv'.RTest?) then 1 else 0) <= ReadRest(e, peer)
  {
  }

  lemma StepUsesRest(s: Session, ev: Event, first: bool)
    requires ChatInv(s) && Mine(s, first).stop && ChatStep(s, ev).Some?
    requires !Mine(ChatStep(s, ev).value, !first).stop
    ensures var s' := ChatStep(s, ev).value;
      && Mine(s', first).stop
      && ReadRest(Mine(s', first), Mine(s', !first)) + (if Reads(s, ev, !first) then 1 else 0)
         <= ReadRest(Mine(s, first), Mine(s, !first))
  {
    var e, peer := Mine(s, first), Mine(s, !first);
    if SendsAs(ev, first) {
      SendKeepsLast(e, ev.n);
      SendLeavesReceiving(e, ev.n);
    } else if SendsAs(ev, !first) {
      PeerSendKeepsRest(e, peer, ev.n);
    } else if ReceivesAs(ev, first) {
      OwnReceiveKeepsRest(e, peer, ev.ready);
    } else {
      ReceiveUsesRest(e, peer, ev.ready);
    }
  }

  lemma StopStays(s: Session, ev: Event, first: bool)
    requires ChatStep(s, ev).Some? && Mine(s, first).stop
    ensures Mine(ChatStep(s, ev).value, first).stop
  {
  }

  lemma {:induction false} RunUsesRest(s: Session, run: seq<Event>, first: bool)
    requires ChatInv(s) && Mine(s, first).stop && ChatExec(s, run).Some?
    ensures var s' := ChatExec(s, run).value;
      && Mine(s', first).stop
      && (Mine(s, !first).stop ==> Mine(s', !first).stop)
      && (!Mine(s', !first).stop ==>
            ReadRest(Mine(s', first), Mine(s', !first)) + ReadSteps(s, run, !first)
              <= ReadRest(Mine(s, first), Mine(s, !first)))
    decreases |run|
  {
    if run == [] {
    } else {
      var s1 := ChatStep(s, run[0]).value;
      StopStays(s, run[0], first);
      StepInv(s, run[0]);
      RunUsesRest(s1, run[1..], first);
      if Mine(s, !first).stop { StopStays(s, run[0], !first); }
      if !Mine(s1, !first).stop { StepUsesRest(s, run[0], first); }
    }
  }

  /** The peer's sender is about to set the flag, or its receiver can read on, unless it is at the top of its
      loop and about to wait for input, of which there is some. */
  predicate CanGoOn(s: Session, first: bool) {
    var e, peer := Mine(s, first), Mine(s, !first);
    || (peer.snd.SAfter? && SentBye(peer))
    || (peer.rcv.RTest? && peer.got < |e.wire|)
    || Reads(s, if first then ReceiveB(true) else ReceiveA(true), !first)
  }

  lemma GoesOn(s: Session, first: bool)
    requires Both(s) && Mine(s, first).stop && !Mine(s, !first).stop
    ensures CanGoOn(s, first)
  {
    StopSpreads(Mine(s, first), Mine(s, !first));
  }

  lemma LastByteBound(e: End)
    requires WireOk(e)
    ensures LastByte(e) < |e.wire| + BUFFER_SIZE
  {
    if e.snd.SSend? { assert IsLine(e.lines[e.full]); }
  }

  /** In every run, from any moment at which one endpoint has stopped: the receiver of the other takes fewer
      than 3 * (bytes unread + BUFFER_SIZE) + 3 steps before its own flag is set, and until then it can go on
      or its sender is about to set the flag. */
  lemma StopArrives(linesA: seq<string>, linesB: seq<string>, before: seq<Event>, after: seq<Event>, first: bool)
    requires forall j :: 0 <= j < |linesA| ==> IsLine(linesA[j])
    requires forall j :: 0 <= j < |linesB| ==> IsLine(linesB[j])
    requires ChatExec(Session(InitEnd(linesA), InitEnd(linesB)), before).Some?
    requires ChatExec(ChatExec(Session(InitEnd(linesA), InitEnd(linesB)), before).value, after).Some?
    requires Mine(ChatExec(Session(InitEnd(linesA), InitEnd(linesB)), before).value, first).stop
    ensures var s := ChatExec(Session(InitEnd(linesA), InitEnd(linesB)), before).value;
      var s' := ChatExec(s, after).value;
      || Mine(s', !first).stop
      || (&& ReadSteps(s, after, !first) < 3 * (|Mine(s, first).wire| - Mine(s, !first).got + BUFFER_SIZE) + 3
          && CanGoOn(s', first))
  {
    var s0 := Session(InitEnd(linesA), InitEnd(linesB));
    RunBoth(s0, before);
    StopArrivesFrom(ChatExec(s0, before).value, after, first);
  }

  lemma StopArrivesFrom(s: Session, after: seq<Event>, first: bool)
    requires Both(s) && Mine(s, first).stop && ChatExec(s, after).Some?
    ensures var s' := ChatExec(s, after).value;
      || Mine(s', !first).stop
      || (&& ReadSteps(s, after, !first) < 3 * (|Mine(s, first).wire| - Mine(s, !first).got + BUFFER_SIZE) + 3
          && CanGoOn(s', first))
  {
    RunBoth(s, after);
    RunUsesRest(s, after, first);
    var s' := ChatExec(s, after).value;
    if !Mine(s', !first).stop {
      LastByteBound(Mine(s, first));
      RestIsLeft(s', first);
      GoesOn(s', first);
    }
  }

  lemma RestIsLeft(s: Session, first: bool)
    requires ChatInv(s)
    ensures ReadRest(Mine(s, first), Mine(s, !first)) >= 0
  {
    assert Mine(s, !first).got <= |Mine(s, first).wire|;
  }

  // ---- nothing much is sent after a stop ----

  lemma StepAfterStop(s: Session, ev: Event, first: bool)
    requires ChatInv(s) && Mine(s, first).stop && ChatStep(s, ev).Some?
    ensures var e, e' := Mine(s, first), Mine(ChatStep(s, ev).value, first);
      && e'.stop && LastByte(e') == LastByte(e) && e.wire <= e'.wire && e'.full <= e.full + 1
      && (!e.snd.SSend? ==> e'.full == e.full && !e'.snd.SSend?)
      && (e'.full > e.full ==> !e'.snd.SSend?)
  {
    var e, peer := Mine(s, first), Mine(s, !first);
    if SendsAs(ev, first) {
      SendAfterStop(e, ev.n);
    } else if ReceivesAs(ev, first) {
      ReceiveLeavesSending(e, peer, ev.ready);
    }
  }

  lemma SendAfterStop(e: End, n: nat)
    requires WireOk(e) && e.stop && Send(e, n).Some?
    ensures var e' := Send(e, n).value;
      && e'.stop && LastByte(e') == LastByte(e) && e.wire <= e'.wire && e'.full <= e.full + 1
      && (!e.snd.SSend? ==> e'.full == e.full && !e'.snd.SSend?)
      && (e'.full > e.full ==> !e'.snd.SSend?)
  {
    SendKeepsLast(e, n);
  }

  /** From any moment at which an endpoint has stopped, the whole rest of the run completes at most the line it was
      sending, and puts nothing else on its wire. */
  lemma {:induction false} AtMostOneMoreLine(s: Session, run: seq<Event>, first: bool)
    requires ChatInv(s) && Mine(s, first).stop && ChatExec(s, run).Some?
    ensures var e, e' := Mine(s, first), Mine(ChatExec(s, run).value, first);
      && e.wire <= e'.wire && |e'.wire| <= LastByte(e)
      && e'.full <= e.full + (if e.snd.SSend? then 1 else 0)
    decreases |run|
  {
    if run == [] {
    } else {
      StepAfterStop(s, run[0], first);
      StepInv(s, run[0]);
      AtMostOneMoreLine(ChatStep(s, run[0]).value, run[1..], first);
    }
  }

  /** The send loop goes on from any number of bytes `send` may take, an interruption being none; the bytes are the
      next ones of the line. */
  lemma AnySendGoesOn(e: End, n: nat)
    requires WireOk(e) && e.snd.SSend?
    ensures var l, k := e.lines[e.full], e.snd.k;
      && (Send(e, n).Some? <==> k + n <= |l|)
      && (k + n <= |l| ==> Send(e, n).value.wire == e.wire + l[k..k + n])
  {
    var l, k := e.lines[e.full], e.snd.k;
    if k + n == |l| { assert l[k..] == l[k..k + n]; }
  }

  // ---- winding down ----

  predicate Changes(s: Session, ev: Event) { ChatStep(s, ev).Some? && ChatStep(s, ev).value != s }

  /** Steps each thread has left once `stop` is set. */
  function SendRest(e: End): nat {
    match e.snd
    case STest => 1
    case SRead => 2
    case SRetest => 1
    case SSend(k) => if 1 <= e.next <= |e.lines| && k <= |e.lines[e.next - 1]| then 2 + |e.lines[e.next - 1]| - k else 0
    case SAfter => 2
    case SExit => 0
  }

  function ReceiveRest(e: End): nat {
    match e.rcv
    case RTest => 1
    case RSelect => 3 + BUFFER_SIZE
    case RRecv(buf) => if |buf| <= BUFFER_SIZE then 2 + BUFFER_SIZE - |buf| else 0
    case RLine(_) => 2
    case RExit => 0
  }

  function Rest(s: Session): nat { SendRest(s.a) + ReceiveRest(s.a) + SendRest(s.b) + ReceiveRest(s.b) }

  lemma SendWinds(e: End, n: nat)
    requires WireOk(e) && e.stop && Send(e, n).Some?
    ensures var e' := Send(e, n).value;
      e'.stop && ReceiveRest(e') == ReceiveRest(e) && (e' == e || SendRest(e') < SendRest(e))
  {
    if e.snd.SSend? {
      var l, k := e.lines[e.next - 1], e.snd.k;
      if n == 0 { assert l[k..k] == "" && e.wire + "" == e.wire; }
    }
  }

  lemma ReceiveWinds(e: End, peer: End, ready: bool)
    requires ReceiveOk(e, peer.lines) && WireOk(peer) && e.stop && Receive(e, peer, ready).Some?
    ensures var e' := Receive(e, peer, ready).value;
      e'.stop && SendRest(e') == SendRest(e) && (e' == e || ReceiveRest(e') < ReceiveRest(e))
  {
    if e.rcv.RRecv? { assert |e.rcv.buf| < BUFFER_SIZE by { LineNotFull(e, peer); } }
  }

  lemma LineNotFull(e: End, peer: End)
    requires ReceiveOk(e, peer.lines) && WireOk(peer) && e.rcv.RRecv?
    ensures |e.rcv.buf| < BUFFER_SIZE
  {
    if |e.rcv.buf| > 0 { assert IsLine(peer.lines[e.heard]); }
  }

  /** With both flags set, every step that changes anything uses up what is left. */
  lemma StepWinds(s: Session, ev: Event)
    requires ChatInv(s) && s.a.stop && s.b.stop && Changes(s, ev)
    ensures var s' := ChatStep(s, ev).value; s'.a.stop && s'.b.stop && Rest(s') < Rest(s)
  {
    match ev {
      case SendA(n) => SendWinds(s.a, n);
      case SendB(n) => SendWinds(s.b, n);
      case ReceiveA(r) => ReceiveWinds(s.a, s.b, r);
      case ReceiveB(r) => ReceiveWinds(s.b, s.a, r);
    }
  }

  /** The sender is gone, or waits for its user. */
  predicate SenderRests(e: End) { e.snd.SExit? || (e.snd.SRead? && e.next == |e.lines|) }

  lemma SenderCanStep(e: End) returns (n: nat)
    requires WireOk(e) && !SenderRests(e)
    ensures Send(e, n).Some? && Send(e, n).value != e
  {
    n := if e.snd.SSend? then |e.lines[e.full]| - e.snd.k else 0;
  }

  /** A receiver in the middle of a line has more of it to read, or a peer still sending it. */
  lemma ReceiverCanStep(e: End, peer: End) returns (ready: bool)
    requires Half(e, peer) && SendOk(peer) && Reasons(e, peer) && !e.rcv.RExit? && SenderRests(peer)
    ensures Receive(e, peer, ready).Some? && Receive(e, peer, ready).value != e
  {
    ready := e.rcv.RRecv?;
    if e.rcv.RRecv? && e.got == |peer.wire| && !Closed(peer) {
      MidLine(e, peer);
    }
  }

  lemma MidLine(e: End, peer: End)
    requires Half(e, peer) && SendOk(peer) && e.rcv.RRecv? && |e.rcv.buf| > 0 && e.got == |peer.wire|
    ensures peer.snd.SSend?
  {
    HeardWhatWasSent(peer, e);
    var h := e.heard;
    if h < peer.full {
      FlatNext(peer.lines, h);
      assert peer.lines[..peer.full][..h + 1] == peer.lines[..h + 1];
      FlatPrefix(peer.lines[..peer.full], h + 1);
    }
  }

  /** Both receivers are gone and each sender is gone or waits for its user. */
  predicate Ended(s: Session) {
    s.a.rcv.RExit? && s.b.rcv.RExit? && SenderRests(s.a) && SenderRests(s.b)
  }

  lemma EndedOrMoves(s: Session)
    requires Both(s) && !Ended(s)
    ensures exists ev :: Changes(s, ev)
  {
    if !SenderRests(s.a) {
      var n := SenderCanStep(s.a);
      assert Changes(s, SendA(n));
    } else if !SenderRests(s.b) {
      var n := SenderCanStep(s.b);
      assert Changes(s, SendB(n));
    } else if !s.a.rcv.RExit? {
      var r := ReceiverCanStep(s.a, s.b);
      assert Changes(s, ReceiveA(r));
    } else {
      var r := ReceiverCanStep(s.b, s.a);
      assert Changes(s, ReceiveB(r));
    }
  }

  function ChangingSteps(s: Session, run: seq<Event>): nat
    decreases |run|
  {
    if run == [] || ChatStep(s, run[0]).None? then 0
    else (if Changes(s, run[0]) then 1 else 0) + ChangingSteps(ChatStep(s, run[0]).value, run[1..])
  }

  lemma {:induction false} RunWinds(s: Session, run: seq<Event>)
    requires ChatInv(s) && s.a.stop && s.b.stop && ChatExec(s, run).Some?
    ensures ChangingSteps(s, run) + Rest(ChatExec(s, run).value) <= Rest(s)
    decreases |run|
  {
    if run == [] {
    } else {
      if Changes(s, run[0]) { StepWinds(s, run[0]); }
      StepInv(s, run[0]);
      RunWinds(ChatStep(s, run[0]).value, run[1..]);
    }
  }

  lemma RestBound(e: End)
    requires WireOk(e)
    ensures SendRest(e) + ReceiveRest(e) <= 2 * BUFFER_SIZE + 5
  {
    if e.snd.SSend? { assert IsLine(e.lines[e.full]); }
  }

  /** In every run: the receiver facing an endpoint that has stopped takes a bounded number of steps before its
      own flag is set, and until then the stop is under way; once both have stopped, at most
      4 * BUFFER_SIZE + 10 steps change anything, after which both receivers are gone and each sender is gone or
      waits for its user. */
  lemma ChatEnds(linesA: seq<string>, linesB: seq<string>, before: seq<Event>, after: seq<Event>)
    requires forall j :: 0 <= j < |linesA| ==> IsLine(linesA[j])
    requires forall j :: 0 <= j < |linesB| ==> IsLine(linesB[j])
    requires ChatExec(Session(InitEnd(linesA), InitEnd(linesB)), before).Some?
    requires ChatExec(ChatExec(Session(InitEnd(linesA), InitEnd(linesB)), before).value, after).Some?
    ensures var s := ChatExec(Session(InitEnd(linesA), InitEnd(linesB)), before).value;
      var s' := ChatExec(s, after).value;
      && (s.a.stop ==> StopUnderWay(s.a, s.b)) && (s.b.stop ==> StopUnderWay(s.b, s.a))
      && (s.a.stop && !s'.b.stop ==> ReadSteps(s, after, false) < 3 * (|s.a.wire| - s.b.got + BUFFER_SIZE) + 3)
      && (s.b.stop && !s'.a.stop ==> ReadSteps(s, after, true) < 3 * (|s.b.wire| - s.a.got + BUFFER_SIZE) + 3)
      && (s.a.stop && s.b.stop ==> ChangingSteps(s, after) <= 4 * BUFFER_SIZE + 10)
      && (Ended(s') || exists ev :: Changes(s', ev))
  {
    var s0 := Session(InitEnd(linesA), InitEnd(linesB));
    RunBoth(s0, before);
    var s := ChatExec(s0, before).value;
    RunBoth(s, after);
    if s.a.stop {
      StopSpreads(s.a, s.b);
      StopArrives(linesA, linesB, before, after, true);
    }
    if s.b.stop {
      StopSpreads(s.b, s.a);
      StopArrives(linesA, linesB, before, after, false);
    }
    if s.a.stop && s.b.stop { RunWinds(s, after); RestBound(s.a); RestBound(s.b); }
    if !Ended(ChatExec(s, after).value) { EndedOrMoves(ChatExec(s, after).value); }
  }
}
