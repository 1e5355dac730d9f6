/** The two-way chat: each endpoint has a sending and a receiving thread sharing `shouldStop`. */
module Chat {
  import opened Sums
  import opened Bytes

  const BUFFER_SIZE: nat := 1024
  const BYE: string := "BYE\n"

  /** A line `fgets` delivers whole: newline-terminated, no other newline, no NUL, and within the buffer. */
  predicate IsLine(l: string) {
    && 1 <= |l| < BUFFER_SIZE && l[|l| - 1] == '\n'
    && forall k :: 0 <= k < |l| - 1 ==> l[k] != '\n' && l[k] != '\0'
  }

  datatype Sending =
    | STest              // at while (!shouldStop)
    | SRead              // blocked in fgets
    | SRetest            // line read, about to test shouldStop again
    | SSend(k: nat)      // k bytes of the line sent
    | SAfter             // line sent, about to compare it with BYE
    | SExit

  datatype Receiving =
    | RTest              // at while (!shouldStop)
    | RSelect            // in select
    | RRecv(buf: string) // reading the line byte by byte
    | RLine(buf: string) // newline read, about to handle the line
    | RExit

  /** `lines` is what the user types; `wire` all bytes sent so far; `got` the bytes consumed from the
      peer's wire. `full`, `heard`, `sawBye` and `late` are histories: lines completely sent, lines
      handled, whether one of them was BYE, and lines completed after shouldStop was set. */
  datatype End = End(stop: bool, lines: seq<string>, next: nat, snd: Sending, rcv: Receiving, wire: string, got: nat,
                     printed: seq<string>, full: nat, heard: nat, sawBye: bool, late: nat)

  function InitEnd(lines: seq<string>): End {
    End(false, lines, 0, STest, RTest, "", 0, [], 0, 0, false, 0)
  }

  predicate Closed(e: End) { e.snd.SExit? && e.rcv.RExit? }

  /** One step of the sending thread; `n` is what `send` takes, 0 standing for an interruption. */
  function Send(e: End, n: nat): Option<End> {
    match e.snd
    case STest => Some(e.(snd := if e.stop then SExit else SRead))
    case SRead => if e.next < |e.lines| then Some(e.(snd := SRetest, next := e.next + 1)) else None
    case SRetest => Some(e.(snd := if e.stop then SExit else SSend(0)))
    case SSend(k) =>
      if !(1 <= e.next <= |e.lines|) then None
      else
        var l := e.lines[e.next - 1];
        if k + n > |l| then None
        else if k + n < |l| then Some(e.(snd := SSend(k + n), wire := e.wire + l[k..k + n]))
        else Some(e.(snd := SAfter, wire := e.wire + l[k..], full := e.full + 1,
            late := e.late + (if e.stop then 1 else 0)))
    case SAfter =>
      if !(1 <= e.next <= |e.lines|) then None
      else Some(e.(snd := STest, stop := e.stop || e.lines[e.next - 1] == BYE))
    case SExit => None
  }

  /** One step of the receiving thread; `ready` is false for a timeout or an interruption. */
  function Receive(e: End, peer: End, ready: bool): Option<End> {
    match e.rcv
    case RTest => Some(e.(rcv := if e.stop then RExit else RSelect))
    case RSelect =>
      if !ready then Some(e.(rcv := RTest))
      else if e.got < |peer.wire| || Closed(peer) then Some(e.(rcv := RRecv("")))
      else None
    case RRecv(buf) =>
      if !ready then Some(e)
      else if e.got < |peer.wire| then
        var b := peer.wire[e.got];
        Some(e.(got := e.got + 1, rcv := if b == '\n' then RLine(buf + [b]) else RRecv(buf + [b])))
      else if Closed(peer) then Some(e.(stop := true, rcv := RExit))
      else None
    case RLine(buf) =>
      if buf == BYE then Some(e.(stop := true, rcv := RTest, heard := e.heard + 1, sawBye := true))
      else Some(e.(rcv := RTest, heard := e.heard + 1, printed := e.printed + [buf]))
    case RExit => None
  }

  datatype Session = Session(a: End, b: End)

  datatype Event = SendA(n: nat) | SendB(n: nat) | ReceiveA(ready: bool) | ReceiveB(ready: bool)

  function ChatStep(s: Session, ev: Event): Option<Session> {
    match ev
    case SendA(n) => var e := Send(s.a, n); if e.None? then None else Some(s.(a := e.value))
    case SendB(n) => var e := Send(s.b, n); if e.None? then None else Some(s.(b := e.value))
    case ReceiveA(r) => var e := Receive(s.a, s.b, r); if e.None? then None else Some(s.(a := e.value))
    case ReceiveB(r) => var e := Receive(s.b, s.a, r); if e.None? then None else Some(s.(b := e.value))
  }

  function ChatExec(s: Session, run: seq<Event>): Option<Session>
    decreases |run|
  {
    if run == [] then Some(s)
    else
      var r := ChatStep(s, run[0]);
      if r.None? then None else ChatExec(r.value, run[1..])
  }

  // ---- the sending half ----

  /** The wire carries the complete lines and the sent part of the current one. */
  ghost predicate WireOk(e: End) {
    && (forall j :: 0 <= j < |e.lines| ==> IsLine(e.lines[j]))
    && e.full <= e.next <= e.full + 1 && e.next <= |e.lines|
    && (match e.snd
        case STest => e.next == e.full
        case SRead => e.next == e.full
        case SAfter => e.next == e.full >= 1
        case SRetest => e.next == e.full + 1
        case SSend(k) => e.next == e.full + 1 && k < |e.lines[e.full]|
        case SExit => true)
    && e.wire == Flat(e.lines[..e.full]) + (if e.snd.SSend? then e.lines[e.full][..e.snd.k] else "")
  }

  /** BYE is the last line sent, and at most one line is completed after shouldStop is set. */
  ghost predicate StopOk(e: End)
    requires WireOk(e)
  {
    && (forall j :: 0 <= j < e.full - 1 ==> e.lines[j] != BYE)
    && (e.full >= 1 && e.lines[e.full - 1] == BYE ==> e.snd.SAfter? || (e.stop && (e.snd.STest? || e.snd.SExit?)))
    && e.late <= 1 && (!e.stop ==> e.late == 0) && (e.late == 1 ==> e.snd.SAfter? || e.snd.STest? || e.snd.SExit?)
  }

  ghost predicate SendOk(e: End) { WireOk(e) && StopOk(e) }

  lemma PartKeepsWire(e: End, n: nat)
    requires WireOk(e) && e.snd.SSend? && Send(e, n).Some?
    ensures WireOk(Send(e, n).value)
  {
    var l, k := e.lines[e.full], e.snd.k;
    OneMoreWrite(Flat(e.lines[..e.full]), l, k, n);
    if k + n == |l| { FlatNext(e.lines, e.full); }
  }

  lemma SendKeepsWire(e: End, n: nat)
    requires WireOk(e) && Send(e, n).Some?
    ensures WireOk(Send(e, n).value)
  {
    if e.snd.SSend? { PartKeepsWire(e, n); }
  }

  lemma SendKeeps(e: End, n: nat)
    requires SendOk(e) && Send(e, n).Some?
    ensures SendOk(Send(e, n).value) && e.wire <= Send(e, n).value.wire && Send(e, n).value.lines == e.lines
  {
    SendKeepsWire(e, n);
    SendKeepsStop(e, n);
  }

  lemma SendKeepsStop(e: End, n: nat)
    requires SendOk(e) && Send(e, n).Some? && WireOk(Send(e, n).value)
    ensures StopOk(Send(e, n).value)
  {
    if e.snd.SSend? { PartKeepsStop(e, n); }
  }

  lemma PartKeepsStop(e: End, n: nat)
    requires SendOk(e) && e.snd.SSend? && Send(e, n).Some? && WireOk(Send(e, n).value)
    ensures StopOk(Send(e, n).value)
  {
    assert e.full >= 1 ==> e.lines[e.full - 1] != BYE;
    assert e.late == 0;
  }

  // ---- the receiving half, against the lines of the peer ----

  ghost predicate ReceiveOk(e: End, lines: seq<string>) {
    && e.heard <= |lines|
    && (match e.rcv
        case RRecv(buf) => e.got == |Flat(lines[..e.heard])| + |buf|
            && (|buf| > 0 ==> Within(lines, e.heard, buf, false))
        case RLine(buf) => e.got == |Flat(lines[..e.heard])| + |buf| && Within(lines, e.heard, buf, true)
        case RExit => e.got >= |Flat(lines[..e.heard])|
        case _ => e.got == |Flat(lines[..e.heard])|)
    && e.printed <= lines
    && e.heard == |e.printed| + (if e.sawBye then 1 else 0)
    && (forall j :: 0 <= j < |e.printed| ==> e.printed[j] != BYE)
    && (e.sawBye ==> e.heard >= 1 && lines[e.heard - 1] == BYE && e.stop && (e.rcv.RTest? || e.rcv.RExit?))
  }

  /** `buf` is the read part of line `h`: all of it, or a proper part. */
  predicate Within(lines: seq<string>, h: nat, buf: string, whole: bool) {
    h < |lines| && buf <= lines[h] && (whole <==> buf == lines[h])
  }

  lemma WirePrefix(e: End)
    requires WireOk(e)
    ensures e.wire <= Flat(e.lines)
  {
    FlatPrefix(e.lines, e.full);
    if e.snd.SSend? {
      FlatNext(e.lines, e.full);
      FlatPrefix(e.lines, e.full + 1);
    }
  }

  /** Framing: the next byte on the wire is the next byte of the line being read. */
  lemma NextByte(e: End, peer: End)
    requires WireOk(peer) && ReceiveOk(e, peer.lines) && e.rcv.RRecv? && e.got < |peer.wire|
    ensures e.heard < |peer.lines| && |e.rcv.buf| < |peer.lines[e.heard]|
    ensures peer.wire[e.got] == peer.lines[e.heard][|e.rcv.buf|]
  {
    var lines, h := peer.lines, e.heard;
    WirePrefix(peer);
    assert lines[..|lines|] == lines;
    assert IsLine(lines[h]);
    FlatAt(lines, h, |e.rcv.buf|);
  }

  lemma ByteKeeps(e: End, peer: End)
    requires WireOk(peer) && ReceiveOk(e, peer.lines) && e.rcv.RRecv? && e.got < |peer.wire|
    ensures ReceiveOk(Receive(e, peer, true).value, peer.lines)
  {
    NextByte(e, peer);
    assert IsLine(peer.lines[e.heard]);
  }

  lemma LineKeeps(e: End, peer: End, ready: bool)
    requires ReceiveOk(e, peer.lines) && e.rcv.RLine?
    ensures ReceiveOk(Receive(e, peer, ready).value, peer.lines)
  {
    FlatNext(peer.lines, e.heard);
  }

  lemma ReceiveKeeps(e: End, peer: End, ready: bool)
    requires WireOk(peer) && ReceiveOk(e, peer.lines) && e.got <= |peer.wire| && Receive(e, peer, ready).Some?
    ensures ReceiveOk(Receive(e, peer, ready).value, peer.lines) && Receive(e, peer, ready).value.got <= |peer.wire|
  {
    if e.rcv.RRecv? && ready && e.got < |peer.wire| {
      ByteKeeps(e, peer);
    } else if e.rcv.RLine? {
      LineKeeps(e, peer, ready);
    }
  }

  // ---- both endpoints ----

  ghost predicate Half(e: End, peer: End) {
    SendOk(e) && ReceiveOk(e, peer.lines) && e.got <= |peer.wire|
  }

  ghost predicate ChatInv(s: Session) { Half(s.a, s.b) && Half(s.b, s.a) }

  lemma SendFrame(e: End, e': End)
    requires SendOk(e) && (e.stop ==> e'.stop)
    requires e'.lines == e.lines && e'.next == e.next && e'.snd == e.snd && e'.wire == e.wire && e'.full == e.full
        && e'.late == e.late
    ensures SendOk(e')
  {
  }

  lemma ReceiveFrame(e: End, e': End, lines: seq<string>)
    requires ReceiveOk(e, lines) && (e.stop ==> e'.stop)
    requires e'.rcv == e.rcv && e'.got == e.got && e'.printed == e.printed && e'.heard == e.heard
        && e'.sawBye == e.sawBye
    ensures ReceiveOk(e', lines)
  {
  }

  lemma SendLeavesReceiving(e: End, n: nat)
    requires Send(e, n).Some?
    ensures var e' := Send(e, n).value;
      && (e.stop ==> e'.stop) && e'.rcv == e.rcv && e'.got == e.got
      && e'.printed == e.printed && e'.heard == e.heard && e'.sawBye == e.sawBye
  {
  }

  lemma SendHalf(e: End, peer: End, n: nat)
    requires Half(e, peer) && Half(peer, e) && Send(e, n).Some?
    ensures Half(Send(e, n).value, peer) && Half(peer, Send(e, n).value)
  {
    SendKeeps(e, n);
    SendLeavesReceiving(e, n);
    ReceiveFrame(e, Send(e, n).value, peer.lines);
  }

  lemma ReceiveLeavesSending(e: End, peer: End, ready: bool)
    requires Receive(e, peer, ready).Some?
    ensures var e' := Receive(e, peer, ready).value;
      && (e.stop ==> e'.stop) && e'.lines == e.lines && e'.next == e.next && e'.snd == e.snd
      && e'.wire == e.wire && e'.full == e.full && e'.late == e.late
  {
  }

  lemma ReceiveHalf(e: End, peer: End, ready: bool)
    requires Half(e, peer) && Half(peer, e) && Receive(e, peer, ready).Some?
    ensures Half(Receive(e, peer, ready).value, peer) && Half(peer, Receive(e, peer, ready).value)
  {
    ReceiveKeeps(e, peer, ready);
    ReceiveLeavesSending(e, peer, ready);
    SendFrame(e, Receive(e, peer, ready).value);
  }

  lemma StepInv(s: Session, ev: Event)
    requires ChatInv(s) && ChatStep(s, ev).Some?
    ensures ChatInv(ChatStep(s, ev).value)
  {
    match ev {
      case SendA(n) => SendHalf(s.a, s.b, n);
      case SendB(n) => SendHalf(s.b, s.a, n);
      case ReceiveA(r) => ReceiveHalf(s.a, s.b, r);
      case ReceiveB(r) => ReceiveHalf(s.b, s.a, r);
    }
  }

  lemma {:induction false} RunInv(s: Session, run: seq<Event>)
    requires ChatInv(s) && ChatExec(s, run).Some?
    ensures ChatInv(ChatExec(s, run).value)
    decreases |run|
  {
    if run == [] {
    } else {
      StepInv(s, run[0]);
      RunInv(ChatStep(s, run[0]).value, run[1..]);
    }
  }

  /** What one endpoint has shown of the other's lines: a prefix of the complete lines sent, without
      the BYE; BYE is the last line ever sent; and at most one line is completed once shouldStop is set. */
  ghost predicate Orderly(e: End, peer: End) {
    && e.full <= |e.lines| && peer.printed <= e.lines[..e.full]
    && (forall j :: 0 <= j < |peer.printed| ==> peer.printed[j] != BYE)
    && (forall j :: 0 <= j < e.full - 1 ==> e.lines[j] != BYE)
    && (peer.sawBye ==> |peer.printed| + 1 == e.full && e.lines[e.full - 1] == BYE && peer.stop)
    && e.late <= 1
  }

  lemma HeardWhatWasSent(e: End, peer: End)
    requires SendOk(e) && ReceiveOk(peer, e.lines) && peer.got <= |e.wire|
    ensures Orderly(e, peer)
  {
    var h := peer.heard;
    if h > e.full {
      assert IsLine(e.lines[e.full]);
      assert e.lines[..h][..e.full + 1] == e.lines[..e.full + 1];
      FlatPrefix(e.lines[..h], e.full + 1);
      FlatNext(e.lines, e.full);
    }
    assert h <= e.full;
  }

  /** For every run of the two endpoints, every split of the sends and every timeout or interruption. */
  lemma ChatIsOrderly(linesA: seq<string>, linesB: seq<string>, run: seq<Event>)
    requires forall j :: 0 <= j < |linesA| ==> IsLine(linesA[j])
    requires forall j :: 0 <= j < |linesB| ==> IsLine(linesB[j])
    requires ChatExec(Session(InitEnd(linesA), InitEnd(linesB)), run).Some?
    ensures var s := ChatExec(Session(InitEnd(linesA), InitEnd(linesB)), run).value;
      Orderly(s.a, s.b) && Orderly(s.b, s.a)
  {
    var s0 := Session(InitEnd(linesA), InitEnd(linesB));
    RunInv(s0, run);
    var s := ChatExec(s0, run).value;
    HeardWhatWasSent(s.a, s.b);
    HeardWhatWasSent(s.b, s.a);
  }
}
