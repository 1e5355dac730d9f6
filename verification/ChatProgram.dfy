/** A chat endpoint in its own form: the flag, the receive buffer and the counters updated in place. */
module ChatProgram {
  import opened Chat

  const CLOSE_COMMAND: string := "BYE"

  datatype Stage = AtTest | InSelect | InRecv | GotLine | Gone

  class Endpoint {
    const lines: seq<string>
    const buf: array<char>
    var shouldStop: bool
    var next: nat
    var sending: Sending
    var stage: Stage
    var bytesRead: nat
    var wire: string
    var got: nat
    var printed: seq<string>
    ghost var full: nat
    ghost var heard: nat
    ghost var sawBye: bool
    ghost var late: nat

    ghost function Receiver(): Receiving
      requires bytesRead <= buf.Length
      reads this, buf
    {
      match stage
      case AtTest => RTest
      case InSelect => RSelect
      case InRecv => RRecv(buf[..bytesRead])
      case GotLine => RLine(buf[..bytesRead])
      case Gone => RExit
    }

    ghost function Model(): End
      requires bytesRead <= buf.Length
      reads this, buf
    {
      End(shouldStop, lines, next, sending, Receiver(), wire, got, printed, full, heard, sawBye, late)
    }

    ghost predicate Valid(peer: End)
      reads this, buf
    {
      && buf.Length == BUFFER_SIZE && bytesRead <= BUFFER_SIZE
      && Half(Model(), peer) && Half(peer, Model())
    }

    constructor (lines: seq<string>)
      ensures buf.Length == BUFFER_SIZE && bytesRead == 0 && fresh(buf) && Model() == InitEnd(lines)
    {
      this.lines := lines;
      buf := new char[BUFFER_SIZE](_ => '\0');
      shouldStop, next, sending, stage, bytesRead := false, 0, STest, AtTest, 0;
      wire, got, printed, full, heard, sawBye, late := "", 0, [], 0, 0, false, 0;
    }

    /** The next step of `receiveMessage`, `arrived` being the bytes the peer has sent so far: no byte
        is ever stored beyond the buffer. */
    method ReceiveStep(ghost peer: End, arrived: string, closed: bool, ready: bool) returns (moved: bool)
      requires Valid(peer) && arrived == peer.wire && closed == Closed(peer)
      modifies this, buf
      ensures Valid(peer)
      ensures moved == Receive(old(Model()), peer, ready).Some?
      ensures Model() == if moved then Receive(old(Model()), peer, ready).value else old(Model())
    {
      ghost var e := Model();
      if stage == InRecv && got < |arrived| { NextByte(e, peer); }
      moved := ReceiveOnce(peer, arrived, closed, ready);
      if moved {
        ReceiveHalf(e, peer, ready);
      }
    }

    method ReceiveOnce(ghost peer: End, arrived: string, closed: bool, ready: bool) returns (moved: bool)
      requires bytesRead <= buf.Length && arrived == peer.wire && closed == Closed(peer)
      requires stage == InRecv && got < |arrived| ==> bytesRead < buf.Length
      requires stage == GotLine ==> Within(peer.lines, heard, buf[..bytesRead], true) && IsLine(peer.lines[heard])
      modifies this`shouldStop, this`stage, this`bytesRead, this`got, this`printed, this`heard, this`sawBye, buf
      ensures bytesRead <= buf.Length
      ensures moved == Receive(old(Model()), peer, ready).Some?
      ensures Model() == if moved then Receive(old(Model()), peer, ready).value else old(Model())
    {
      moved := true;
      match stage {
        case AtTest =>
          stage := if shouldStop then Gone else InSelect;
        case InSelect =>
          if !ready {
            stage := AtTest;
          } else {
            moved := got < |arrived| || closed;
            if moved { bytesRead, stage := 0, InRecv; }
          }
        case InRecv =>
          moved := !ready || got < |arrived| || closed;
          if ready && got < |arrived| {
            RecvByte(arrived[got]);
          } else if ready && closed {
            shouldStop, stage := true, Gone;
          }
        case GotLine =>
          HandleLine(peer.lines);
        case Gone =>
          moved := false;
      }
    }

    /** The byte lands in the buffer; the newline ends the line. */
    method RecvByte(b: char)
      requires bytesRead < buf.Length && stage == InRecv
      modifies this`bytesRead, this`stage, this`got, buf
      ensures bytesRead <= buf.Length
      ensures Model() == old(Model()).(got := old(got) + 1,
        rcv := if b == '\n' then RLine(old(buf[..bytesRead]) + [b]) else RRecv(old(buf[..bytesRead]) + [b]))
    {
      buf[bytesRead] := b;
      bytesRead, got := bytesRead + 1, got + 1;
      assert buf[..bytesRead] == old(buf[..bytesRead]) + [b];
      if b == '\n' { stage := GotLine; }
    }

    /** Compares the line, delimiter aside, with the close command; prints it otherwise. */
    method HandleLine(ghost sent: seq<string>)
      requires bytesRead <= buf.Length && stage == GotLine
      requires Within(sent, heard, buf[..bytesRead], true) && IsLine(sent[heard])
      modifies this`shouldStop, this`stage, this`printed, this`heard, this`sawBye
      ensures var e := old(Model());
        Model() == if old(buf[..bytesRead]) == BYE
            then e.(stop := true, rcv := RTest, heard := e.heard + 1, sawBye := true)
          else e.(rcv := RTest, heard := e.heard + 1, printed := e.printed + [old(buf[..bytesRead])])
    {
      var bye := bytesRead - 1 == |CLOSE_COMMAND| && buf[..|CLOSE_COMMAND|] == CLOSE_COMMAND;
      assert bye <==> buf[..bytesRead] == BYE by {
        assert buf[bytesRead - 1] == '\n';
        if bye { assert buf[..bytesRead] == buf[..bytesRead - 1] + [buf[bytesRead - 1]]; }
        if buf[..bytesRead] == BYE { assert buf[..3] == buf[..bytesRead][..3]; }
      }
      if bye {
        shouldStop, sawBye := true, true;
      } else {
        printed := printed + [buf[..bytesRead]];
      }
      stage, heard := AtTest, heard + 1;
    }

    /** The next step of `sendMessage`; `n` is what `send` takes, 0 standing for an interruption. */
    method SendStep(ghost peer: End, n: nat) returns (moved: bool)
      requires Valid(peer)
      modifies this
      ensures Valid(peer)
      ensures moved == Send(old(Model()), n).Some?
      ensures Model() == if moved then Send(old(Model()), n).value else old(Model())
    {
      ghost var e := Model();
      moved := SendOnce(n);
      if moved { SendHalf(e, peer, n); }
    }

    method SendOnce(n: nat) returns (moved: bool)
      requires bytesRead <= buf.Length
      requires sending.SSend? || sending.SAfter? ==> 1 <= next <= |lines|
      requires sending.SSend? ==> sending.k <= |lines[next - 1]|
      modifies this`shouldStop, this`next, this`sending, this`wire, this`full, this`late
      ensures moved == Send(old(Model()), n).Some?
      ensures Model() == if moved then Send(old(Model()), n).value else old(Model())
    {
      moved := true;
      match sending {
        case STest => sending := if shouldStop then SExit else SRead;
        case SRead =>
          moved := next < |lines|;
          if moved { sending, next := SRetest, next + 1; }
        case SRetest => sending := if shouldStop then SExit else SSend(0);
        case SSend(k) =>
          var l := lines[next - 1];
          if k + n > |l| {
            moved := false;
          } else {
            wire := wire + l[k..k + n];
            if k + n < |l| {
              sending := SSend(k + n);
            } else {
              sending, full, late := SAfter, full + 1, late + (if shouldStop then 1 else 0);
            }
          }
        case SAfter =>
          if lines[next - 1] == BYE { shouldStop := true; }
          sending := STest;
        case SExit =>
          moved := false;
      }
    }
  }
}
