/** The echo pair in its own form: the echo buffer, its counters and the two FIFOs updated in place. */
module EchoProgram {
  import opened Sums
  import opened Bytes
  import opened Echo

  datatype Stage = Greet | Listen | Reply | Quit | Gone(ok: bool)

  class Processes {
    const welcome: string
    const lines: seq<string>
    const buf: array<char>
    var stage: Stage
    var bytesRead: nat
    var bytesSent: nat
    var client: ClientPc
    var up: string
    var upGot: nat
    var down: string
    var downGot: nat
    var next: nat
    var replies: seq<string>

    ghost predicate Valid()
      reads this, buf
    {
      && buf.Length == ROOM + 1 && bytesRead <= ROOM
      && (stage == Greet ==> buf[..bytesRead] == welcome && bytesSent <= bytesRead)
      && (stage == Reply ==> bytesSent <= bytesRead)
    }

    ghost function EchoPoint(): EchoPc
      requires Valid()
      reads this, buf
    {
      match stage
      case Greet => Greeting(bytesSent)
      case Listen => Listening
      case Reply => Echoing(buf[..bytesRead], bytesSent)
      case Quit => EchoDone
      case Gone(ok) => EchoLeft(ok)
    }

    ghost function Model(): Pair
      requires Valid()
      reads this, buf
    {
      Pair(EchoPoint(), client, up, upGot, down, downGot, next, replies)
    }

    constructor (welcome: string, lines: seq<string>)
      requires |welcome| <= ROOM
      ensures Valid() && this.welcome == welcome && this.lines == lines && Model() == InitPair() && fresh(buf)
    {
      this.welcome, this.lines := welcome, lines;
      buf := new char[ROOM + 1](i => if 0 <= i < |welcome| then welcome[i] else '\0');
      stage, bytesRead, bytesSent := Greet, |welcome|, 0;
      client, up, upGot, down, downGot, next, replies := AwaitWelcome, "", 0, "", 0, 0, [];
    }

    /** The next step of the echo process; false when it waits for the client or has left. */
    method EchoStep(n: nat) returns (moved: bool)
      requires Valid()
      modifies this`stage, this`bytesRead, this`bytesSent, this`upGot, this`down, buf
      ensures Valid()
      ensures moved == EchoMove(welcome, old(Model()), n).Some?
      ensures Model() == if moved then EchoMove(welcome, old(Model()), n).value else old(Model())
    {
      match stage {
        case Greet => WriteSome(n); moved := true;
        case Reply => WriteSome(n); moved := true;
        case Listen =>
          moved := upGot < |up| || client.ClientLeft?;
          if moved { ReadSome(n); }
        case Quit =>
          stage, moved := Gone(true), true;
        case Gone(_) => moved := false;
      }
    }

    /** One turn of a write loop over `buf`; with nobody left to read, the write kills the process. */
    method WriteSome(n: nat)
      requires Valid() && (stage == Greet || stage == Reply)
      modifies this`stage, this`bytesSent, this`down
      ensures Valid() && Some(Model()) == EchoMove(welcome, old(Model()), n)
    {
      if bytesSent < bytesRead && client.ClientLeft? {
        stage := Gone(false);
        return;
      } else if bytesSent < bytesRead {
        var r := Moved(n, bytesRead - bytesSent);
        down := down + buf[..bytesRead][bytesSent..bytesSent + r];
        bytesSent := bytesSent + r;
      }
      if bytesSent >= bytesRead { stage := Listen; }
    }

    /** A read into `buf`, and the test for the quit command; at end of file the process gives up. */
    method ReadSome(n: nat)
      requires Valid() && stage == Listen && (upGot < |up| || client.ClientLeft?)
      modifies this`stage, this`bytesRead, this`bytesSent, this`upGot, buf
      ensures Valid() && Some(Model()) == EchoMove(welcome, old(Model()), n)
    {
      if upGot >= |up| {
        stage := Gone(false);
        return;
      }
      var r := Moved(n, Min(|up| - upGot, ROOM));
      var start := upGot;
      forall i | 0 <= i < r { buf[i] := up[start + i]; }
      assert buf[..r] == up[start..start + r];
      bytesRead, bytesSent, upGot := r, 0, start + r;
      stage := if bytesRead == |QUIT| && buf[..|QUIT|] == QUIT then Quit else Reply;
    }

    /** The next step of the client; false when it waits for the user or a reply, or has left. */
    method ClientStep(n: nat) returns (moved: bool)
      requires Valid()
      modifies this`client, this`up, this`downGot, this`next, this`replies
      ensures Valid()
      ensures moved == ClientMove(lines, old(Model()), n).Some?
      ensures Model() == if moved then ClientMove(lines, old(Model()), n).value else old(Model())
    {
      moved := true;
      match client {
        case Typing =>
          if next >= |lines| { return false; }
          client := if lines[next] == "" then AwaitReply else Sending(0);
          next := next + 1;
        case Sending(k) =>
          moved := 1 <= next <= |lines| && k < |lines[next - 1]|;
          if moved { SendSome(n); }
        case ClientDone => client := ClientLeft(true);
        case ClientLeft(_) => moved := false;
        case AwaitWelcome =>
          moved := downGot < |down| || stage.Gone?;
          if moved {
            var _ := Collect(n);
          }
        case AwaitReply =>
          moved := downGot < |down| || stage.Gone?;
          if moved {
            var reply := Collect(n);
            if client.Typing? { replies := replies + [reply]; }
          }
      }
    }

    /** One turn of the client's write loop, and the test for the quit command. */
    method SendSome(n: nat)
      requires Valid() && client.Sending? && 1 <= next <= |lines| && client.k < |lines[next - 1]|
      modifies this`client, this`up
      ensures Valid() && Some(Model()) == ClientMove(lines, old(Model()), n)
    {
      if stage.Gone? {
        client := ClientLeft(false);
        return;
      }
      var l, k := lines[next - 1], client.k;
      var r := Moved(n, |l| - k);
      up := up + l[k..k + r];
      client := if k + r < |l| then Sending(k + r) else if l == QUIT then ClientDone else AwaitReply;
    }

    /** A read of what the echo process has sent; at end of file the client gives up. */
    method Collect(n: nat) returns (text: string)
      requires downGot < |down| || stage.Gone?
      modifies this`client, this`downGot
      ensures old(downGot) >= |down| ==> downGot == old(downGot) && client == ClientLeft(false)
      ensures old(downGot) < |down| ==>
        var r := Moved(n, Min(|down| - old(downGot), ROOM));
        text == down[old(downGot)..old(downGot) + r] && downGot == old(downGot) + r && client == Typing
    {
      if downGot >= |down| {
        client, text := ClientLeft(false), "";
        return;
      }
      var r := Moved(n, Min(|down| - downGot, ROOM));
      text := down[downGot..downGot + r];
      downGot, client := downGot + r, Typing;
    }
  }
}
