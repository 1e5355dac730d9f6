/** The echo pair over two FIFOs: open order, byte order under any splitting, and lockstep. */
module Echo {
  import opened Sums
  import opened Bytes

  // ---- opening the FIFOs ----

  /** An open returns once the other process has reached its own open of that FIFO. `a` and `b` are
      the opens each process has behind it. */
  predicate CanOpen(mine: seq<nat>, theirs: seq<nat>, a: nat, b: nat) {
    a < |mine| && exists j :: 0 <= j <= b && j < |theirs| && theirs[j] == mine[a]
  }

  ghost predicate OpensReach(p: seq<nat>, q: seq<nat>, a: nat, b: nat)
    decreases a + b
  {
    || (a == 0 && b == 0)
    || (a > 0 && OpensReach(p, q, a - 1, b) && CanOpen(p, q, a - 1, b))
    || (b > 0 && OpensReach(p, q, a, b - 1) && CanOpen(q, p, b - 1, a))
  }

  predicate Distinct(p: seq<nat>) { forall i, j :: 0 <= i < j < |p| ==> p[i] != p[j] }

  /** Some process has opens left, and neither can go on. */
  ghost predicate OpensStuck(p: seq<nat>, q: seq<nat>, a: nat, b: nat) {
    && a <= |p| && b <= |q| && (a < |p| || b < |q|)
    && OpensReach(p, q, a, b) && !CanOpen(p, q, a, b) && !CanOpen(q, p, b, a)
  }

  lemma {:induction false} SameSoFar(p: seq<nat>, q: seq<nat>, d: nat)
    requires d <= |p| && d <= |q| && p[..d] == q[..d]
    ensures OpensReach(p, q, d, d)
  {
    if d == 0 {
    } else {
      assert p[..d - 1] == p[..d][..d - 1] && q[..d - 1] == q[..d][..d - 1];
      SameSoFar(p, q, d - 1);
      assert q[d - 1] == q[..d][d - 1] && p[d - 1] == p[..d][d - 1];
      assert CanOpen(p, q, d - 1, d - 1);
      assert OpensReach(p, q, d, d - 1);
      assert CanOpen(q, p, d - 1, d);
    }
  }

  /** Two processes that open the same FIFOs rendezvous in every schedule exactly when they open them
      in the same order. */
  lemma OpensExactly(p: seq<nat>, q: seq<nat>)
    requires |p| == |q| && Distinct(p) && Distinct(q)
    ensures (forall a, b :: !OpensStuck(p, q, a, b)) <==> p == q
  {
    if p == q {
      forall a: nat, b: nat ensures !OpensStuck(p, q, a, b) {
        if a < |p| && a <= b {
          assert q[a] == p[a];
          assert CanOpen(p, q, a, b);
        } else if b < |q| && b <= a {
          assert p[b] == q[b];
          assert CanOpen(q, p, b, a);
        }
      }
    } else {
      var d := FirstDifference(p, q);
      SameSoFar(p, q, d);
      NobodyThere(p, q, d);
      NobodyThere(q, p, d);
      assert OpensStuck(p, q, d, d);
    }
  }

  lemma NobodyThere(p: seq<nat>, q: seq<nat>, d: nat)
    requires |p| == |q| && Distinct(p) && d < |p| && p[..d] == q[..d] && p[d] != q[d]
    ensures !CanOpen(p, q, d, d)
  {
    forall j | 0 <= j < d ensures q[j] != p[d] {
      assert q[j] == q[..d][j] && p[j] == p[..d][j];
    }
  }

  lemma FirstDifference(p: seq<nat>, q: seq<nat>) returns (d: nat)
    requires |p| == |q| && p != q
    ensures d < |p| && p[..d] == q[..d] && p[d] != q[d]
  {
    d := 0;
    while d < |p| && p[d] == q[d]
      invariant d <= |p| && p[..d] == q[..d]
    {
      assert p[..d + 1] == p[..d] + [p[d]] && q[..d + 1] == q[..d] + [q[d]];
      d := d + 1;
    }
    assert p[..|p|] == p && q[..|q|] == q;
  }

  // ---- the conversation ----

  const QUIT: string := "QUIT"
  const ROOM: nat := 1023   // sizeof(buf) - 1

  /** `Done` has left its loop by the quit command and is about to close; `Left` is gone, with success or,
      after an end of file or a write that nobody can read, with failure. */
  datatype EchoPc = Greeting(k: nat) | Listening | Echoing(msg: string, k: nat) | EchoDone | EchoLeft(ok: bool)
  datatype ClientPc = AwaitWelcome | Typing | Sending(k: nat) | AwaitReply | ClientDone | ClientLeft(ok: bool)

  /** `up` and `down` are all bytes ever put in each FIFO; `upGot` and `downGot` those taken out. */
  datatype Pair = Pair(echo: EchoPc, client: ClientPc, up: string, upGot: nat, down: string, downGot: nat,
                       next: nat, replies: seq<string>)

  function InitPair(): Pair { Pair(Greeting(0), AwaitWelcome, "", 0, "", 0, 0, []) }

  function EchoMove(welcome: string, s: Pair, n: nat): Option<Pair> {
    match s.echo
    case Greeting(k) =>
      if k >= |welcome| then Some(s.(echo := Listening))
      else if s.client.ClientLeft? then Some(s.(echo := EchoLeft(false)))
      else
        var r := Moved(n, |welcome| - k);
        Some(s.(down := s.down + welcome[k..k + r], echo := if k + r == |welcome| then Listening else Greeting(k + r)))
    case Listening =>
      if s.upGot >= |s.up| then if s.client.ClientLeft? then Some(s.(echo := EchoLeft(false))) else None
      else
        var r := Moved(n, Min(|s.up| - s.upGot, ROOM));
        var msg := s.up[s.upGot..s.upGot + r];
        Some(s.(upGot := s.upGot + r, echo := if msg == QUIT then EchoDone else Echoing(msg, 0)))
    case Echoing(msg, k) =>
      if k >= |msg| then Some(s.(echo := Listening))
      else if s.client.ClientLeft? then Some(s.(echo := EchoLeft(false)))
      else
        var r := Moved(n, |msg| - k);
        Some(s.(down := s.down + msg[k..k + r], echo := if k + r == |msg| then Listening else Echoing(msg, k + r)))
    case EchoDone => Some(s.(echo := EchoLeft(true)))
    case EchoLeft(_) => None
  }

  /** `lines` are the user's lines, newline dropped. */
  function ClientMove(lines: seq<string>, s: Pair, n: nat): Option<Pair> {
    match s.client
    case AwaitWelcome =>
      if s.downGot >= |s.down| then EndOfFile(s)
      else Some(s.(downGot := s.downGot + Moved(n, Min(|s.down| - s.downGot, ROOM)), client := Typing))
    case Typing =>
      if s.next >= |lines| then None
      else Some(s.(next := s.next + 1, client := if lines[s.next] == "" then AwaitReply else Sending(0)))
    case Sending(k) =>
      if !(1 <= s.next <= |lines|) || k >= |lines[s.next - 1]| then None
      else if s.echo.EchoLeft? then Some(s.(client := ClientLeft(false)))
      else
        var l := lines[s.next - 1];
        var r := Moved(n, |l| - k);
        Some(s.(up := s.up + l[k..k + r],
                client := if k + r < |l| then Sending(k + r) else if l == QUIT then ClientDone else AwaitReply))
    case AwaitReply =>
      if s.downGot >= |s.down| then EndOfFile(s)
      else
        var r := Moved(n, Min(|s.down| - s.downGot, ROOM));
        Some(s.(downGot := s.downGot + r, replies := s.replies + [s.down[s.downGot..s.downGot + r]], client := Typing))
    case ClientDone => Some(s.(client := ClientLeft(true)))
    case ClientLeft(_) => None
  }

  /** The client's read of an empty FIFO: it blocks, or returns 0 once the echo process has closed. */
  function EndOfFile(s: Pair): Option<Pair> {
    if s.echo.EchoLeft? then Some(s.(client := ClientLeft(false))) else None
  }

  datatype Move = EchoProcess(n: nat) | ClientProcess(n: nat)

  function PairStep(welcome: string, lines: seq<string>, s: Pair, m: Move): Option<Pair> {
    match m
    case EchoProcess(n) => EchoMove(welcome, s, n)
    case ClientProcess(n) => ClientMove(lines, s, n)
  }

  function PairExec(welcome: string, lines: seq<string>, s: Pair, run: seq<Move>): Option<Pair>
    decreases |run|
  {
    if run == [] then Some(s)
    else
      var r := PairStep(welcome, lines, s, run[0]);
      if r.None? then None else PairExec(welcome, lines, r.value, run[1..])
  }

  // ---- byte order, for every splitting ----

  ghost predicate Ordered(welcome: string, s: Pair) {
    && s.upGot <= |s.up| && s.downGot <= |s.down|
    && s.down <= welcome + s.up
    && (match s.echo
        case Greeting(k) => |s.down| == k <= |welcome| && s.upGot == 0
        case Listening => |s.down| == |welcome| + s.upGot
        case Echoing(msg, k) =>
          && k <= |msg| <= s.upGot && msg == s.up[s.upGot - |msg|..s.upGot]
          && |s.down| == |welcome| + s.upGot - |msg| + k
        case EchoDone => |s.down| + |QUIT| == |welcome| + s.upGot && TookQuit(s)
        case EchoLeft(ok) => ok ==> |s.down| + |QUIT| == |welcome| + s.upGot && TookQuit(s))
  }

  /** The last four bytes the echo process took are the quit command, whatever line they come from. */
  predicate TookQuit(s: Pair) {
    |QUIT| <= s.upGot <= |s.up| && s.up[s.upGot - |QUIT|..s.upGot] == QUIT
  }

  lemma Extends(all: string, part: string, more: string)
    requires part <= all && |part| + |more| <= |all| && all[|part|..|part| + |more|] == more
    ensures part + more <= all
  {
    assert all[..|part| + |more|] == all[..|part|] + all[|part|..|part| + |more|];
  }

  lemma SliceOfSlice(s: string, i: nat, m: nat, k: nat, r: nat)
    requires i + m <= |s| && k + r <= m
    ensures s[i..i + m][k..k + r] == s[i + k..i + k + r]
  {
    var x, y := s[i..i + m], s[i + k..i + k + r];
    forall j | 0 <= j < r ensures x[k..k + r][j] == y[j] {
      assert x[k..k + r][j] == x[k + j];
    }
  }

  lemma OnTheWire(welcome: string, up: string, i: nat, msg: string, k: nat, r: nat)
    requires i + |msg| <= |up| && msg == up[i..i + |msg|] && k + r <= |msg|
    ensures var d := |welcome| + i + k; (welcome + up)[d..d + r] == msg[k..k + r]
  {
    var w := |welcome| + i;
    assert (welcome + up)[w..w + |msg|] == msg;
    SliceOfSlice(welcome + up, w, |msg|, k, r);
  }

  lemma GreetingKeepsOrder(welcome: string, s: Pair, n: nat)
    requires Ordered(welcome, s) && s.echo.Greeting?
    ensures EchoMove(welcome, s, n).Some? && Ordered(welcome, EchoMove(welcome, s, n).value)
  {
    var k := s.echo.k;
    if k < |welcome| {
      var r := Moved(n, |welcome| - k);
      assert (welcome + s.up)[k..k + r] == welcome[k..k + r];
      Extends(welcome + s.up, s.down, welcome[k..k + r]);
    }
  }

  lemma EchoWrites(welcome: string, s: Pair, r: nat)
    requires Ordered(welcome, s) && s.echo.Echoing? && s.echo.k + r <= |s.echo.msg|
    ensures var msg, k := s.echo.msg, s.echo.k;
      && s.down + msg[k..k + r] <= welcome + s.up
      && |s.down + msg[k..k + r]| == |welcome| + s.upGot - |msg| + k + r
  {
    var msg, k := s.echo.msg, s.echo.k;
    OnTheWire(welcome, s.up, s.upGot - |msg|, msg, k, r);
    Extends(welcome + s.up, s.down, msg[k..k + r]);
  }

  lemma EchoingKeepsOrder(welcome: string, s: Pair, n: nat)
    requires Ordered(welcome, s) && s.echo.Echoing?
    ensures EchoMove(welcome, s, n).Some? && Ordered(welcome, EchoMove(welcome, s, n).value)
  {
    var msg, k := s.echo.msg, s.echo.k;
    if k < |msg| && !s.client.ClientLeft? {
      EchoWrites(welcome, s, Moved(n, |msg| - k));
    }
  }

  lemma EchoKeepsOrder(welcome: string, s: Pair, n: nat)
    requires Ordered(welcome, s) && EchoMove(welcome, s, n).Some?
    ensures Ordered(welcome, EchoMove(welcome, s, n).value)
  {
    if s.echo.Greeting? {
      GreetingKeepsOrder(welcome, s, n);
    } else if s.echo.Echoing? {
      EchoingKeepsOrder(welcome, s, n);
    }
  }

  lemma SendKeepsOrder(welcome: string, s: Pair, s': Pair, more: string)
    requires Ordered(welcome, s) && s' == s.(client := s'.client, up := s.up + more)
    ensures Ordered(welcome, s')
  {
    Longer(welcome, s.up, more, s.down);
    if s.echo.Echoing? {
      SliceKept(s.up, more, s.upGot - |s.echo.msg|, s.upGot);
    } else if s.echo.EchoDone? || s.echo == EchoLeft(true) {
      SliceKept(s.up, more, s.upGot - |QUIT|, s.upGot);
    }
  }

  lemma ClientKeepsOrder(welcome: string, lines: seq<string>, s: Pair, n: nat)
    requires Ordered(welcome, s) && ClientMove(lines, s, n).Some?
    ensures Ordered(welcome, ClientMove(lines, s, n).value)
  {
    if s.client.Sending? && !s.echo.EchoLeft? {
      var l, k := lines[s.next - 1], s.client.k;
      SendKeepsOrder(welcome, s, ClientMove(lines, s, n).value, l[k..k + Moved(n, |l| - k)]);
    } else {
      QuietKeepsOrder(welcome, s, ClientMove(lines, s, n).value);
    }
  }

  lemma QuietKeepsOrder(welcome: string, s: Pair, s': Pair)
    requires Ordered(welcome, s) && s'.echo == s.echo && s'.up == s.up && s'.upGot == s.upGot
    requires s'.down == s.down && s'.downGot <= |s.down|
    ensures Ordered(welcome, s')
  {
  }

  /** For every run and every splitting of reads and writes, what the client is sent is a prefix of
      the welcome followed by the bytes it sent. */
  lemma {:induction false} RunKeepsOrder(welcome: string, lines: seq<string>, s: Pair, run: seq<Move>)
    requires Ordered(welcome, s) && PairExec(welcome, lines, s, run).Some?
    ensures Ordered(welcome, PairExec(welcome, lines, s, run).value)
    decreases |run|
  {
    if run == [] {
    } else {
      match run[0] {
        case EchoProcess(n) => EchoKeepsOrder(welcome, s, n);
        case ClientProcess(n) => ClientKeepsOrder(welcome, lines, s, n);
      }
      RunKeepsOrder(welcome, lines, PairStep(welcome, lines, s, run[0]).value, run[1..]);
    }
  }

  // ---- what the client puts on the wire ----

  /** The bytes sent so far are the lines taken so far, the last one up to where the send loop stands or
      was cut off. */
  ghost predicate Sent(lines: seq<string>, s: Pair) {
    && s.next <= |lines|
    && (s.client.Sending? ==> s.next >= 1 && s.client.k < |lines[s.next - 1]|)
    && match s.client
       case Sending(k) => s.up == Flat(lines[..s.next - 1]) + lines[s.next - 1][..k]
       case ClientLeft(_) => s.up <= Flat(lines[..s.next])
       case _ => s.up == Flat(lines[..s.next])
  }

  lemma ClientKeepsSent(lines: seq<string>, s: Pair, n: nat)
    requires Sent(lines, s) && ClientMove(lines, s, n).Some?
    ensures Sent(lines, ClientMove(lines, s, n).value)
  {
    if s.client.Typing? {
      FlatNext(lines, s.next);
    } else if s.client.Sending? {
      var l, k := lines[s.next - 1], s.client.k;
      var r := Moved(n, |l| - k);
      FlatNext(lines, s.next - 1);
      OneMoreWrite(Flat(lines[..s.next - 1]), l, k, r);
      CutOff(lines, s.next, k);
    }
  }

  lemma CutOff(lines: seq<string>, next: nat, k: nat)
    requires 1 <= next <= |lines| && k <= |lines[next - 1]|
    ensures Flat(lines[..next - 1]) + lines[next - 1][..k] <= Flat(lines[..next])
  {
    FlatNext(lines, next - 1);
  }

  lemma {:induction false} RunKeepsSent(welcome: string, lines: seq<string>, s: Pair, run: seq<Move>)
    requires Sent(lines, s) && PairExec(welcome, lines, s, run).Some?
    ensures Sent(lines, PairExec(welcome, lines, s, run).value)
    decreases |run|
  {
    if run == [] {
    } else {
      if run[0].ClientProcess? {
        ClientKeepsSent(lines, s, run[0].n);
      }
      RunKeepsSent(welcome, lines, PairStep(welcome, lines, s, run[0]).value, run[1..]);
    }
  }

  /** In every state of every run, however reads and writes are split, the client has received a prefix
      of the welcome followed by the bytes it has sent, and those are a prefix of what the user typed. */
  lemma ReceivedInOrder(welcome: string, lines: seq<string>, run: seq<Move>)
    requires PairExec(welcome, lines, InitPair(), run).Some?
    ensures var s := PairExec(welcome, lines, InitPair(), run).value;
            && s.downGot <= |s.down| && s.down[..s.downGot] <= welcome + s.up
            && s.up <= Flat(lines)
  {
    var s := PairExec(welcome, lines, InitPair(), run).value;
    RunKeepsOrder(welcome, lines, InitPair(), run);
    RunKeepsSent(welcome, lines, InitPair(), run);
    if s.client.Sending? {
      CutOff(lines, s.next, s.client.k);
    }
    FlatPrefix(lines, s.next);
  }

  // ---- lockstep, when every message is delivered whole ----

  ghost predicate Whole(run: seq<Move>) { forall i :: 0 <= i < |run| ==> run[i].n >= ROOM }

  /** A line fgets can deliver, and a welcome that fits the client's buffer. */
  ghost predicate Fits(welcome: string, lines: seq<string>) {
    1 <= |welcome| <= ROOM && forall i :: 0 <= i < |lines| ==> |lines[i]| < ROOM
  }

  predicate Plain(l: string) { l != "" && l != QUIT }

  /** Every line answered so far was answered by itself. */
  ghost predicate Answered(lines: seq<string>, s: Pair, k: nat) {
    k <= |lines| && s.replies == lines[..k] && forall i :: 0 <= i < k ==> Plain(lines[i])
  }

  predicate Empty(s: Pair) { s.upGot == |s.up| && s.downGot == |s.down| }

  /** The line `l` is with the client, on its way, in the echo process, or on its way back. */
  ghost predicate InFlight(l: string, s: Pair)
    requires s.upGot <= |s.up| && s.downGot <= |s.down|
  {
    || (s.echo == Listening && s.downGot == |s.down| && s.up[s.upGot..] == l)
    || (l != "" && s.echo == Echoing(l, 0) && Empty(s))
    || (l != "" && s.echo == Listening && s.upGot == |s.up| && s.down[s.downGot..] == l)
  }

  ghost predicate Lockstep(welcome: string, lines: seq<string>, s: Pair) {
    && s.upGot <= |s.up| && s.downGot <= |s.down|
    && match s.client
       case AwaitWelcome =>
         && s.next == 0 && Answered(lines, s, 0) && s.upGot == |s.up| && s.downGot == 0
         && ((s.echo == Greeting(0) && s.down == "") || (s.echo == Listening && s.down == welcome))
       case Typing => Answered(lines, s, s.next) && s.echo == Listening && Empty(s)
       case Sending(k) =>
         && 1 <= s.next <= |lines| && Answered(lines, s, s.next - 1) && lines[s.next - 1] != "" && k == 0
         && s.echo == Listening && Empty(s)
       case AwaitReply =>
         && 1 <= s.next <= |lines| && Answered(lines, s, s.next - 1) && lines[s.next - 1] != QUIT
         && InFlight(lines[s.next - 1], s)
       case ClientDone => Quitting(lines, s)
       case ClientLeft(ok) => ok && Quitting(lines, s)
  }

  /** The client has sent the quit command, and the echo process takes it. */
  ghost predicate Quitting(lines: seq<string>, s: Pair)
    requires s.upGot <= |s.up|
  {
    && 1 <= s.next <= |lines| && Answered(lines, s, s.next - 1) && lines[s.next - 1] == QUIT
    && ((s.echo == Listening && s.up[s.upGot..] == QUIT) || s.echo == EchoDone || s.echo == EchoLeft(true))
  }

  lemma EchoLockstep(welcome: string, lines: seq<string>, s: Pair, n: nat)
    requires Fits(welcome, lines) && Lockstep(welcome, lines, s) && EchoMove(welcome, s, n).Some? && n >= ROOM
    ensures Lockstep(welcome, lines, EchoMove(welcome, s, n).value)
  {
  }

  lemma ClientLockstep(welcome: string, lines: seq<string>, s: Pair, n: nat)
    requires Fits(welcome, lines) && Lockstep(welcome, lines, s) && ClientMove(lines, s, n).Some? && n >= ROOM
    ensures Lockstep(welcome, lines, ClientMove(lines, s, n).value)
  {
    var s' := ClientMove(lines, s, n).value;
    match s.client {
      case AwaitWelcome => assert lines[..0] == [];
      case Typing =>
      case Sending(k) =>
        var l := lines[s.next - 1];
        assert l[0..|l|] == l;
        assert s'.up[s'.upGot..] == l;
      case AwaitReply =>
        var l := lines[s.next - 1];
        assert s.down[s.downGot..] == l && s.downGot + |l| == |s.down|;
        assert s.down[s.downGot..s.downGot + |l|] == l;
        assert lines[..s.next] == lines[..s.next - 1] + [l];
      case ClientDone =>
    }
  }

  lemma {:induction false} RunLockstep(welcome: string, lines: seq<string>, s: Pair, run: seq<Move>)
    requires Fits(welcome, lines) && Lockstep(welcome, lines, s)
    requires Whole(run) && PairExec(welcome, lines, s, run).Some?
    ensures Lockstep(welcome, lines, PairExec(welcome, lines, s, run).value)
    decreases |run|
  {
    if run == [] {
    } else {
      StepLockstep(welcome, lines, s, run[0]);
      RunLockstep(welcome, lines, PairStep(welcome, lines, s, run[0]).value, run[1..]);
    }
  }

  /** When messages are delivered whole, reply k is line k and nobody leaves with failure, in every state
      of every run. */
  lemma RepliesAreLines(welcome: string, lines: seq<string>, run: seq<Move>)
    requires Fits(welcome, lines) && Whole(run) && PairExec(welcome, lines, InitPair(), run).Some?
    ensures var s := PairExec(welcome, lines, InitPair(), run).value;
            && s.replies <= lines && s.next <= |s.replies| + 1
            && s.client != ClientLeft(false) && s.echo != EchoLeft(false)
  {
    RunLockstep(welcome, lines, InitPair(), run);
  }

  lemma StepLockstep(welcome: string, lines: seq<string>, s: Pair, m: Move)
    requires Fits(welcome, lines) && Lockstep(welcome, lines, s) && m.n >= ROOM && PairStep(welcome, lines, s, m).Some?
    ensures Lockstep(welcome, lines, PairStep(welcome, lines, s, m).value)
  {
    match m {
      case EchoProcess(n) => EchoLockstep(welcome, lines, s, n);
      case ClientProcess(n) => ClientLockstep(welcome, lines, s, n);
    }
  }

  // ---- deadlock ----

  ghost predicate Stuck(welcome: string, lines: seq<string>, s: Pair) {
    forall m :: PairStep(welcome, lines, s, m).None?
  }

  /** A stuck pair is waiting for the user, has said goodbye, or waits for the reply to an empty line. */
  lemma WhyStuck(welcome: string, lines: seq<string>, s: Pair)
    requires Fits(welcome, lines) && Lockstep(welcome, lines, s) && Stuck(welcome, lines, s)
    ensures || (s.client.Typing? && s.next == |lines|)
            || (s.client == ClientLeft(true) && s.echo == EchoLeft(true))
            || (s.client.AwaitReply? && lines[s.next - 1] == "")
  {
    assert PairStep(welcome, lines, s, EchoProcess(ROOM)).None?;
    assert PairStep(welcome, lines, s, ClientProcess(ROOM)).None?;
  }

  ghost predicate Deadlocks(welcome: string, lines: seq<string>, run: seq<Move>) {
    && Whole(run)
    && var r := PairExec(welcome, lines, InitPair(), run);
       r.Some? && r.value.client.AwaitReply? && Stuck(welcome, lines, r.value)
  }

  predicate EmptyAt(lines: seq<string>, k: nat) {
    k < |lines| && lines[k] == "" && forall i :: 0 <= i < k ==> lines[i] != QUIT
  }

  lemma {:induction false} ExecAppend(welcome: string, lines: seq<string>, s: Pair, a: seq<Move>, b: seq<Move>)
    requires PairExec(welcome, lines, s, a).Some?
    ensures PairExec(welcome, lines, s, a + b) == PairExec(welcome, lines, PairExec(welcome, lines, s, a).value, b)
    decreases |a|
  {
    if a == [] {
      assert a + b == b;
    } else {
      assert (a + b)[1..] == a[1..] + b;
      ExecAppend(welcome, lines, PairStep(welcome, lines, s, a[0]).value, a[1..], b);
    }
  }

  /** One more whole move at the end of a run. */
  lemma Then(welcome: string, lines: seq<string>, run: seq<Move>, m: Move) returns (next: seq<Move>)
    requires Whole(run) && PairExec(welcome, lines, InitPair(), run).Some? && m.n >= ROOM
    requires PairStep(welcome, lines, PairExec(welcome, lines, InitPair(), run).value, m).Some?
    requires Fits(welcome, lines) && Lockstep(welcome, lines, PairExec(welcome, lines, InitPair(), run).value)
    ensures Whole(next) && Lockstep(welcome, lines,
        PairStep(welcome, lines, PairExec(welcome, lines, InitPair(), run).value, m).value)
    ensures PairExec(welcome, lines, InitPair(), next)
        == PairStep(welcome, lines, PairExec(welcome, lines, InitPair(), run).value, m)
  {
    var s := PairExec(welcome, lines, InitPair(), run).value;
    next := run + [m];
    ExecAppend(welcome, lines, InitPair(), run, [m]);
    StepLockstep(welcome, lines, s, m);
    assert [m][1..] == [];
    assert PairExec(welcome, lines, PairStep(welcome, lines, s, m).value, []) == PairStep(welcome, lines, s, m);
  }

  /** `k` plain lines can be answered in turn. */
  lemma {:induction false} Converse(welcome: string, lines: seq<string>, k: nat) returns (run: seq<Move>)
    requires Fits(welcome, lines) && k <= |lines| && forall i :: 0 <= i < k ==> Plain(lines[i])
    ensures Whole(run) && PairExec(welcome, lines, InitPair(), run).Some?
    ensures AtPrompt(welcome, lines, PairExec(welcome, lines, InitPair(), run).value, k)
  {
    if k == 0 {
      run := Greet(welcome, lines);
    } else {
      run := Converse(welcome, lines, k - 1);
      run := Exchange(welcome, lines, run, k - 1);
    }
  }

  ghost predicate AtPrompt(welcome: string, lines: seq<string>, s: Pair, k: nat) {
    Lockstep(welcome, lines, s) && s.client == Typing && s.next == k
  }

  lemma Greet(welcome: string, lines: seq<string>) returns (run: seq<Move>)
    requires Fits(welcome, lines)
    ensures Whole(run) && PairExec(welcome, lines, InitPair(), run).Some?
    ensures AtPrompt(welcome, lines, PairExec(welcome, lines, InitPair(), run).value, 0)
  {
    assert PairExec(welcome, lines, InitPair(), []) == Some(InitPair());
    run := Then(welcome, lines, [], EchoProcess(ROOM));
    run := Then(welcome, lines, run, ClientProcess(ROOM));
  }

  lemma Exchange(welcome: string, lines: seq<string>, before: seq<Move>, k: nat) returns (run: seq<Move>)
    requires Fits(welcome, lines) && k < |lines| && Plain(lines[k])
    requires Whole(before) && PairExec(welcome, lines, InitPair(), before).Some?
    requires AtPrompt(welcome, lines, PairExec(welcome, lines, InitPair(), before).value, k)
    ensures Whole(run) && PairExec(welcome, lines, InitPair(), run).Some?
    ensures AtPrompt(welcome, lines, PairExec(welcome, lines, InitPair(), run).value, k + 1)
  {
    run := Ask(welcome, lines, before, k);
    run := Then(welcome, lines, run, EchoProcess(ROOM));
    run := Then(welcome, lines, run, EchoProcess(ROOM));
    run := Then(welcome, lines, run, ClientProcess(ROOM));
  }

  lemma Ask(welcome: string, lines: seq<string>, before: seq<Move>, k: nat) returns (run: seq<Move>)
    requires Fits(welcome, lines) && k < |lines| && Plain(lines[k])
    requires Whole(before) && PairExec(welcome, lines, InitPair(), before).Some?
    requires AtPrompt(welcome, lines, PairExec(welcome, lines, InitPair(), before).value, k)
    ensures Whole(run) && PairExec(welcome, lines, InitPair(), run).Some?
    ensures var s := PairExec(welcome, lines, InitPair(), run).value;
            && Lockstep(welcome, lines, s) && s.client == AwaitReply && s.next == k + 1
            && s.echo == Listening && s.upGot < |s.up| && s.downGot == |s.down|
  {
    run := Then(welcome, lines, before, ClientProcess(ROOM));
    run := Then(welcome, lines, run, ClientProcess(ROOM));
  }

  /** With whole delivery the pair can deadlock exactly when the user enters an empty line before QUIT. */
  lemma DeadlocksExactly(welcome: string, lines: seq<string>)
    requires Fits(welcome, lines)
    ensures (exists run :: Deadlocks(welcome, lines, run)) <==> (exists k :: EmptyAt(lines, k))
  {
    if run :| Deadlocks(welcome, lines, run) {
      assert Lockstep(welcome, lines, InitPair());
      RunLockstep(welcome, lines, InitPair(), run);
      var s := PairExec(welcome, lines, InitPair(), run).value;
      WhyStuck(welcome, lines, s);
      assert EmptyAt(lines, s.next - 1);
    }
    if k :| EmptyAt(lines, k) {
      var d := FirstEmpty(lines, k);
      var run := Converse(welcome, lines, d);
      run := Then(welcome, lines, run, ClientProcess(ROOM));
      assert Deadlocks(welcome, lines, run);
    }
  }

  lemma FirstEmpty(lines: seq<string>, k: nat) returns (d: nat)
    requires EmptyAt(lines, k)
    ensures d < |lines| && lines[d] == "" && forall i :: 0 <= i < d ==> Plain(lines[i])
  {
    d := 0;
    while lines[d] != ""
      invariant d <= k && forall i :: 0 <= i < d ==> Plain(lines[i])
      decreases k - d
    {
      d := d + 1;
    }
  }

  // ---- why a reply never comes, and why a process fails, for every splitting ----

  /** Until it reads again, a client that has begun to send a line has received nothing of it. */
  ghost predicate Behind(welcome: string, lines: seq<string>, s: Pair) {
    && (s.client.AwaitWelcome? ==> s.downGot == 0)
    && (s.client.Sending? || s.client.AwaitReply? ==> 1 <= s.next <= |lines|)
    && (s.client.Sending? || (s.client.AwaitReply? && lines[s.next - 1] != "") ==>
          s.downGot <= |welcome| + |Flat(lines[..s.next - 1])|)
  }

  predicate NoQuit(lines: seq<string>, k: nat)
    requires k <= |lines|
  {
    forall i :: 0 <= i < k ==> lines[i] != QUIT
  }

  /** A process that leaves with success leaves by the quit command; one that leaves with failure was left
      behind by the other. */
  ghost predicate Partings(lines: seq<string>, s: Pair)
    requires s.next <= |lines|
  {
    && (match s.client
        case Sending(_) => s.next >= 1 && NoQuit(lines, s.next - 1)
        case ClientDone => s.next >= 1 && NoQuit(lines, s.next - 1) && lines[s.next - 1] == QUIT
        case ClientLeft(ok) =>
          if ok then s.next >= 1 && NoQuit(lines, s.next - 1) && lines[s.next - 1] == QUIT
          else s.echo == EchoLeft(true) && (s.next >= 1 ==> NoQuit(lines, s.next - 1))
        case _ => NoQuit(lines, s.next))
    && (s.echo == EchoLeft(false) ==> s.client == ClientLeft(true))
  }

  /** All that holds in every state, for every splitting. */
  ghost predicate Always(welcome: string, lines: seq<string>, s: Pair) {
    Ordered(welcome, s) && Sent(lines, s) && Behind(welcome, lines, s) && Partings(lines, s)
  }

  lemma ClientKeepsBehind(welcome: string, lines: seq<string>, s: Pair, n: nat)
    requires Ordered(welcome, s) && Sent(lines, s) && Behind(welcome, lines, s) && ClientMove(lines, s, n).Some?
    ensures Behind(welcome, lines, ClientMove(lines, s, n).value)
  {
    assert |s.down| <= |welcome| + |s.up|;
  }

  lemma ClientKeepsPartings(lines: seq<string>, s: Pair, n: nat)
    requires s.next <= |lines| && Partings(lines, s) && ClientMove(lines, s, n).Some?
    ensures var s' := ClientMove(lines, s, n).value; s'.next <= |lines| && Partings(lines, s')
  {
  }

  lemma EchoKeepsPartings(welcome: string, lines: seq<string>, s: Pair, n: nat)
    requires s.next <= |lines| && Partings(lines, s) && EchoMove(welcome, s, n).Some?
    ensures Partings(lines, EchoMove(welcome, s, n).value)
  {
  }

  lemma StepKeepsAlways(welcome: string, lines: seq<string>, s: Pair, m: Move)
    requires Always(welcome, lines, s) && PairStep(welcome, lines, s, m).Some?
    ensures Always(welcome, lines, PairStep(welcome, lines, s, m).value)
  {
    match m {
      case EchoProcess(n) =>
        EchoKeepsOrder(welcome, s, n);
        EchoKeepsPartings(welcome, lines, s, n);
      case ClientProcess(n) =>
        ClientKeepsOrder(welcome, lines, s, n);
        ClientKeepsSent(lines, s, n);
        ClientKeepsBehind(welcome, lines, s, n);
        ClientKeepsPartings(lines, s, n);
    }
  }

  lemma {:induction false} RunKeepsAlways(welcome: string, lines: seq<string>, s: Pair, run: seq<Move>)
    requires Always(welcome, lines, s) && PairExec(welcome, lines, s, run).Some?
    ensures Always(welcome, lines, PairExec(welcome, lines, s, run).value)
    decreases |run|
  {
    if run == [] {
    } else {
      StepKeepsAlways(welcome, lines, s, run[0]);
      RunKeepsAlways(welcome, lines, PairStep(welcome, lines, s, run[0]).value, run[1..]);
    }
  }

  /** The line was empty, everything before it has come back, and the echo process waits for more. */
  ghost predicate NoReplyDue(welcome: string, lines: seq<string>, s: Pair) {
    && s.downGot == |s.down| && s.echo.Listening? && s.down == welcome + s.up
    && 1 <= s.next <= |lines| && lines[s.next - 1] == ""
  }

  /** In every run, however reads and writes are split, a client that waits for a reply waits for ever
      exactly when none is due. */
  lemma WaitsForEver(welcome: string, lines: seq<string>, run: seq<Move>)
    requires PairExec(welcome, lines, InitPair(), run).Some?
    requires PairExec(welcome, lines, InitPair(), run).value.client.AwaitReply?
    ensures var s := PairExec(welcome, lines, InitPair(), run).value;
            Stuck(welcome, lines, s) <==> NoReplyDue(welcome, lines, s)
  {
    RunKeepsAlways(welcome, lines, InitPair(), run);
    StuckWaiting(welcome, lines, PairExec(welcome, lines, InitPair(), run).value);
  }

  lemma StuckWaiting(welcome: string, lines: seq<string>, s: Pair)
    requires Always(welcome, lines, s) && s.client.AwaitReply?
    ensures Stuck(welcome, lines, s) <==> NoReplyDue(welcome, lines, s)
  {
    if Stuck(welcome, lines, s) {
      assert PairStep(welcome, lines, s, EchoProcess(1)).None?;
      assert PairStep(welcome, lines, s, ClientProcess(1)).None?;
      FlatNext(lines, s.next - 1);
      assert s.down == welcome + s.up;
    }
  }

  /** In every run, a pair in which nobody can step waits for its user, has left, or waits for a reply that
      is not due: nobody waits for a process that has left. */
  lemma WhoIsStuck(welcome: string, lines: seq<string>, run: seq<Move>)
    requires welcome != "" && PairExec(welcome, lines, InitPair(), run).Some?
    requires Stuck(welcome, lines, PairExec(welcome, lines, InitPair(), run).value)
    ensures var s := PairExec(welcome, lines, InitPair(), run).value;
            || (s.client.Typing? && s.next == |lines|)
            || (s.client.ClientLeft? && s.echo.EchoLeft?)
            || (s.client.AwaitReply? && NoReplyDue(welcome, lines, s))
  {
    var s := PairExec(welcome, lines, InitPair(), run).value;
    RunKeepsAlways(welcome, lines, InitPair(), run);
    assert PairStep(welcome, lines, s, EchoProcess(1)).None?;
    assert PairStep(welcome, lines, s, ClientProcess(1)).None?;
    if s.client.AwaitReply? { StuckWaiting(welcome, lines, s); }
  }

  ghost predicate Hangs(welcome: string, lines: seq<string>, run: seq<Move>) {
    var r := PairExec(welcome, lines, InitPair(), run);
    r.Some? && r.value.client.AwaitReply? && Stuck(welcome, lines, r.value)
  }

  /** Some run, under any splitting, leaves the client waiting for ever exactly when the user enters an
      empty line before QUIT. */
  lemma HangsExactly(welcome: string, lines: seq<string>)
    requires Fits(welcome, lines)
    ensures (exists run :: Hangs(welcome, lines, run)) <==> (exists k :: EmptyAt(lines, k))
  {
    if run :| Hangs(welcome, lines, run) {
      RunKeepsAlways(welcome, lines, InitPair(), run);
      var s := PairExec(welcome, lines, InitPair(), run).value;
      StuckWaiting(welcome, lines, s);
      assert EmptyAt(lines, s.next - 1);
    }
    if k :| EmptyAt(lines, k) {
      DeadlocksExactly(welcome, lines);
      var run :| Deadlocks(welcome, lines, run);
      assert Hangs(welcome, lines, run);
    }
  }

  /** In every run: the echo process leaves with success only on four bytes equal to QUIT, and the client only
      on the line QUIT; a client that fails was left behind so, with no line QUIT before its last;
      and an echo process that fails was left behind by a client that quit. */
  lemma ExitsExplained(welcome: string, lines: seq<string>, run: seq<Move>)
    requires PairExec(welcome, lines, InitPair(), run).Some?
    ensures var s := PairExec(welcome, lines, InitPair(), run).value;
            && s.next <= |lines| && s.up <= Flat(lines[..s.next])
            && (s.echo == EchoLeft(true) ==> TookQuit(s))
            && (s.client == ClientLeft(true) ==> s.next >= 1 && lines[s.next - 1] == QUIT && NoQuit(lines, s.next - 1))
            && (s.client == ClientLeft(false) ==>
                  s.echo == EchoLeft(true) && TookQuit(s) && (s.next >= 1 ==> NoQuit(lines, s.next - 1)))
            && (s.echo == EchoLeft(false) ==> s.client == ClientLeft(true))
  {
    RunKeepsAlways(welcome, lines, InitPair(), run);
    var s := PairExec(welcome, lines, InitPair(), run).value;
    if s.client.Sending? { CutOff(lines, s.next, s.client.k); }
  }

  /** A client can be left behind: when a line only begins with the quit command, the rest is never echoed. */
  lemma FragmentQuits(welcome: string, lines: seq<string>, rest: string) returns (run: seq<Move>)
    requires 1 <= |welcome| <= ROOM && rest != "" && |lines| >= 1 && lines[0] == QUIT + rest
    ensures PairExec(welcome, lines, InitPair(), run).Some?
    ensures var s := PairExec(welcome, lines, InitPair(), run).value;
            && s.client == ClientLeft(false) && s.echo == EchoLeft(true)
            && s.up == lines[0] && s.down == welcome && s.replies == []
  {
    var s2 := Pair(Listening, Typing, "", 0, welcome, |welcome|, 0, []);
    var end := Pair(EchoLeft(true), ClientLeft(false), lines[0], |QUIT|, welcome, |welcome|, 1, []);
    run := TypeFragment(welcome, lines, rest);
    run := Chain(welcome, lines, s2.(client := AwaitWelcome, downGot := 0), end, ClientProcess(|welcome|), run);
    assert "" + welcome[0..|welcome|] == welcome;
    run := Chain(welcome, lines, InitPair(), end, EchoProcess(|welcome|), run);
  }

  lemma TypeFragment(welcome: string, lines: seq<string>, rest: string) returns (run: seq<Move>)
    requires rest != "" && |lines| >= 1 && lines[0] == QUIT + rest
    ensures PairExec(welcome, lines, Pair(Listening, Typing, "", 0, welcome, |welcome|, 0, []), run)
      == Some(Pair(EchoLeft(true), ClientLeft(false), lines[0], |QUIT|, welcome, |welcome|, 1, []))
  {
    var l := lines[0];
    var s2 := Pair(Listening, Typing, "", 0, welcome, |welcome|, 0, []);
    var s3 := s2.(client := Sending(0), next := 1);
    var s4 := s3.(client := AwaitReply, up := l);
    var s5 := s4.(echo := EchoDone, upGot := |QUIT|);
    var end := s5.(echo := EchoLeft(true), client := ClientLeft(false));
    assert l[0..|QUIT|] == QUIT;
    run := Chain(welcome, lines, s5.(echo := EchoLeft(true)), end, ClientProcess(0), []);
    run := Chain(welcome, lines, s5, end, EchoProcess(0), run);
    run := Chain(welcome, lines, s4, end, EchoProcess(|QUIT|), run);
    assert "" + l[0..|l|] == l;
    run := Chain(welcome, lines, s3, end, ClientProcess(|l|), run);
    run := Chain(welcome, lines, s2, end, ClientProcess(0), run);
  }

  lemma Chain(welcome: string, lines: seq<string>, s: Pair, end: Pair, m: Move, rest: seq<Move>)
      returns (run: seq<Move>)
    requires PairStep(welcome, lines, s, m).Some?
    requires PairExec(welcome, lines, PairStep(welcome, lines, s, m).value, rest) == Some(end)
    ensures PairExec(welcome, lines, s, run) == Some(end)
  {
    run := [m] + rest;
    assert run[1..] == rest;
  }

  // ---- what each process can do once the other has left ----

  /** Once the echo process has left nothing more is put on the wires, and a client that is sending stops where it is
      or fails. */
  lemma {:induction false} AfterEchoLeft(welcome: string, lines: seq<string>, s: Pair, run: seq<Move>)
    requires s.echo.EchoLeft? && PairExec(welcome, lines, s, run).Some?
    ensures var s' := PairExec(welcome, lines, s, run).value;
      && s'.echo == s.echo && s'.up == s.up && s'.down == s.down
      && (s.client.Sending? || s.client == ClientLeft(false) ==>
            s'.client == s.client || s'.client == ClientLeft(false))
    decreases |run|
  {
    if run == [] {
    } else {
      AfterEchoLeft(welcome, lines, PairStep(welcome, lines, s, run[0]).value, run[1..]);
    }
  }

  /** Once the client has left nothing more is put on the wires, and an echo process in the middle of an answer
      stops where it is or fails. */
  lemma {:induction false} AfterClientLeft(welcome: string, lines: seq<string>, s: Pair, run: seq<Move>)
    requires s.client.ClientLeft? && PairExec(welcome, lines, s, run).Some?
    ensures var s' := PairExec(welcome, lines, s, run).value;
      && s'.client == s.client && s'.up == s.up && s'.down == s.down
      && s'.downGot == s.downGot && s'.replies == s.replies && s'.next == s.next
      && ((s.echo.Echoing? && s.echo.k < |s.echo.msg|) || s.echo == EchoLeft(false) ==>
            s'.echo == s.echo || s'.echo == EchoLeft(false))
    decreases |run|
  {
    if run == [] {
    } else {
      AfterClientLeft(welcome, lines, PairStep(welcome, lines, s, run[0]).value, run[1..]);
    }
  }

  // ---- the replies are all that was read after the welcome, for every splitting ----

  /** `first` bytes were read as the welcome; each reply is one read, no longer than the buffer. */
  ghost predicate Collected(s: Pair, first: nat) {
    && first <= s.downGot <= |s.down| && first <= ROOM
    && Flat(s.replies) == s.down[first..s.downGot]
    && (forall i :: 0 <= i < |s.replies| ==> 1 <= |s.replies[i]| <= ROOM)
    && match s.client
       case AwaitWelcome => s.downGot == 0 && s.replies == [] && s.next == 0
       case Typing => |s.replies| == s.next
       case Sending(_) => |s.replies| + 1 == s.next
       case AwaitReply => |s.replies| + 1 == s.next
       case ClientDone => |s.replies| + 1 == s.next
       case ClientLeft(_) => |s.replies| <= s.next <= |s.replies| + 1
  }

  lemma FlatSnoc(lines: seq<string>, l: string)
    ensures Flat(lines + [l]) == Flat(lines) + l
  {
    assert (lines + [l])[..|lines|] == lines;
  }

  lemma ReplyCollected(s: Pair, s': Pair, first: nat, r: nat)
    requires Collected(s, first) && s.client.AwaitReply? && 1 <= r <= ROOM && s.downGot + r <= |s.down|
    requires var x := s.down[s.downGot..s.downGot + r];
      s' == s.(downGot := s.downGot + r, replies := s.replies + [x], client := Typing)
    ensures Collected(s', first)
  {
    var x := s.down[s.downGot..s.downGot + r];
    FlatSnoc(s.replies, x);
    assert s.down[first..s.downGot] + x == s.down[first..s.downGot + r];
  }

  lemma ClientCollects(lines: seq<string>, s: Pair, first: nat, n: nat) returns (first': nat)
    requires Collected(s, first) && ClientMove(lines, s, n).Some?
    ensures Collected(ClientMove(lines, s, n).value, first')
  {
    var s' := ClientMove(lines, s, n).value;
    first' := first;
    if s.client.AwaitWelcome? && s.downGot < |s.down| {
      first' := s'.downGot;
      WelcomeCollected(s, s');
    } else if s.client.AwaitReply? && s.downGot < |s.down| {
      ReplyCollected(s, s', first, Moved(n, Min(|s.down| - s.downGot, ROOM)));
    } else {
      NothingCollected(s, s', first);
    }
  }

  lemma WelcomeCollected(s: Pair, s': Pair)
    requires s.client.AwaitWelcome? && s.replies == [] && s.next == 0
    requires s' == s.(downGot := s'.downGot, client := Typing) && s'.downGot <= |s.down| && s'.downGot <= ROOM
    ensures Collected(s', s'.downGot)
  {
    assert Flat([]) == "" == s.down[s'.downGot..s'.downGot];
  }

  lemma NothingCollected(s: Pair, s': Pair, first: nat)
    requires Collected(s, first) && s'.down == s.down && s'.downGot == s.downGot && s'.replies == s.replies
    requires if s.client.Typing? then s'.next == s.next + 1 && (s'.client.Sending? || s'.client.AwaitReply?)
             else s'.next == s.next && !s'.client.AwaitWelcome? && !s'.client.Typing?
                  && (s.client.AwaitWelcome? || s.client.ClientLeft? ==> s'.client.ClientLeft?)
    ensures Collected(s', first)
  {
  }

  lemma EchoCollects(welcome: string, s: Pair, first: nat, n: nat)
    requires Collected(s, first) && Ordered(welcome, s) && EchoMove(welcome, s, n).Some?
    ensures Collected(EchoMove(welcome, s, n).value, first)
  {
    var s' := EchoMove(welcome, s, n).value;
    assert s'.down[..|s.down|] == s.down;
    assert s'.down[first..s.downGot] == s.down[first..s.downGot];
  }

  lemma {:induction false} RunCollects(welcome: string, lines: seq<string>, s: Pair, first: nat, run: seq<Move>)
      returns (first': nat)
    requires Collected(s, first) && Ordered(welcome, s) && PairExec(welcome, lines, s, run).Some?
    ensures Collected(PairExec(welcome, lines, s, run).value, first')
    decreases |run|
  {
    if run == [] {
      first' := first;
    } else {
      var s1 := PairStep(welcome, lines, s, run[0]).value;
      match run[0] {
        case EchoProcess(n) =>
          EchoCollects(welcome, s, first, n);
          EchoKeepsOrder(welcome, s, n);
          first' := first;
        case ClientProcess(n) =>
          first' := ClientCollects(lines, s, first, n);
          ClientKeepsOrder(welcome, lines, s, n);
      }
      first' := RunCollects(welcome, lines, s1, first', run[1..]);
    }
  }

  /** In every run, however reads and writes are split, the replies shown are all the bytes read after the first
      read, one read each, and there is one for each line but one that still waits or was the last. */
  lemma RepliesAreReads(welcome: string, lines: seq<string>, run: seq<Move>) returns (first: nat)
    requires PairExec(welcome, lines, InitPair(), run).Some?
    ensures Collected(PairExec(welcome, lines, InitPair(), run).value, first)
  {
    first := RunCollects(welcome, lines, InitPair(), 0, run);
  }
}
