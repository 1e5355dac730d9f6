/** The circular buffer never looks at its items: renaming them commutes with every step. */
module RingMap {
  import opened Sums
  import opened Ring

  function MapSeq(f: int -> int, s: seq<int>): seq<int> {
    seq(|s|, i requires 0 <= i < |s| => f(s[i]))
  }

  function MapThread(f: int -> int, h: Thread): Thread { Thread(h.pc, f(h.item), MapSeq(f, h.log)) }

  function MapThreads(f: int -> int, ts: seq<Thread>): seq<Thread> {
    seq(|ts|, t requires 0 <= t < |ts| => MapThread(f, ts[t]))
  }

  function MapSide(f: int -> int, me: Side): Side {
    me.(threads := MapThreads(f, me.threads), done := MapSeq(f, me.done))
  }

  function MapState(f: int -> int, s: State): State {
    State(MapSeq(f, s.buf), MapSide(f, s.w), MapSide(f, s.r))
  }

  function MapView(f: int -> int, v: View): View {
    v.(buf := MapSeq(f, v.buf), me := MapSide(f, v.me))
  }

  lemma MapSnoc(f: int -> int, s: seq<int>, x: int)
    ensures MapSeq(f, s + [x]) == MapSeq(f, s) + [f(x)]
  {
  }

  lemma MapUpdate(f: int -> int, s: seq<int>, i: nat, x: int)
    requires i < |s|
    ensures MapSeq(f, s[i := x]) == MapSeq(f, s)[i := f(x)]
  {
  }

  lemma MapThreadUpdate(f: int -> int, ts: seq<Thread>, t: nat, h: Thread)
    requires t < |ts|
    ensures MapThreads(f, ts[t := h]) == MapThreads(f, ts)[t := MapThread(f, h)]
  {
  }

  lemma LocalMap(f: int -> int, kind: Kind, lock: bool, size: nat, g: Regs, x: int)
    ensures var r := Local(kind, lock, size, g, x);
      Local(kind, lock, size, g.(h := MapThread(f, g.h)), f(x))
        == if r.None? then None else Some(r.value.(h := MapThread(f, r.value.h)))
  {
    MapSnoc(f, g.h.log, x);
  }

  lemma AccessMap(f: int -> int, v: View, t: nat, i: nat)
    requires t < |v.me.threads| && i < |v.buf|
    ensures Access(MapView(f, v), t, i) == MapView(f, Access(v, t, i))
  {
    var h := v.me.threads[t];
    var x := if v.kind.Write? then h.item else v.buf[i];
    MapSnoc(f, v.me.done, x);
    MapSnoc(f, h.log, x);
    MapUpdate(f, v.buf, i, x);
    MapThreadUpdate(f, v.me.threads, t, Access(v, t, i).me.threads[t]);
  }

  lemma SideStepMap(f: int -> int, v: View, t: nat, x: int)
    requires t < |v.me.threads|
    ensures var r := SideStep(v, t, x);
      SideStep(MapView(f, v), t, f(x)) == if r.None? then None else Some(MapView(f, r.value))
  {
    if v.me.threads[t].pc.Slot? {
      if v.me.threads[t].pc.i < |v.buf| { AccessMap(f, v, t, v.me.threads[t].pc.i); }
    } else {
      var g := Local(v.kind, v.lock, |v.buf|, Get(v, t), x);
      LocalMap(f, v.kind, v.lock, |v.buf|, Get(v, t), x);
      if g.Some? { MapThreadUpdate(f, v.me.threads, t, g.value.h); }
    }
  }

  /** Data independence. */
  lemma StepMap(cfg: Config, s: State, a: Action, f: int -> int)
    ensures var r := Step(cfg, s, a);
      Step(cfg, MapState(f, s), a.(x := f(a.x))) == if r.None? then None else Some(MapState(f, r.value))
  {
    var v := ViewOf(cfg, s, a.kind);
    assert ViewOf(cfg, MapState(f, s), a.kind) == MapView(f, v);
    if a.t < |v.me.threads| { SideStepMap(f, v, a.t, a.x); }
  }

  /** Only the step that makes an item looks at the action's item. */
  lemma OthersIgnoreItem(cfg: Config, s: State, t: nat, x: int, y: int)
    requires t < |s.w.threads| && !s.w.threads[t].pc.Idle?
    ensures Step(cfg, s, Action(Write, t, x)) == Step(cfg, s, Action(Write, t, y))
  {
  }

  lemma WfMap(cfg: Config, s: State, f: int -> int)
    requires Wf(cfg, s)
    ensures Wf(cfg, MapState(f, s))
  {
    ViewWfMap(ViewOf(cfg, s, Write), f);
    ViewWfMap(ViewOf(cfg, s, Read), f);
    assert ViewOf(cfg, MapState(f, s), Write) == MapView(f, ViewOf(cfg, s, Write));
    assert ViewOf(cfg, MapState(f, s), Read) == MapView(f, ViewOf(cfg, s, Read));
  }

  lemma ViewWfMap(v: View, f: int -> int)
    requires ViewWf(v)
    ensures ViewWf(MapView(f, v))
  {
    forall t | 0 <= t < |v.me.threads| ensures PcWf(MapView(f, v), MapView(f, v).me.threads[t].pc) {
      assert PcWf(v, v.me.threads[t].pc);
    }
  }

  lemma InitMap(cfg: Config, producers: nat, consumers: nat, f: int -> int)
    requires f(0) == 0
    ensures MapState(f, Init(cfg, producers, consumers)) == Init(cfg, producers, consumers)
  {
    var s := Init(cfg, producers, consumers);
    assert MapSeq(f, s.buf) == s.buf;
    assert MapSeq(f, []) == [] && MapThread(f, Thread(Idle, 0, [])) == Thread(Idle, 0, []);
    assert MapThreads(f, s.w.threads) == s.w.threads;
    assert MapThreads(f, s.r.threads) == s.r.threads;
  }

  // ---- items from a known range ----

  predicate Below(n: nat, s: seq<int>) { forall k :: 0 <= k < |s| ==> 0 <= s[k] < n }

  predicate SideBelow(n: nat, me: Side) {
    && Below(n, me.done)
    && forall t :: 0 <= t < |me.threads| ==> 0 <= me.threads[t].item < n && Below(n, me.threads[t].log)
  }

  predicate ItemsBelow(n: nat, s: State) { Below(n, s.buf) && SideBelow(n, s.w) && SideBelow(n, s.r) }

  lemma StepBelow(cfg: Config, s: State, a: Action, n: nat)
    requires ItemsBelow(n, s) && 0 <= a.x < n && Step(cfg, s, a).Some?
    ensures ItemsBelow(n, Step(cfg, s, a).value)
  {
    var v := ViewOf(cfg, s, a.kind);
    SideStepBelow(v, a.t, a.x, n);
  }

  lemma SideStepBelow(v: View, t: nat, x: int, n: nat)
    requires Below(n, v.buf) && SideBelow(n, v.me) && 0 <= x < n && t < |v.me.threads| && SideStep(v, t, x).Some?
    ensures Below(n, SideStep(v, t, x).value.buf) && SideBelow(n, SideStep(v, t, x).value.me)
  {
    var u := SideStep(v, t, x).value;
    assert Below(n, v.me.threads[t].log);
    assert u.me.threads == v.me.threads[t := u.me.threads[t]];
  }

  /** Two renamings that agree on the range give the same state. */
  lemma MapAgrees(n: nat, s: State, f: int -> int, g: int -> int)
    requires ItemsBelow(n, s) && forall i :: 0 <= i < n ==> f(i) == g(i)
    ensures MapState(f, s) == MapState(g, s)
  {
    assert MapSeq(f, s.buf) == MapSeq(g, s.buf);
    SideAgrees(n, s.w, f, g);
    SideAgrees(n, s.r, f, g);
  }

  lemma SideAgrees(n: nat, me: Side, f: int -> int, g: int -> int)
    requires SideBelow(n, me) && forall i :: 0 <= i < n ==> f(i) == g(i)
    ensures MapSide(f, me) == MapSide(g, me)
  {
    assert MapSeq(f, me.done) == MapSeq(g, me.done);
    forall t | 0 <= t < |me.threads| ensures MapThread(f, me.threads[t]) == MapThread(g, me.threads[t]) {
      assert MapSeq(f, me.threads[t].log) == MapSeq(g, me.threads[t].log);
    }
    assert MapThreads(f, me.threads) == MapThreads(g, me.threads);
  }
}
