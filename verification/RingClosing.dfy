/**
 The end of input. The consumer loads the write counter and, when it finds nothing to read, the closed flag, in two
 steps; the producer may move in between. It publishes only before it closes, and closes by a rule of its own.
 */
module RingClosing {
  import opened Bytes
  import opened RingProtocol

  /** `Loaded(w)` after the load of the write counter; `Over` once the input was found closed. */
  datatype Poll = Idle | Loaded(w: nat) | Over

  datatype Input = Input(ring: Ring, closed: bool, poll: Poll)

  datatype Act = Produce(m: Move) | Close | LoadWrite | CopyByte | ReleaseBytes | LoadClosed

  /** When the producer may close, by what it has sent and what the consumer has released. */
  type Rule = (seq<byte>, seq<byte>) -> bool

  predicate Can(s: Input, a: Act, rule: Rule) {
    && s.ring.Cap() > 0
    && match a
       case Produce(m) => !s.closed && (m.Scribble? || m.Publish?) && Enabled(s.ring, m)
       case Close => !s.closed && rule(s.ring.sent, s.ring.got)
       case LoadWrite => s.poll.Idle?
       case CopyByte => s.poll.Loaded? && s.ring.Read() + |s.ring.held| < s.poll.w && Enabled(s.ring, Copy)
       case ReleaseBytes => s.poll.Loaded? && s.ring.held != []
       case LoadClosed => s.poll.Loaded? && s.poll.w == s.ring.Read() && s.ring.held == []
  }

  function Next(s: Input, a: Act, rule: Rule): Input
    requires Can(s, a, rule)
  {
    match a
    case Produce(m) => s.(ring := Apply(s.ring, m))
    case Close => s.(closed := true)
    case LoadWrite => s.(poll := Loaded(s.ring.Write()))
    case CopyByte => s.(ring := Apply(s.ring, Copy))
    case ReleaseBytes => s.(ring := Apply(s.ring, Release), poll := Idle)
    case LoadClosed => s.(poll := if s.closed then Over else Idle)
  }

  predicate LegalActs(s: Input, acts: seq<Act>, rule: Rule)
    decreases |acts|
  {
    acts == [] || (Can(s, acts[0], rule) && LegalActs(Next(s, acts[0], rule), acts[1..], rule))
  }

  function After(s: Input, acts: seq<Act>, rule: Rule): Input
    requires LegalActs(s, acts, rule)
    decreases |acts|
  {
    if acts == [] then s else After(Next(s, acts[0], rule), acts[1..], rule)
  }

  function Opened(cells: seq<byte>, start: nat): Input {
    Input(Claimed(cells, start), false, Idle)
  }

  // A producer that closes only on a drained ring.

  /** The rule allows no close while a byte is unread. */
  ghost predicate ClosesDrained(rule: Rule, cap: nat) {
    forall sent: seq<byte>, got: seq<byte> ::
      got <= sent && |sent| <= |got| + cap && rule(sent, got) ==> sent == got
  }

  predicate Drained(s: Input) {
    && Queue(s.ring)
    && (s.closed || s.poll.Over? ==> s.closed && s.ring.sent == s.ring.got)
  }

  lemma NextDrained(s: Input, a: Act, rule: Rule)
    requires ClosesDrained(rule, s.ring.Cap()) && Drained(s) && Can(s, a, rule)
    ensures Drained(Next(s, a, rule)) && Next(s, a, rule).ring.Cap() == s.ring.Cap()
  {
    hide Apply, Enabled;
    match a
    case Produce(m) => MoveSafe(s.ring, m);
    case CopyByte => CopyKeeps(s.ring);
    case ReleaseBytes => ReleaseKeeps(s.ring);
    case _ =>
  }

  lemma CopyKeeps(r: Ring)
    requires Queue(r) && Enabled(r, Copy)
    ensures var t := Apply(r, Copy); Queue(t) && t.sent == r.sent && t.got == r.got && t.Cap() == r.Cap()
  {
    CopySafe(r);
  }

  lemma ReleaseKeeps(r: Ring)
    requires Queue(r)
    ensures var t := Apply(r, Release);
            Queue(t) && t.sent == r.sent && t.Cap() == r.Cap() && (r.sent == r.got ==> t.got == t.sent)
  {
    MoveSafe(r, Release);
  }

  lemma {:induction false} RunDrained(s: Input, acts: seq<Act>, rule: Rule)
    requires ClosesDrained(rule, s.ring.Cap()) && Drained(s) && LegalActs(s, acts, rule)
    ensures Drained(After(s, acts, rule))
    decreases |acts|
  {
    hide Next, Can, Drained, ClosesDrained;
    if acts == [] {
    } else {
      NextDrained(s, acts[0], rule);
      RunDrained(Next(s, acts[0], rule), acts[1..], rule);
    }
  }

  // A producer that may close with bytes unread.

  predicate Reaches(s: Input, acts: seq<Act>, rule: Rule, t: Input) {
    LegalActs(s, acts, rule) && After(s, acts, rule) == t
  }

  lemma ReachOne(s: Input, a: Act, rule: Rule)
    requires Can(s, a, rule)
    ensures Reaches(s, [a], rule, Next(s, a, rule))
  {
    hide Can, Next;
    var acts, t := [a], Next(s, a, rule);
    assert acts[0] == a && acts[1..] == [];
    assert LegalActs(t, acts[1..], rule) && After(t, acts[1..], rule) == t;
  }

  lemma {:induction false} ReachJoin(s: Input, xs: seq<Act>, t: Input, ys: seq<Act>, u: Input, rule: Rule)
    requires Reaches(s, xs, rule, t) && Reaches(t, ys, rule, u)
    ensures Reaches(s, xs + ys, rule, u)
    decreases |xs|
  {
    hide Can, Next;
    if xs == [] {
      assert xs + ys == ys;
    } else {
      assert (xs + ys)[1..] == xs[1..] + ys;
      ReachJoin(Next(s, xs[0], rule), xs[1..], t, ys, u, rule);
    }
  }

  /** Storing and publishing one byte. */
  lemma PublishOne(r: Ring, b: byte)
    requires Queue(r) && |r.sent| < |r.got| + r.Cap()
    ensures Enabled(r, Scribble(|r.sent|, b)) && Enabled(Apply(r, Scribble(|r.sent|, b)), Publish(1))
    ensures var t := Apply(Apply(r, Scribble(|r.sent|, b)), Publish(1));
            Queue(t) && t.sent == r.sent + [b] && SameButSent(r, t)
  {
    var m := Apply(r, Scribble(|r.sent|, b));
    ScribbleSafe(r, |r.sent|, b);
    PublishSafe(m, 1);
    assert Cell(m, |m.sent| + 0) == Cell(r, |r.sent|);
    assert Pending(m, 1)[0] == b && Pending(m, 1) == [b];
  }

  /** One byte more is published; nothing else moves. */
  lemma Publishes(s: Input, b: byte, rule: Rule) returns (acts: seq<Act>, t: Input)
    requires Queue(s.ring) && !s.closed && |s.ring.sent| < |s.ring.got| + s.ring.Cap()
    ensures Reaches(s, acts, rule, t) && Queue(t.ring) && !t.closed && t.poll == s.poll && SameButSent(s.ring, t.ring)
    ensures t.ring.sent == s.ring.sent + [b]
  {
    hide Apply, Enabled, Queue;
    PublishOne(s.ring, b);
    var first, second := Produce(Scribble(|s.ring.sent|, b)), Produce(Publish(1));
    ScribbleCap(s.ring, b);
    var mid := Next(s, first, rule);
    t := Next(mid, second, rule);
    ReachOne(s, first, rule);
    ReachOne(mid, second, rule);
    acts := [first] + [second];
    ReachJoin(s, [first], mid, [second], t, rule);
  }

  lemma ScribbleCap(r: Ring, b: byte)
    requires Queue(r) && Enabled(r, Scribble(|r.sent|, b))
    ensures r.Cap() > 0 && Apply(r, Scribble(|r.sent|, b)).Cap() > 0
  {
  }

  predicate SameButSent(r: Ring, t: Ring) {
    t.got == r.got && t.held == r.held && t.start == r.start && t.Cap() == r.Cap()
  }

  lemma {:induction false} PublishesAll(s: Input, data: seq<byte>, rule: Rule) returns (acts: seq<Act>, t: Input)
    requires Queue(s.ring) && !s.closed && |s.ring.sent| + |data| <= |s.ring.got| + s.ring.Cap()
    ensures Reaches(s, acts, rule, t) && Queue(t.ring) && !t.closed && t.poll == s.poll && SameButSent(s.ring, t.ring)
    ensures t.ring.sent == s.ring.sent + data
    decreases |data|
  {
    hide Queue;
    acts, t := [], s;
    if data != [] {
      var one, mid := Publishes(s, data[0], rule);
      var rest;
      rest, t := PublishesAll(mid, data[1..], rule);
      acts := one + rest;
      ReachJoin(s, one, mid, rest, t, rule);
      assert s.ring.sent + data == s.ring.sent + [data[0]] + data[1..];
    } else {
      assert s.ring.sent + data == s.ring.sent;
    }
  }

  /** An idle consumer on a drained, open ring. */
  predicate AtRest(s: Input) {
    Queue(s.ring) && !s.closed && s.poll.Idle? && s.ring.sent == s.ring.got && s.ring.held == []
  }

  /** The consumer's whole poll of one published byte. */
  lemma Fetches(s: Input, rule: Rule) returns (acts: seq<Act>, t: Input)
    requires Queue(s.ring) && !s.closed && s.poll.Idle? && s.ring.held == [] && |s.ring.sent| == |s.ring.got| + 1
    ensures Reaches(s, acts, rule, t) && AtRest(t) && t.ring.sent == s.ring.sent && t.ring.Cap() == s.ring.Cap()
  {
    var a := Next(s, LoadWrite, rule);
    CopySafe(s.ring);
    var b := Next(a, CopyByte, rule);
    t := Next(b, ReleaseBytes, rule);
    ReachOne(s, LoadWrite, rule);
    ReachOne(a, CopyByte, rule);
    ReachOne(b, ReleaseBytes, rule);
    ReachJoin(s, [LoadWrite], a, [CopyByte], b, rule);
    ReachJoin(s, [LoadWrite] + [CopyByte], b, [ReleaseBytes], t, rule);
    acts := [LoadWrite] + [CopyByte] + [ReleaseBytes];
  }

  lemma {:induction false} DeliversAll(s: Input, data: seq<byte>, rule: Rule) returns (acts: seq<Act>, t: Input)
    requires AtRest(s)
    ensures Reaches(s, acts, rule, t) && AtRest(t) && t.ring.sent == s.ring.sent + data && t.ring.Cap() == s.ring.Cap()
    decreases |data|
  {
    acts, t := [], s;
    if data != [] {
      var put, mid := Publishes(s, data[0], rule);
      var take, there := Fetches(mid, rule);
      var rest;
      rest, t := DeliversAll(there, data[1..], rule);
      hide Queue;
      ReachJoin(s, put, mid, take, there, rule);
      ReachJoin(s, put + take, there, rest, t, rule);
      acts := put + take + rest;
      assert s.ring.sent + data == s.ring.sent + [data[0]] + data[1..];
    } else {
      assert s.ring.sent + data == s.ring.sent;
    }
  }

  /**
   A rule that lets the producer close with bytes unread loses them in some run: all come in between the two loads.
   */
  lemma LosingRun(cells: seq<byte>, start: nat, rule: Rule, sent: seq<byte>, got: seq<byte>) returns (acts: seq<Act>)
    requires |cells| > 0 && got < sent && |sent| <= |got| + |cells| && rule(sent, got)
    ensures LegalActs(Opened(cells, start), acts, rule)
    ensures var s := After(Opened(cells, start), acts, rule); s.poll.Over? && s.ring.sent == sent && s.ring.got == got
  {
    var s := Opened(cells, start);
    var before, rest := DeliversAll(s, got, rule);
    assert [] + got == got;
    ReachOne(rest, LoadWrite, rule);
    var loaded := Next(rest, LoadWrite, rule);
    var more, full := PublishesAll(loaded, sent[|got|..], rule);
    assert got + sent[|got|..] == sent;
    hide Queue;
    ReachOne(full, Close, rule);
    var shut := Next(full, Close, rule);
    ReachOne(shut, LoadClosed, rule);
    var over := Next(shut, LoadClosed, rule);
    ReachJoin(s, before, rest, [LoadWrite], loaded, rule);
    ReachJoin(s, before + [LoadWrite], loaded, more, full, rule);
    ReachJoin(s, before + [LoadWrite] + more, full, [Close], shut, rule);
    acts := before + [LoadWrite] + more + [Close];
    ReachJoin(s, acts, shut, [LoadClosed], over, rule);
    acts := acts + [LoadClosed];
  }

  /** An input found closed was delivered whole. */
  predicate LosesNothing(s: Input) {
    s.poll.Over? ==> s.ring.got == s.ring.sent
  }

  /**
   An input found closed was delivered whole, in every run, exactly when the producer closes only on a drained ring.
   */
  lemma NothingLostAtCloseExactly(cells: seq<byte>, start: nat, rule: Rule)
    requires |cells| > 0
    ensures ClosesDrained(rule, |cells|) <==>
            forall acts :: LegalActs(Opened(cells, start), acts, rule) ==>
                             LosesNothing(After(Opened(cells, start), acts, rule))
  {
    var s := Opened(cells, start);
    if ClosesDrained(rule, |cells|) {
      forall acts | LegalActs(s, acts, rule)
        ensures LosesNothing(After(s, acts, rule))
      {
        RunDrained(s, acts, rule);
      }
    } else {
      var sent: seq<byte>, got: seq<byte> :| got <= sent && |sent| <= |got| + |cells| && rule(sent, got) && sent != got;
      var acts := LosingRun(cells, start, rule, sent, got);
    }
  }
}
