/** The subprocess transport: reader thread, bounded channel, buffered reader, deadline and poison. */
module Subprocess {
  import opened Bytes

  const CAPACITY: nat := 8
  const READ_SIZE: nat := 0x1_0000

  datatype Message = Data(bytes: seq<byte>) | Eof | Failed

  /** What a read returns to the caller. */
  datatype Reply = Chunk(bytes: seq<byte>) | EndOfStream | ReadFailed | TimedOut

  /**
   * The reader thread: `taken` is what stdout has yielded, `ended` that it will yield no more, `lost` what the thread
   * gave up when it was told to stop.
   */
  datatype Thread = Thread(
    taken: seq<byte>, ended: bool, sending: Option<Message>, sawFull: bool, done: bool, lost: seq<byte>)

  /** The caller's side: `waiting` is the size of a read that is blocked on the channel. */
  datatype Reader = Reader(
    buffered: seq<byte>, offset: nat, waiting: Option<nat>, reply: Option<Reply>, returned: seq<byte>)

  datatype Turn = Turn(now: nat, deadline: Option<nat>, active: bool, poisoned: bool, stopping: bool)

  datatype State = State(thread: Thread, channel: seq<Message>, reader: Reader, turn: Turn)

  /** `timeout` is the configured budget of a turn; an instant past `horizon` does not exist. */
  datatype Config = Config(timeout: Option<nat>, horizon: nat)

  datatype Event =
    | StdoutYields(bytes: seq<byte>) | StdoutEnds(failed: bool) | TrySend | CheckStopping
    | Advance(ticks: nat) | StartTurn | FinishTurn | Close
    | Take(n: nat) | BeginRead(n: nat) | Receive | Disconnected | RecvTimeout

  const FRESH := State(Thread([], false, None, false, false, []), [], Reader([], 0, None, None, []),
                       Turn(0, None, false, false, false))

  predicate Enabled(s: State, e: Event) {
    var idle := s.reader.waiting.None?;
    match e
    case StdoutYields(b) => !s.thread.done && !s.thread.ended && s.thread.sending.None? && 0 < |b| <= READ_SIZE
    case StdoutEnds(_) => !s.thread.done && !s.thread.ended && s.thread.sending.None?
    case TrySend => s.thread.sending.Some? && !s.thread.sawFull
    case CheckStopping => s.thread.sending.Some? && s.thread.sawFull
    case Advance(_) => true
    case StartTurn => !s.turn.active
    case FinishTurn => s.turn.active && idle
    case Close => idle
    case Take(n) => s.turn.active && idle && n > 0 && s.reader.offset < |s.reader.buffered|
    case BeginRead(n) => s.turn.active && idle && n > 0 && s.reader.offset >= |s.reader.buffered|
    case Receive => !idle && s.channel != []
    case Disconnected => !idle && s.channel == [] && s.thread.done
    case RecvTimeout => !idle && Due(s.turn)
  }

  predicate Due(t: Turn) {
    t.deadline.Some? && t.now >= t.deadline.value
  }

  function Expire(t: Turn): Turn {
    t.(poisoned := true, stopping := true)
  }

  function Answer(r: Reader, a: Reply): Reader {
    r.(waiting := None, reply := Some(a))
  }

  function TakeFrom(r: Reader, n: nat): Reader
    requires r.offset < |r.buffered|
  {
    var count := Min(n, |r.buffered| - r.offset);
    var bytes := r.buffered[r.offset..r.offset + count];
    Answer(r.(offset := r.offset + count, returned := r.returned + bytes), Chunk(bytes))
  }

  function Received(r: Reader, m: Message): Reader
    requires r.waiting.Some?
  {
    match m
    case Data(b) => if b == [] then r else TakeFrom(r.(buffered := b, offset := 0), r.waiting.value)
    case Eof => Answer(r, EndOfStream)
    case Failed => Answer(r, ReadFailed)
  }

  function Started(c: Config, t: Turn): Turn {
    if c.timeout.None? then t.(active := true)
    else if t.poisoned || t.now + c.timeout.value > c.horizon then t
    else t.(active := true, deadline := Some(t.now + c.timeout.value))
  }

  function Step(c: Config, s: State, e: Event): State
    requires Enabled(s, e)
  {
    var t, r := s.thread, s.reader;
    match e
    case StdoutYields(b) => s.(thread := t.(taken := t.taken + b, sending := Some(Data(b))))
    case StdoutEnds(failed) => s.(thread := t.(ended := true, sending := Some(if failed then Failed else Eof)))
    case TrySend =>
      if |s.channel| < CAPACITY then
        s.(channel := s.channel + [t.sending.value], thread := t.(sending := None, done := !t.sending.value.Data?))
      else s.(thread := t.(sawFull := true))
    case CheckStopping =>
      s.(thread := if s.turn.stopping
                   then t.(lost := Payload(t.sending.value), sending := None, sawFull := false, done := true)
                   else t.(sawFull := false))
    case Advance(ticks) => s.(turn := s.turn.(now := s.turn.now + ticks))
    case StartTurn => s.(turn := Started(c, s.turn))
    case FinishTurn => s.(turn := s.turn.(active := false, deadline := None))
    case Close => s.(turn := s.turn.(stopping := true))
    case Take(n) => s.(reader := TakeFrom(r, n))
    case BeginRead(n) =>
      var empty := r.(buffered := [], offset := 0);
      if Due(s.turn) then s.(reader := Answer(empty, TimedOut), turn := Expire(s.turn))
      else s.(reader := empty.(waiting := Some(n)))
    case Receive => s.(channel := s.channel[1..], reader := Received(r, s.channel[0]))
    case Disconnected => s.(reader := Answer(r, EndOfStream))
    case RecvTimeout => s.(reader := Answer(r, TimedOut), turn := Expire(s.turn))
  }

  predicate Legal(c: Config, s: State, es: seq<Event>)
    decreases |es|
  {
    es == [] || (Enabled(s, es[0]) && Legal(c, Step(c, s, es[0]), es[1..]))
  }

  function Run(c: Config, s: State, es: seq<Event>): State
    requires Legal(c, s, es)
    decreases |es|
  {
    if es == [] then s else Run(c, Step(c, s, es[0]), es[1..])
  }

  // Bytes in flight.

  /** The bytes a message carries. */
  function Payload(m: Message): seq<byte> {
    if m.Data? then m.bytes else []
  }

  function Payloads(ms: seq<Message>): seq<byte> {
    if ms == [] then [] else Payload(ms[0]) + Payloads(ms[1..])
  }

  function Unread(r: Reader): seq<byte> {
    if r.offset <= |r.buffered| then r.buffered[r.offset..] else []
  }

  /** What the thread holds or gave up. */
  function Held(t: Thread): seq<byte> {
    (if t.sending.Some? then Payload(t.sending.value) else []) + t.lost
  }

  /** Every byte stdout yielded is returned, buffered, queued, being sent or given up, in this order. */
  predicate Flows(s: State) {
    s.reader.returned + (Unread(s.reader) + (Payloads(s.channel) + Held(s.thread))) == s.thread.taken
  }

  /** Only the last message of a thread that has ended carries no data. */
  predicate TidyMessages(t: Thread, ms: seq<Message>) {
    && (forall i :: 0 <= i < |ms| && ms[i].Data? ==> ms[i].bytes != [])
    && (forall i :: 0 <= i < |ms| && !ms[i].Data? ==> i == |ms| - 1 && t.done)
  }

  /** Only a thread told to stop gives bytes up. */
  predicate TidyThread(t: Thread, stopping: bool) {
    && (t.sending.Some? ==> !t.done && (t.sending.value.Data? ==> t.sending.value.bytes != []))
    && (t.sending.Some? && !t.sending.value.Data? ==> t.ended)
    && (t.ended && !t.done ==> t.sending.Some? && !t.sending.value.Data?)
    && (t.done && !stopping ==> t.ended && t.lost == [])
    && (!t.done ==> t.lost == [])
  }

  predicate TidyReader(r: Reader) {
    r.offset <= |r.buffered| && (r.waiting.Some? ==> r.waiting.value > 0 && r.buffered == [])
  }

  predicate Tidy(s: State) {
    TidyMessages(s.thread, s.channel) && TidyThread(s.thread, s.turn.stopping) && TidyReader(s.reader)
  }

  lemma {:induction false} PayloadsPush(ms: seq<Message>, m: Message)
    ensures Payloads(ms + [m]) == Payloads(ms) + Payload(m)
    decreases |ms|
  {
    if ms == [] {
      assert ms + [m] == [m];
    } else {
      hide Payload;
      assert (ms + [m])[0] == ms[0] && (ms + [m])[1..] == ms[1..] + [m];
      PayloadsPush(ms[1..], m);
      Regroup(Payload(ms[0]), Payloads(ms[1..]), Payload(m));
    }
  }

  lemma ReceivedTidy(s: State)
    requires Tidy(s) && Enabled(s, Receive)
    ensures TidyReader(Received(s.reader, s.channel[0])) && TidyMessages(s.thread, s.channel[1..])
  {
    assert forall i :: 0 <= i < |s.channel[1..]| ==> s.channel[1..][i] == s.channel[i + 1];
  }

  lemma StepTidy(c: Config, s: State, e: Event)
    requires Tidy(s) && Enabled(s, e)
    ensures Tidy(Step(c, s, e))
  {
    if e.Receive? {
      hide TidyMessages, TidyThread, TidyReader;
      ReceivedTidy(s);
    }
  }

  /** What a take returns is the front of what was unread. */
  lemma TakeSplits(r: Reader, n: nat) returns (b: seq<byte>)
    requires r.offset < |r.buffered|
    ensures TakeFrom(r, n).returned == r.returned + b && Unread(r) == b + Unread(TakeFrom(r, n))
  {
    b := r.buffered[r.offset..TakeFrom(r, n).offset];
  }

  lemma Shift(a: seq<byte>, b: seq<byte>, c: seq<byte>, d: seq<byte>)
    ensures a + ((b + c) + d) == (a + b) + (c + d)
  {
    Regroup(b, c, d);
    Regroup(a, b, c + d);
  }

  lemma TakeFlows(s: State, n: nat)
    requires Flows(s) && s.reader.offset < |s.reader.buffered|
    ensures Flows(s.(reader := TakeFrom(s.reader, n)))
  {
    hide TakeFrom, Unread, Payloads, Held;
    var b := TakeSplits(s.reader, n);
    Shift(s.reader.returned, b, Unread(TakeFrom(s.reader, n)), Payloads(s.channel) + Held(s.thread));
  }

  lemma SendFlows(s: State, t: Thread)
    requires Flows(s) && s.thread.sending.Some? && t.sending.None? && s.thread.lost == [] && t.taken == s.thread.taken
    ensures t.lost == [] ==> Flows(s.(channel := s.channel + [s.thread.sending.value], thread := t))
    ensures t.lost == Payload(s.thread.sending.value) ==> Flows(s.(thread := t))
  {
    var m := s.thread.sending.value;
    assert Held(s.thread) == Payload(m) && Held(t) == t.lost;
    hide Payloads, Payload, Unread, Held;
    PayloadsPush(s.channel, m);
    assert (Payloads(s.channel) + Payload(m)) + [] == Payloads(s.channel) + Payload(m);
  }

  lemma ReceiveFlows(s: State)
    requires Flows(s) && s.channel != [] && Unread(s.reader) == []
    ensures Flows(s.(channel := s.channel[1..], reader := s.reader.(buffered := Payload(s.channel[0]), offset := 0)))
  {
    var m, rest := s.channel[0], s.channel[1..];
    assert Payload(m)[0..] == Payload(m);
    assert [] + (Payloads(s.channel) + Held(s.thread)) == Payload(m) + (Payloads(rest) + Held(s.thread));
  }

  lemma YieldFlows(s: State, b: seq<byte>, t: Thread)
    requires Flows(s) && Held(s.thread) == [] && t.taken == s.thread.taken + b && Held(t) == b
    ensures Flows(s.(thread := t))
  {
    var ready := Payloads(s.channel);
    assert ready + [] == ready;
    assert s.reader.returned + (Unread(s.reader) + (ready + b)) == s.reader.returned + (Unread(s.reader) + ready) + b;
  }

  lemma ReadFlows(c: Config, s: State, e: Event)
    requires Flows(s) && Tidy(s) && Enabled(s, e) && (e.Take? || e.BeginRead? || e.Receive?)
    ensures Flows(Step(c, s, e))
  {
    hide TidyThread;
    match e
    case Take(n) => TakeFlows(s, n);
    case BeginRead(_) => assert Unread(s.reader) == [];
    case Receive =>
      ReceiveFlows(s);
      var r := s.reader.(buffered := Payload(s.channel[0]), offset := 0);
      if s.channel[0].Data? {
        TakeFlows(s.(channel := s.channel[1..], reader := r), s.reader.waiting.value);
      } else {
        assert Unread(r) == Unread(s.reader) == [];
      }
  }

  lemma StepFlows(c: Config, s: State, e: Event)
    requires Flows(s) && Tidy(s) && Enabled(s, e)
    ensures Flows(Step(c, s, e))
  {
    hide TidyMessages, TidyReader;
    var t := Step(c, s, e).thread;
    match e
    case StdoutYields(b) =>
      assert b + [] == b;
      YieldFlows(s, b, t);
    case TrySend => if |s.channel| < CAPACITY { SendFlows(s, t); }
    case CheckStopping => if s.turn.stopping { SendFlows(s, t); }
    case Take(_) => ReadFlows(c, s, e);
    case BeginRead(_) => ReadFlows(c, s, e);
    case Receive => ReadFlows(c, s, e);
    case _ =>
  }

  lemma {:induction false} RunFlows(c: Config, s: State, es: seq<Event>)
    requires Flows(s) && Tidy(s) && Legal(c, s, es)
    ensures Flows(Run(c, s, es)) && Tidy(Run(c, s, es))
    decreases |es|
  {
    hide Flows, Tidy, Step, Enabled;
    if es == [] {
    } else {
      StepTidy(c, s, es[0]);
      StepFlows(c, s, es[0]);
      RunFlows(c, Step(c, s, es[0]), es[1..]);
    }
  }

  /** In every run and for any read sizes, the bytes returned are a gap-free prefix of what stdout yielded. */
  lemma ReturnedIsPrefix(c: Config, es: seq<Event>)
    requires Legal(c, FRESH, es)
    ensures var s := Run(c, FRESH, es); s.reader.returned <= s.thread.taken
  {
    assert Flows(FRESH) && Tidy(FRESH);
    RunFlows(c, FRESH, es);
  }

  /** Unless the transport was told to stop, an end of stream or a read error comes after the last byte, not before. */
  lemma EndIsComplete(c: Config, es: seq<Event>, e: Event)
    requires Legal(c, FRESH, es) && Enabled(Run(c, FRESH, es), e) && (e.Receive? || e.Disconnected?)
    ensures var s, s' := Run(c, FRESH, es), Step(c, Run(c, FRESH, es), e);
            !s.turn.stopping ==>
              && s'.reader.reply.Some?
              && (!s'.reader.reply.value.Chunk? ==> s'.thread.ended && s'.reader.returned == s'.thread.taken)
  {
    assert Flows(FRESH) && Tidy(FRESH);
    RunFlows(c, FRESH, es);
    var s := Run(c, FRESH, es);
    if e.Receive? && !s.channel[0].Data? { assert Payloads(s.channel) == [] + Payloads([]); }
  }

  // A clean end and a failure are told apart.

  predicate EndsWith(es: seq<Event>, failed: bool) {
    StdoutEnds(failed) in es
  }

  /** A closing message that is on its way says how stdout ended. */
  predicate Announced(s: State, es: seq<Event>, m: Message, failed: bool) {
    m in s.channel || s.thread.sending == Some(m) ==> EndsWith(es, failed)
  }

  /** The events so far account for what is on its way; stdout ends once. */
  predicate Told(s: State, es: seq<Event>) {
    && Announced(s, es, Failed, true) && Announced(s, es, Eof, false)
    && (s.thread.ended <==> EndsWith(es, true) || EndsWith(es, false))
    && !(EndsWith(es, true) && EndsWith(es, false))
  }

  lemma StepTold(c: Config, s: State, es: seq<Event>, e: Event)
    requires Told(s, es) && Enabled(s, e)
    ensures Told(Step(c, s, e), es + [e])
  {
    var t := Step(c, s, e);
    assert forall b :: EndsWith(es + [e], b) <==> EndsWith(es, b) || e == StdoutEnds(b);
    assert forall m :: m in t.channel ==> m in s.channel || s.thread.sending == Some(m);
  }

  lemma {:induction false} RunTold(c: Config, es: seq<Event>)
    requires Legal(c, FRESH, es)
    ensures Told(Run(c, FRESH, es), es)
    decreases |es|
  {
    hide Step, Enabled, Told;
    if es == [] {
      FreshTold();
    } else {
      var before, e := es[..|es| - 1], es[|es| - 1];
      assert es == before + [e];
      RunPrefix(c, FRESH, before, e);
      RunTold(c, before);
      StepTold(c, Run(c, FRESH, before), before, e);
    }
  }

  lemma FreshTold()
    ensures Told(FRESH, [])
  {
  }

  lemma {:induction false} RunPrefix(c: Config, s: State, es: seq<Event>, e: Event)
    requires Legal(c, s, es + [e])
    ensures Legal(c, s, es) && Enabled(Run(c, s, es), e) && Run(c, s, es + [e]) == Step(c, Run(c, s, es), e)
    decreases |es|
  {
    hide Step, Enabled;
    if es == [] {
      assert es + [e] == [e] && [e][1..] == [];
    } else {
      assert (es + [e])[1..] == es[1..] + [e];
      RunPrefix(c, Step(c, s, es[0]), es[1..], e);
    }
  }

  /**
   In every run, a read is told of a failure only when stdout failed, and of an end by a message only when stdout ended
   cleanly; a run never has both.
   */
  lemma EndsAreTold(c: Config, es: seq<Event>, e: Event)
    requires Legal(c, FRESH, es) && Enabled(Run(c, FRESH, es), e) && !e.Advance?
    ensures var s, s' := Run(c, FRESH, es), Step(c, Run(c, FRESH, es), e);
            && (s'.reader.reply != s.reader.reply && s'.reader.reply == Some(ReadFailed) ==>
                  EndsWith(es, true) && !EndsWith(es, false))
            && (e.Receive? && s'.reader.reply == Some(EndOfStream) && s'.reader.waiting.None? ==>
                  EndsWith(es, false) && !EndsWith(es, true))
            && (e.Receive? && s.channel[0] == Failed ==> s'.reader.reply == Some(ReadFailed))
  {
    RunTold(c, es);
  }

  /** The events that complete a read. */
  predicate Answers(e: Event) {
    e.Take? || e.BeginRead? || e.Receive? || e.Disconnected? || e.RecvTimeout?
  }

  /** The reply that an event gives to a read, if it ends one. */
  function AnswerOf(c: Config, s: State, e: Event): seq<Reply>
    requires Enabled(s, e)
  {
    var r := Step(c, s, e).reader;
    if Answers(e) && r.waiting.None? && r.reply.Some? then [r.reply.value] else []
  }

  /** Every reply of a run, in order. */
  function Replies(c: Config, s: State, es: seq<Event>): seq<Reply>
    requires Legal(c, s, es)
    decreases |es|
  {
    if es == [] then [] else AnswerOf(c, s, es[0]) + Replies(c, Step(c, s, es[0]), es[1..])
  }

  lemma {:induction false} RepliesLast(c: Config, s: State, es: seq<Event>, e: Event)
    requires Legal(c, s, es + [e]) && Legal(c, s, es) && Enabled(Run(c, s, es), e)
    ensures Replies(c, s, es + [e]) == Replies(c, s, es) + AnswerOf(c, Run(c, s, es), e)
    decreases |es|
  {
    hide Step, Enabled, AnswerOf;
    if es == [] {
      assert es + [e] == [e] && [e][1..] == [];
    } else {
      assert (es + [e])[1..] == es[1..] + [e];
      RepliesLast(c, Step(c, s, es[0]), es[1..], e);
    }
  }

  /** Unless told to stop, the failure of stdout is on its way or has been answered. */
  predicate FailureKept(s: State, es: seq<Event>, answers: seq<Reply>) {
    !s.turn.stopping && EndsWith(es, true) ==>
      Failed in s.channel || s.thread.sending == Some(Failed) || ReadFailed in answers
  }

  lemma StepKeepsFailure(c: Config, s: State, es: seq<Event>, e: Event, answers: seq<Reply>)
    requires FailureKept(s, es, answers) && Enabled(s, e)
    ensures FailureKept(Step(c, s, e), es + [e], answers + AnswerOf(c, s, e))
  {
    var t := Step(c, s, e);
    assert EndsWith(es + [e], true) <==> EndsWith(es, true) || e == StdoutEnds(true);
    assert forall m :: m in s.channel && (e.Receive? ==> m != s.channel[0]) ==> m in t.channel;
  }

  lemma {:induction false} RunKeepsFailure(c: Config, es: seq<Event>)
    requires Legal(c, FRESH, es)
    ensures FailureKept(Run(c, FRESH, es), es, Replies(c, FRESH, es))
    decreases |es|
  {
    hide Step, Enabled, FailureKept, AnswerOf;
    if es == [] {
      assert FailureKept(FRESH, [], []) by { FreshKeepsFailure(); }
    } else {
      var before, e := es[..|es| - 1], es[|es| - 1];
      assert es == before + [e];
      RunPrefix(c, FRESH, before, e);
      RunKeepsFailure(c, before);
      RepliesLast(c, FRESH, before, e);
      StepKeepsFailure(c, Run(c, FRESH, before), before, e, Replies(c, FRESH, before));
    }
  }

  lemma FreshKeepsFailure()
    ensures FailureKept(FRESH, [], [])
  {
  }

  /**
   A broken stdout never looks like a clean end: unless the transport was told to stop, a read that finds the channel
   closed comes after a clean end of stdout or after a read that was told of the failure.
   */
  lemma FailureNeverSwallowed(c: Config, es: seq<Event>)
    requires Legal(c, FRESH, es) && Enabled(Run(c, FRESH, es), Disconnected) && !Run(c, FRESH, es).turn.stopping
    ensures EndsWith(es, false) || ReadFailed in Replies(c, FRESH, es)
  {
    RunTold(c, es);
    RunKeepsFailure(c, es);
    assert Flows(FRESH) && Tidy(FRESH);
    RunFlows(c, FRESH, es);
    hide Run, Legal, Replies, Flows;
  }

  // What the replies say.

  /** The bytes that replies hand over. */
  function BytesOf(replies: seq<Reply>): seq<byte> {
    if replies == [] then [] else (if replies[0].Chunk? then replies[0].bytes else []) + BytesOf(replies[1..])
  }

  lemma {:induction false} BytesOfAppend(a: seq<Reply>, b: seq<Reply>)
    ensures BytesOf(a + b) == BytesOf(a) + BytesOf(b)
    decreases |a|
  {
    if a == [] {
      assert a + b == b;
    } else {
      assert (a + b)[1..] == a[1..] + b;
      BytesOfAppend(a[1..], b);
    }
  }

  /** How much the read that an event ends had asked for. */
  function Asking(s: State, e: Event): nat {
    match e
    case Take(n) => n
    case BeginRead(n) => n
    case _ => if s.reader.waiting.Some? then s.reader.waiting.value else 0
  }

  /** How much there is to take at once: what is buffered, or the next message. */
  function Ready(s: State, e: Event): nat {
    if e.Receive? && s.channel != [] then |Payload(s.channel[0])| else |Unread(s.reader)|
  }

  /**
   One reply: a chunk is what the event returned, as much as was asked for and there is, and not empty; a timeout is
   answered exactly when the read has found its deadline expired.
   */
  lemma ReplyExactly(c: Config, s: State, e: Event)
    requires Tidy(s) && Enabled(s, e)
    ensures var r := AnswerOf(c, s, e);
            && Step(c, s, e).reader.returned == s.reader.returned + BytesOf(r)
            && (r != [] && r[0].Chunk? ==> |r[0].bytes| == Min(Asking(s, e), Ready(s, e)) > 0)
            && (TimedOut in r <==> Expires(s, e))
            && (Answers(e) && (e.BeginRead? ==> Due(s.turn)) ==> |r| == 1)
  {
    hide TidyThread, BytesOf, Step, AnswerOf, Expires;
    ReplyReturns(c, s, e);
    ReplyTimesOut(c, s, e);
  }

  lemma ReplyReturns(c: Config, s: State, e: Event)
    requires Tidy(s) && Enabled(s, e)
    ensures var r := AnswerOf(c, s, e);
            && Step(c, s, e).reader.returned == s.reader.returned + BytesOf(r)
            && (r != [] && r[0].Chunk? ==> |r[0].bytes| == Min(Asking(s, e), Ready(s, e)) > 0)
  {
    hide TidyThread;
    var r := AnswerOf(c, s, e);
    if r != [] { assert r[1..] == []; }
    assert s.reader.returned + [] == s.reader.returned;
    if e.Receive? && s.channel[0].Data? { assert s.channel[0].bytes != []; }
  }

  lemma ReplyTimesOut(c: Config, s: State, e: Event)
    requires Tidy(s) && Enabled(s, e)
    ensures TimedOut in AnswerOf(c, s, e) <==> Expires(s, e)
    ensures Answers(e) && (e.BeginRead? ==> Due(s.turn)) ==> |AnswerOf(c, s, e)| == 1
  {
    hide TidyThread;
    if e.Receive? && s.channel[0].Data? { assert s.channel[0].bytes != []; }
  }

  /** Over every run the chunks of the replies, one after another, are exactly the bytes returned. */
  lemma {:induction false} RepliesReturn(c: Config, s: State, es: seq<Event>)
    requires Tidy(s) && Legal(c, s, es)
    ensures Run(c, s, es).reader.returned == s.reader.returned + BytesOf(Replies(c, s, es))
    decreases |es|
  {
    hide Step, Enabled, AnswerOf, Tidy, BytesOf;
    if es == [] {
      NoBytes(s.reader.returned);
    } else {
      StepTidy(c, s, es[0]);
      ReplyExactly(c, s, es[0]);
      var t := Step(c, s, es[0]);
      RepliesReturn(c, t, es[1..]);
      BytesOfAppend(AnswerOf(c, s, es[0]), Replies(c, t, es[1..]));
      Regroup(s.reader.returned, BytesOf(AnswerOf(c, s, es[0])), BytesOf(Replies(c, t, es[1..])));
    }
  }

  lemma NoBytes(b: seq<byte>)
    ensures b + BytesOf([]) == b
  {
  }

  // Deadlines.

  /** After an expiry nothing is buffered, no read is blocked, and the turn in which it happened stays overdue. */
  predicate Sealed(s: State) {
    && TidyReader(s.reader)
    && (s.turn.poisoned ==>
          && s.reader.waiting.None? && s.reader.offset == |s.reader.buffered|
          && (s.turn.active ==> Due(s.turn)))
  }

  predicate Timed(c: Config, t: Turn) {
    (t.poisoned || t.deadline.Some? ==> c.timeout.Some?) && (t.active && c.timeout.Some? ==> t.deadline.Some?)
  }

  lemma StepSealed(c: Config, s: State, e: Event)
    requires Sealed(s) && Timed(c, s.turn) && Enabled(s, e)
    ensures var s' := Step(c, s, e);
            && Sealed(s') && Timed(c, s'.turn)
            && (s.turn.poisoned ==> s'.turn.poisoned && s'.reader.returned == s.reader.returned)
            && (s.turn.poisoned && s.reader != s'.reader ==> s'.reader.reply == Some(TimedOut))
  {
  }

  lemma {:induction false} RunSealed(c: Config, s: State, es: seq<Event>)
    requires Sealed(s) && Timed(c, s.turn) && Legal(c, s, es)
    ensures var s' := Run(c, s, es);
            && Sealed(s') && Timed(c, s'.turn)
            && (s.turn.poisoned ==> s'.turn.poisoned && s'.reader.returned == s.reader.returned)
    decreases |es|
  {
    hide Sealed, Timed, Step, Enabled;
    if es == [] {
    } else {
      StepSealed(c, s, es[0]);
      RunSealed(c, Step(c, s, es[0]), es[1..]);
    }
  }

  /** The event in which a read finds its deadline expired. */
  predicate Expires(s: State, e: Event) {
    e.RecvTimeout? || (e.BeginRead? && Due(s.turn))
  }

  function Expiries(c: Config, s: State, es: seq<Event>): nat
    requires Legal(c, s, es)
    decreases |es|
  {
    if es == [] then 0
    else (if Expires(s, es[0]) then 1 else 0) + Expiries(c, Step(c, s, es[0]), es[1..])
  }

  lemma StepPoisons(c: Config, s: State, e: Event)
    requires Enabled(s, e)
    ensures Step(c, s, e).turn.poisoned <==> s.turn.poisoned || Expires(s, e)
  {
  }

  /** The transport is poisoned exactly when some read has found its deadline expired. */
  lemma {:induction false} PoisonedExactly(c: Config, s: State, es: seq<Event>)
    requires Legal(c, s, es)
    ensures Run(c, s, es).turn.poisoned <==> s.turn.poisoned || Expiries(c, s, es) > 0
    decreases |es|
  {
    hide Step, Enabled, Expires;
    if es == [] {
    } else {
      StepPoisons(c, s, es[0]);
      PoisonedExactly(c, Step(c, s, es[0]), es[1..]);
    }
  }

  /** The thread is told to stop exactly by a close or by such a read. */
  lemma {:induction false} StoppingExactly(c: Config, s: State, es: seq<Event>)
    requires Legal(c, s, es)
    ensures Run(c, s, es).turn.stopping <==> s.turn.stopping || Close in es || Expiries(c, s, es) > 0
    decreases |es|
  {
    hide Step, Enabled, Expires;
    if es == [] {
    } else {
      StepStops(c, s, es[0]);
      StoppingExactly(c, Step(c, s, es[0]), es[1..]);
      assert Close in es <==> es[0] == Close || Close in es[1..];
    }
  }

  lemma StepStops(c: Config, s: State, e: Event)
    requires Enabled(s, e)
    ensures Step(c, s, e).turn.stopping <==> s.turn.stopping || e == Close || Expires(s, e)
  {
  }

  /**
   A turn starts exactly when turns have no timeout, or the transport is not poisoned and the deadline is an instant
   that exists; the deadline is then one timeout away.
   */
  lemma StartExactly(c: Config, s: State)
    requires Enabled(s, StartTurn)
    ensures var t := Step(c, s, StartTurn).turn;
            && (t.active <==> c.timeout.None? || (!s.turn.poisoned && s.turn.now + c.timeout.value <= c.horizon))
            && (t.active && c.timeout.Some? ==> t.deadline == Some(s.turn.now + c.timeout.value))
            && (!t.active ==> t == s.turn)
  {
  }

  /** A message is queued exactly when fewer than eight are, and in no run are there more. */
  lemma {:induction false} QueueBounded(c: Config, s: State, es: seq<Event>)
    requires Legal(c, s, es) && |s.channel| <= 8
    ensures |Run(c, s, es).channel| <= 8
    decreases |es|
  {
    if es == [] {
    } else {
      QueueBounded(c, Step(c, s, es[0]), es[1..]);
    }
  }

  lemma SendExactly(c: Config, s: State)
    requires Enabled(s, TrySend)
    ensures var t := Step(c, s, TrySend);
            && t.channel == s.channel + (if |s.channel| < 8 then [s.thread.sending.value] else [])
            && (t.thread.sending.None? <==> |s.channel| < 8)
  {
  }

  /** Once a read has found its deadline expired, no later read of that turn and no later turn receives a byte, ever. */
  lemma NoByteAfterExpiry(c: Config, before: seq<Event>, after: seq<Event>)
    requires Legal(c, FRESH, before) && Legal(c, Run(c, FRESH, before), after) && Expiries(c, FRESH, before) > 0
    ensures var s, s' := Run(c, FRESH, before), Run(c, Run(c, FRESH, before), after);
            s'.reader.returned == s.reader.returned && s'.turn.poisoned
  {
    PoisonedExactly(c, FRESH, before);
    RunSealed(c, FRESH, before);
    RunSealed(c, Run(c, FRESH, before), after);
  }

  /** Bytes already buffered are handed out without a look at the deadline, however late it is. */
  lemma BufferedIgnoresDeadline(c: Config, s: State, ticks: nat, n: nat)
    requires s.turn.active && s.reader.waiting.None? && s.reader.offset < |s.reader.buffered| && n > 0
    ensures var late := Step(c, s, Advance(ticks));
            && Enabled(late, Take(n))
            && var t := Step(c, late, Take(n));
               s.reader.returned < t.reader.returned && t.turn == late.turn
  {
  }

  /** A turn of deadline `t` that has asked for one byte and has two waiting. */
  function Asked(t: nat): State {
    FRESH.(thread := FRESH.thread.(taken := [1, 2]), channel := [Data([1, 2])],
           reader := FRESH.reader.(waiting := Some(1)), turn := Turn(0, Some(t), true, false, false))
  }

  /** The same turn at its deadline, one byte handed out and one buffered. */
  function Late(t: nat): State {
    Asked(t).(channel := [], reader := Reader([1, 2], 1, None, Some(Chunk([1])), [1]),
              turn := Turn(t, Some(t), true, false, false))
  }

  lemma AskedRun(c: Config)
    requires c.timeout.Some? && 0 < c.timeout.value <= c.horizon
    ensures var es := [StartTurn, StdoutYields([1, 2]), TrySend, BeginRead(1)];
            Legal(c, FRESH, es) && Run(c, FRESH, es) == Asked(c.timeout.value)
  {
    var told := FRESH.thread.(taken := [1, 2]);
    var s1 := FRESH.(turn := Asked(c.timeout.value).turn);
    var s2 := s1.(thread := told.(sending := Some(Data([1, 2]))));
    var s3 := s1.(thread := told, channel := [Data([1, 2])]);
    assert Step(c, FRESH, StartTurn) == s1;
    assert Step(c, s1, StdoutYields([1, 2])) == s2 by { assert [] + [1, 2] == [1, 2]; }
    assert Step(c, s2, TrySend) == s3 by { assert [] + [Data([1, 2])] == [Data([1, 2])]; }
    assert Step(c, s3, BeginRead(1)) == Asked(c.timeout.value);
    RunLast(c, FRESH, [], StartTurn);
    RunLast(c, FRESH, [StartTurn], StdoutYields([1, 2]));
    RunLast(c, FRESH, [StartTurn] + [StdoutYields([1, 2])], TrySend);
    RunLast(c, FRESH, [StartTurn] + [StdoutYields([1, 2])] + [TrySend], BeginRead(1));
    assert [StartTurn] + [StdoutYields([1, 2])] + [TrySend] + [BeginRead(1)]
        == [StartTurn, StdoutYields([1, 2]), TrySend, BeginRead(1)];
  }

  lemma LateRun(c: Config)
    requires c.timeout.Some? && 0 < c.timeout.value <= c.horizon
    ensures var es := [StartTurn, StdoutYields([1, 2]), TrySend, BeginRead(1), Receive, Advance(c.timeout.value)];
            Legal(c, FRESH, es) && Run(c, FRESH, es) == Late(c.timeout.value)
  {
    var t := c.timeout.value;
    var es := [StartTurn, StdoutYields([1, 2]), TrySend, BeginRead(1)];
    AskedRun(c);
    var s5 := Late(t).(turn := Asked(t).turn);
    assert Step(c, Asked(t), Receive) == s5 by {
      assert [Data([1, 2])][1..] == [] && [1, 2][0..1] == [1] && [] + [1] == [1];
    }
    assert Step(c, s5, Advance(t)) == Late(t);
    RunLast(c, FRESH, es, Receive);
    RunLast(c, FRESH, es + [Receive], Advance(t));
    assert es + [Receive] + [Advance(t)]
        == [StartTurn, StdoutYields([1, 2]), TrySend, BeginRead(1), Receive, Advance(t)];
  }

  /** The run that receives a byte after its deadline has passed, ends its turn unpoisoned and starts the next. */
  lemma LateByte(c: Config)
    requires c.timeout.Some? && 0 < c.timeout.value && 2 * c.timeout.value <= c.horizon
    ensures var late := [StartTurn, StdoutYields([1, 2]), TrySend, BeginRead(1), Receive, Advance(c.timeout.value)];
            var rest := [Take(1), FinishTurn, StartTurn];
            && Legal(c, FRESH, late) && Due(Run(c, FRESH, late).turn) && Run(c, FRESH, late).reader.returned == [1]
            && Legal(c, Run(c, FRESH, late), rest)
            && var s := Run(c, Run(c, FRESH, late), rest);
               s.reader.returned == [1, 2] && !s.turn.poisoned && s.turn.active
  {
    var s6 := Late(c.timeout.value);
    LateRun(c);
    var s7 := s6.(reader := Reader([1, 2], 2, None, Some(Chunk([2])), [1, 2]));
    assert Step(c, s6, Take(1)) == s7 by { assert [1, 2][1..2] == [2] && [1] + [2] == [1, 2]; }
    var s8 := Step(c, s7, FinishTurn);
    assert s8.turn == Turn(c.timeout.value, None, false, false, false) && s8.reader == s7.reader;
    RunLast(c, s6, [], Take(1));
    RunLast(c, s6, [Take(1)], FinishTurn);
    RunLast(c, s6, [Take(1)] + [FinishTurn], StartTurn);
    assert [Take(1)] + [FinishTurn] + [StartTurn] == [Take(1), FinishTurn, StartTurn];
  }

  /** After the turn of the expiry is over, none starts. */
  lemma {:induction false} NoTurnAfterExpiry(c: Config, s: State, es: seq<Event>)
    requires Timed(c, s.turn) && Sealed(s) && s.turn.poisoned && !s.turn.active && Legal(c, s, es)
    ensures !Run(c, s, es).turn.active
    decreases |es|
  {
    if es == [] {
    } else {
      StepSealed(c, s, es[0]);
      NoTurnAfterExpiry(c, Step(c, s, es[0]), es[1..]);
    }
  }

  lemma {:induction false} RunLast(c: Config, s: State, es: seq<Event>, e: Event)
    requires Legal(c, s, es) && Enabled(Run(c, s, es), e)
    ensures Legal(c, s, es + [e]) && Run(c, s, es + [e]) == Step(c, Run(c, s, es), e)
    decreases |es|
  {
    hide Step, Enabled;
    if es == [] {
      assert es + [e] == [e] && [e][1..] == [];
      assert Legal(c, Step(c, s, e), []) && Run(c, Step(c, s, e), []) == Step(c, s, e);
    } else {
      assert (es + [e])[1..] == es[1..] + [e];
      RunLast(c, Step(c, s, es[0]), es[1..], e);
    }
  }

  lemma StepTake(c: Config, s: State, n: nat)
    requires Enabled(s, Take(n))
    ensures Step(c, s, Take(n)) == s.(reader := TakeFrom(s.reader, n))
  {
  }

  /** One event, the one that is due in this state of the thread. */
  predicate ThreadActed(t: Thread, es: seq<Event>) {
    |es| == 1 && if t.sending.None? then es[0].StdoutYields? || es[0].StdoutEnds? else es[0] == SendEvent(t)
  }

  function SendEvent(t: Thread): Event {
    if t.sawFull then CheckStopping else TrySend
  }

  /** The transport's objects. `log` is the run that led to the present state. */
  class SubprocessTransport {
    const config: Config
    var thread: Thread
    var channel: seq<Message>
    var buffered: seq<byte>
    var offset: nat
    var turn: Turn
    var waiting: Option<nat>
    ghost var reply: Option<Reply>
    ghost var returned: seq<byte>
    ghost var log: seq<Event>

    ghost function View(): State
      reads this
    {
      State(thread, channel, Reader(buffered, offset, waiting, reply, returned), turn)
    }

    ghost predicate Valid()
      reads this
    {
      Legal(config, FRESH, log) && View() == Run(config, FRESH, log)
    }

    constructor (c: Config)
      ensures Valid() && config == c && View() == FRESH
    {
      config, thread, channel, turn := c, FRESH.thread, [], FRESH.turn;
      buffered, offset, waiting, reply, returned, log := [], 0, None, None, [], [];
    }

    /** The thread has ended, or will after a message it has already queued. */
    predicate ThreadIdle()
      reads this
    {
      thread.sending.None? && (thread.done || thread.ended)
    }

    /** The next action of the reader thread: a read of stdout, an attempt to send, or a look at the stop flag. */
    method ThreadStep()
      requires Valid()
      modifies `thread, `channel, `log
      ensures Valid() && old(log) <= log
      ensures if old(ThreadIdle()) then log == old(log) else ThreadActed(old(thread), log[|old(log)|..])
    {
      hide Run, Legal;
      if thread.sending.None? {
        if thread.done || thread.ended { return; }
        var size: nat :| size <= READ_SIZE;
        if size == 0 {
          var failed: bool :| true;
          RunLast(config, FRESH, log, StdoutEnds(failed));
          log := log + [StdoutEnds(failed)];
          thread := thread.(ended := true, sending := Some(if failed then Failed else Eof));
        } else {
          assert |seq<byte>(size, _ => 0)| == size;
          var bytes: seq<byte> :| |bytes| == size;
          RunLast(config, FRESH, log, StdoutYields(bytes));
          log := log + [StdoutYields(bytes)];
          thread := thread.(taken := thread.taken + bytes, sending := Some(Data(bytes)));
        }
      } else {
        SendReaderMessage();
      }
    }

    /** One pass of the send loop. */
    method SendReaderMessage()
      requires Valid() && thread.sending.Some?
      modifies `thread, `channel, `log
      ensures Valid() && log == old(log) + [SendEvent(old(thread))]
    {
      hide Run, Legal;
      ghost var e := SendEvent(thread);
      RunLast(config, FRESH, log, e);
      log := log + [e];
      if thread.sawFull {
        thread := if turn.stopping
                  then thread.(lost := Payload(thread.sending.value), sending := None, sawFull := false, done := true)
                  else thread.(sawFull := false);
      } else if |channel| < CAPACITY {
        channel := channel + [thread.sending.value];
        thread := thread.(sending := None, done := !thread.sending.value.Data?);
      } else {
        thread := thread.(sawFull := true);
      }
    }

    /** Time passes and the thread runs. */
    method Background()
      requires Valid()
      modifies `thread, `channel, `turn, `log
      ensures Valid() && old(log) <= log
      ensures turn == old(turn).(now := turn.now) && old(turn.now) <= turn.now
    {
      hide Run, Legal, View;
      var n: nat :| 0 <= n;
      while n > 0
        invariant Valid() && old(log) <= log
        invariant turn == old(turn).(now := turn.now) && old(turn.now) <= turn.now
      {
        var clock: bool :| true;
        if clock { Tick(); } else { ThreadStep(); }
        n := n - 1;
      }
    }

    method Tick()
      requires Valid()
      modifies `turn, `log
      ensures Valid() && old(log) <= log
      ensures turn == old(turn).(now := turn.now) && old(turn.now) <= turn.now
    {
      hide Run, Legal;
      var ticks: nat :| 0 <= ticks;
      RunLast(config, FRESH, log, Advance(ticks));
      log := log + [Advance(ticks)];
      turn := turn.(now := turn.now + ticks);
    }

    /** Begins a turn unless the transport is poisoned or the deadline is out of range. */
    method Start() returns (started: bool)
      requires Valid() && !turn.active
      modifies `turn, `log
      ensures Valid() && log == old(log) + [StartTurn] && turn == Started(config, old(turn))
      ensures started == turn.active && (old(turn.poisoned) ==> !started)
    {
      NeverPoisonedWithoutTimeout();
      hide Run, Legal;
      RunLast(config, FRESH, log, StartTurn);
      log := log + [StartTurn];
      if config.timeout.Some? {
        if turn.poisoned { return false; }
        if turn.now + config.timeout.value > config.horizon { return false; }
        turn := turn.(deadline := Some(turn.now + config.timeout.value));
      }
      turn := turn.(active := true);
      started := true;
    }

    lemma NeverPoisonedWithoutTimeout()
      requires Valid()
      ensures Timed(config, turn) && Sealed(View())
    {
      RunSealed(config, FRESH, log);
    }

    method Finish()
      requires Valid() && turn.active && waiting.None?
      modifies `turn, `log
      ensures Valid() && log == old(log) + [FinishTurn]
      ensures turn == old(turn).(active := false, deadline := None)
    {
      hide Run, Legal;
      RunLast(config, FRESH, log, FinishTurn);
      log := log + [FinishTurn];
      turn := turn.(active := false, deadline := None);
    }

    /** Hands out buffered bytes. */
    method TakeBuffered(n: nat, ghost e: Event, ghost before: State) returns (bytes: seq<byte>)
      requires Legal(config, FRESH, log) && Run(config, FRESH, log) == before && Enabled(before, e) && n > 0
      requires offset < |buffered| && Step(config, before, e) == View().(reader := TakeFrom(View().reader, n))
      modifies `offset, `waiting, `reply, `returned, `log
      ensures Valid() && log == old(log) + [e] && waiting.None?
      ensures 0 < |bytes| <= n && returned == old(returned) + bytes && reply == Some(Chunk(bytes))
    {
      hide Run, Legal, Enabled;
      var count := Min(n, |buffered| - offset);
      bytes := buffered[offset..offset + count];
      RunLast(config, FRESH, log, e);
      log := log + [e];
      offset, waiting, reply, returned := offset + count, None, Some(Chunk(bytes)), returned + bytes;
    }

    /** A read for `n` bytes; `None` when it is still blocked after the given number of wake-ups. */
    method Read(n: nat, wakeups: nat) returns (r: Option<Reply>)
      requires Valid() && turn.active && waiting.None?
      modifies this
      ensures Valid() && old(log) <= log && turn.active
      ensures n == 0 ==> r == Some(Chunk([])) && log == old(log)
      ensures n > 0 ==> old(log) < log && log[|old(log)|] in {Take(n), BeginRead(n)}
      ensures n > 0 && r.Some? ==> reply == r && waiting.None? && Answers(log[|log| - 1])
      ensures r.None? ==> waiting == Some(n)
      ensures r.Some? && r.value.Chunk? ==> |r.value.bytes| <= n && returned == old(returned) + r.value.bytes
      ensures !(r.Some? && r.value.Chunk?) ==> returned == old(returned)
      ensures old(turn.poisoned) && n > 0 ==> r == Some(TimedOut)
    {
      NeverPoisonedWithoutTimeout();
      hide Run, Legal, Step;
      if n == 0 { return Some(Chunk([])); }
      if offset < |buffered| {
        StepTake(config, View(), n);
        var bytes := TakeBuffered(n, Take(n), View());
        return Some(Chunk(bytes));
      }
      var expired := Begin(n);
      if expired { return Some(TimedOut); }
      r := Await(n, wakeups);
    }

    /** Empties the spent buffer and looks at the deadline before blocking. */
    method Begin(n: nat) returns (expired: bool)
      requires Valid() && turn.active && waiting.None? && n > 0 && offset >= |buffered|
      modifies `turn, `buffered, `offset, `waiting, `reply, `log
      ensures Valid() && log == old(log) + [BeginRead(n)] && turn.active && buffered == []
      ensures expired == Due(old(turn))
      ensures if expired then reply == Some(TimedOut) && waiting.None? else waiting == Some(n)
    {
      hide Run, Legal;
      RunLast(config, FRESH, log, BeginRead(n));
      log := log + [BeginRead(n)];
      buffered, offset := [], 0;
      expired := Due(turn);
      if expired {
        turn, reply := Expire(turn), Some(TimedOut);
      } else {
        waiting := Some(n);
      }
    }

    /** Waits on the channel until a message, the thread's end or the deadline. */
    method Await(n: nat, wakeups: nat) returns (r: Option<Reply>)
      requires Valid() && turn.active && waiting == Some(n) && n > 0 && buffered == []
      modifies this
      ensures Valid() && old(log) <= log && turn.active
      ensures r.Some? ==> reply == r && waiting.None? && log != [] && Answers(log[|log| - 1])
      ensures r.None? ==> waiting == Some(n)
      ensures r.Some? && r.value.Chunk? ==> |r.value.bytes| <= n && returned == old(returned) + r.value.bytes
      ensures !(r.Some? && r.value.Chunk?) ==> returned == old(returned)
    {
      hide Run, Legal, Step, Enabled, TakeFrom;
      var k := wakeups;
      while k > 0
        invariant Valid() && old(log) <= log && turn.active && waiting == Some(n) && buffered == []
        invariant returned == old(returned)
      {
        Background();
        if channel != [] {
          r := TakeMessage(n);
          if r.Some? { return; }
        } else if thread.done || Due(turn) {
          r := GiveUp();
          return;
        }
        k := k - 1;
      }
      r := None;
    }

    method TakeMessage(n: nat) returns (r: Option<Reply>)
      requires Valid() && turn.active && waiting == Some(n) && n > 0 && buffered == [] && channel != []
      modifies `channel, `buffered, `offset, `waiting, `reply, `returned, `log
      ensures Valid() && log == old(log) + [Receive]
      ensures r.Some? ==> reply == r && waiting.None?
      ensures r.Some? && r.value.Chunk? ==> |r.value.bytes| <= n && returned == old(returned) + r.value.bytes
      ensures !(r.Some? && r.value.Chunk?) ==> returned == old(returned)
      ensures r.None? ==> waiting == Some(n) && buffered == []
    {
      hide Run, Legal;
      ghost var before := View();
      var message := channel[0];
      channel := channel[1..];
      if message.Data? && message.bytes != [] {
        buffered, offset := message.bytes, 0;
        var bytes := TakeBuffered(n, Receive, before);
        return Some(Chunk(bytes));
      }
      RunLast(config, FRESH, log, Receive);
      log := log + [Receive];
      if message.Data? { return None; }
      r := Some(if message.Eof? then EndOfStream else ReadFailed);
      waiting, reply := None, r;
    }

    method GiveUp() returns (r: Option<Reply>)
      requires Valid() && waiting.Some? && channel == [] && (thread.done || Due(turn))
      modifies `turn, `waiting, `reply, `log
      ensures Valid() && log == old(log) + [if thread.done then Disconnected else RecvTimeout]
      ensures turn.active == old(turn.active)
      ensures r == reply && waiting.None? && (r == Some(EndOfStream) || r == Some(TimedOut))
    {
      hide Run, Legal;
      if thread.done {
        RunLast(config, FRESH, log, Disconnected);
        log := log + [Disconnected];
        r := Some(EndOfStream);
      } else {
        RunLast(config, FRESH, log, RecvTimeout);
        log := log + [RecvTimeout];
        turn := Expire(turn);
        r := Some(TimedOut);
      }
      waiting, reply := None, r;
    }
  }
}
