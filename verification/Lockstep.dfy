/** The lockstep stream session over a byte-stream transport. */
module Lockstep {
  import opened Bytes
  import opened Frames
  import opened Pointers

  /** How the server's output ends: with the end marker, cut short, or unreadable. */
  datatype Ending = Eos | Cut | Broken(error: RpcError)

  /** The server's output, and the client's resolver. */
  datatype Script = Script(frames: seq<Frame>, ending: Ending, external: Option<Resolver>)

  /** What the caller sees, in order. */
  datatype Delivery = Logged(md: Metadata) | Returned(frame: Frame)

  /** What the session does to the transport, in order. */
  datatype Action =
    | InputOpened(ok: bool)
    | InputWritten(input: Frame, sentinel: bool, ok: bool)
    | InputFinished
    | OutputOpened(ok: bool)

  /** Which of a step's operations succeed: starting the turn, opening the writer, writing, opening the reader. */
  datatype Luck = Luck(start: bool, newWriter: bool, write: bool, newReader: bool)

  /** The transport's two ends, raw or wrapped, and what was done to them. */
  datatype Io = Io(readerRaw: bool, outReader: bool, writerRaw: bool, inWriter: bool, trace: seq<Action>)

  /** `read` counts the output frames taken so far, those drained unseen excepted. */
  datatype Progress = Progress(finished: bool, read: nat, delivered: seq<Delivery>)

  datatype Session = Session(io: Io, seen: Progress, cancelled: bool, closed: bool)

  const FRESH := Session(Io(true, false, true, false, []), Progress(false, 0, []), false, false)

  type Answer = Result<Option<Frame>, RpcError>

  const CANCEL_FRAME := Frame(Batch(0, 0), map["vgi_rpc.cancel" := "1"])

  function AsLogs(logs: seq<Metadata>): seq<Delivery> {
    if logs == [] then [] else AsLogs(logs[..|logs| - 1]) + [Logged(logs[|logs| - 1])]
  }

  /** What one output frame gives the caller. */
  function Expand(f: Frame, external: Option<Resolver>): seq<Delivery> {
    match Classify(f)
    case Log(m) => [Logged(m)]
    case Exception(_) => []
    case Data => [Returned(f)]
    case Pointer =>
      var w := Resolve(external, f.md);
      AsLogs(w.logs) + if w.result.Ok? then [Returned(w.result.value)] else []
  }

  /** What a run of output frames gives the caller. */
  function Expected(fs: seq<Frame>, external: Option<Resolver>): seq<Delivery> {
    if fs == [] then [] else Expected(fs[..|fs| - 1], external) + Expand(fs[|fs| - 1], external)
  }

  // The steps.

  function EnsureWriter(io: Io, luck: Luck): (Io, bool) {
    if io.inWriter then (io, true)
    else if !io.writerRaw then (io, false)
    else (io.(writerRaw := false, inWriter := luck.newWriter, trace := io.trace + [InputOpened(luck.newWriter)]),
          luck.newWriter)
  }

  function EnsureReader(io: Io, luck: Luck): (Io, bool) {
    if io.outReader then (io, true)
    else if !io.readerRaw then (io, false)
    else (io.(readerRaw := false, outReader := luck.newReader, trace := io.trace + [OutputOpened(luck.newReader)]),
          luck.newReader)
  }

  /** Takes frames up to the next batch, the end or an error. */
  function ReadNext(o: Script, p: Progress): (Progress, Answer)
    requires p.read <= |o.frames|
    decreases |o.frames| - p.read
  {
    if p.read == |o.frames| then
      match o.ending
      case Eos => (p.(finished := true), Ok(None))
      case Cut => (p.(finished := true), Err(Truncated))
      case Broken(e) => (p, Err(e))
    else
      var f, q := o.frames[p.read], Took(o, p);
      match Classify(f)
      case Log(_) => ReadNext(o, q)
      case Exception(e) => (q.(finished := true), Err(e))
      case Data => (q, Ok(Some(f)))
      case Pointer =>
        var r := Resolve(o.external, f.md).result;
        if r.Ok? then (q, Ok(Some(r.value))) else (q.(finished := true), Err(r.error))
  }

  function Took(o: Script, p: Progress): Progress
    requires p.read < |o.frames|
  {
    p.(read := p.read + 1, delivered := p.delivered + Expand(o.frames[p.read], o.external))
  }

  /** Opens the input stream if need be and writes one input. */
  function Written(io: Io, input: Frame, sentinel: bool, luck: Luck): (Io, bool) {
    var (t, ok) := EnsureWriter(io, luck);
    if !ok then (t, false) else (t.(trace := t.trace + [InputWritten(input, sentinel, luck.write)]), luck.write)
  }

  /** Writes one input and then opens the output if need be. */
  function Sent(io: Io, input: Frame, luck: Luck): (Io, bool) {
    var (t, ok) := Written(io, input, false, luck);
    if !ok then (t, false) else EnsureReader(t, luck)
  }

  function Exchanged(o: Script, s: Session, input: Frame, luck: Luck): (Session, Answer)
    requires s.seen.read <= |o.frames|
  {
    if s.cancelled || s.closed then (s, Err(AfterClose))
    else if s.seen.finished then (s, Ok(None))
    else if !luck.start then (s, Err(Poisoned))
    else
      var (io, ok) := Sent(s.io, input, luck);
      if !ok then (s.(io := io), Err(Transport))
      else var (seen, a) := ReadNext(o, s.seen); (s.(io := io, seen := seen), a)
  }

  function Cancelled(s: Session, luck: Luck): (Session, Answer) {
    if s.cancelled || s.seen.finished then (s.(cancelled := true), Ok(None))
    else if !luck.start then (s, Err(Poisoned))
    else
      var (io, ok) := Written(s.io, CANCEL_FRAME, true, luck);
      if !ok then (s.(io := io), Err(Transport))
      else (s.(io := EnsureReader(io, luck).0, cancelled := true), Ok(None))
  }

  function Closed(s: Session, luck: Luck): (Session, Answer) {
    if s.closed then (s, Ok(None))
    else
      var c := s.(closed := true);
      if c.cancelled then (c, Ok(None))
      else if !luck.start then (c, Err(Poisoned))
      else (c.(io := EnsureReader(FinishedInput(c.io, luck), luck).0), Ok(None))
  }

  function FinishedInput(io: Io, luck: Luck): Io {
    if io.inWriter then io.(inWriter := false, trace := io.trace + [InputFinished])
    else if io.writerRaw then
      io.(writerRaw := false,
          trace := io.trace + if luck.newWriter then [InputOpened(true), InputFinished] else [InputOpened(false)])
    else io
  }

  /** A tick is an exchange of an empty batch. */
  datatype Op = Exchange(input: Frame, luck: Luck) | Cancel(luck: Luck) | Close(luck: Luck)

  function Do(o: Script, s: Session, op: Op): (Session, Answer)
    requires s.seen.read <= |o.frames|
  {
    match op
    case Exchange(input, luck) => Exchanged(o, s, input, luck)
    case Cancel(luck) => Cancelled(s, luck)
    case Close(luck) => Closed(s, luck)
  }

  // What every step keeps.

  /** No opening of the output comes before the opening of an input stream. */
  predicate InputFirst(trace: seq<Action>) {
    forall j :: 0 <= j < |trace| && trace[j].OutputOpened? ==> OpenedIn(trace[..j])
  }

  predicate OpenedIn(trace: seq<Action>) {
    exists i :: 0 <= i < |trace| && trace[i].InputOpened?
  }

  predicate Handles(io: Io) {
    && (io.inWriter ==> !io.writerRaw) && (io.outReader ==> !io.readerRaw)
    && (!io.writerRaw ==> OpenedIn(io.trace))
    && InputFirst(io.trace)
  }

  predicate Delivered(o: Script, p: Progress) {
    p.read <= |o.frames| && p.delivered == Expected(o.frames[..p.read], o.external)
  }

  predicate Kept(o: Script, s: Session) {
    Handles(s.io) && Delivered(o, s.seen)
  }

  /** Adding an action keeps the order when it does not open the output, or when an input stream was opened before. */
  lemma TraceGrows(trace: seq<Action>, a: Action)
    requires InputFirst(trace) && (a.OutputOpened? ==> OpenedIn(trace))
    ensures InputFirst(trace + [a])
    ensures OpenedIn(trace) || a.InputOpened? ==> OpenedIn(trace + [a])
  {
    var t := trace + [a];
    assert forall j :: 0 <= j <= |trace| ==> t[..j] == trace[..j];
    assert trace[..|trace|] == trace;
    assert t[|trace|] == a;
    if OpenedIn(trace) {
      var i :| 0 <= i < |trace| && trace[i].InputOpened?;
      assert t[i].InputOpened?;
    }
  }

  lemma WrittenHandles(io: Io, input: Frame, sentinel: bool, luck: Luck)
    requires Handles(io)
    ensures Handles(Written(io, input, sentinel, luck).0)
    ensures Written(io, input, sentinel, luck).1 ==> !Written(io, input, sentinel, luck).0.writerRaw
  {
    hide InputFirst, OpenedIn;
    TraceGrows(io.trace, InputOpened(luck.newWriter));
    TraceGrows(EnsureWriter(io, luck).0.trace, InputWritten(input, sentinel, luck.write));
  }

  lemma EnsureReaderHandles(io: Io, luck: Luck)
    requires Handles(io) && !io.writerRaw
    ensures Handles(EnsureReader(io, luck).0)
  {
    hide InputFirst, OpenedIn;
    TraceGrows(io.trace, OutputOpened(luck.newReader));
  }

  lemma FinishedInputHandles(io: Io, luck: Luck)
    requires Handles(io)
    ensures Handles(FinishedInput(io, luck)) && !FinishedInput(io, luck).writerRaw
  {
    hide InputFirst, OpenedIn;
    TraceGrows(io.trace, InputFinished);
    TraceGrows(io.trace, InputOpened(luck.newWriter));
    TraceGrows(io.trace + [InputOpened(luck.newWriter)], InputFinished);
    assert io.trace + [InputOpened(true), InputFinished] == io.trace + [InputOpened(true)] + [InputFinished];
  }

  lemma {:induction false} ReadNextDelivers(o: Script, p: Progress)
    requires Delivered(o, p)
    ensures Delivered(o, ReadNext(o, p).0)
    decreases |o.frames| - p.read
  {
    hide Expand, Classify, Resolve;
    if p.read >= |o.frames| {
    } else {
      assert o.frames[..p.read + 1][..p.read] == o.frames[..p.read];
      if Classify(o.frames[p.read]).Log? { ReadNextDelivers(o, Took(o, p)); }
    }
  }

  lemma DoKeeps(o: Script, s: Session, op: Op)
    requires Kept(o, s)
    ensures Kept(o, Do(o, s, op).0)
  {
    hide Handles, ReadNext, Written, EnsureReader, FinishedInput, Expected;
    match op
    case Exchange(input, luck) =>
      WrittenHandles(s.io, input, false, luck);
      var (io, ok) := Written(s.io, input, false, luck);
      if ok { EnsureReaderHandles(io, luck); }
      ReadNextDelivers(o, s.seen);
    case Cancel(luck) =>
      WrittenHandles(s.io, CANCEL_FRAME, true, luck);
      var (io, ok) := Written(s.io, CANCEL_FRAME, true, luck);
      if ok { EnsureReaderHandles(io, luck); }
    case Close(luck) =>
      FinishedInputHandles(s.io, luck);
      EnsureReaderHandles(FinishedInput(s.io, luck), luck);
  }

  // Runs.

  function Run(o: Script, s: Session, ops: seq<Op>): (r: (Session, seq<Answer>))
    requires s.seen.read <= |o.frames|
    decreases |ops|
  {
    if ops == [] then (s, [])
    else
      var (t, a) := Do(o, s, ops[0]);
      ReadBounded(o, s, ops[0]);
      var (u, rest) := Run(o, t, ops[1..]);
      (u, [a] + rest)
  }

  lemma {:induction false} ReadNextBounded(o: Script, p: Progress)
    requires p.read <= |o.frames|
    ensures p.read <= ReadNext(o, p).0.read <= |o.frames|
    decreases |o.frames| - p.read
  {
    hide Classify, Resolve, Expand;
    if p.read >= |o.frames| || !Classify(o.frames[p.read]).Log? {
    } else {
      ReadNextBounded(o, Took(o, p));
    }
  }

  lemma ReadBounded(o: Script, s: Session, op: Op)
    requires s.seen.read <= |o.frames|
    ensures Do(o, s, op).0.seen.read <= |o.frames|
  {
    hide ReadNext;
    ReadNextBounded(o, s.seen);
  }

  lemma {:induction false} RunKeeps(o: Script, s: Session, ops: seq<Op>)
    requires Kept(o, s)
    ensures Kept(o, Run(o, s, ops).0)
    decreases |ops|
  {
    hide Kept, Do;
    if ops == [] {
    } else {
      assert s.seen.read <= |o.frames| by { KeptBounds(o, s); }
      DoKeeps(o, s, ops[0]);
      RunKeeps(o, Do(o, s, ops[0]).0, ops[1..]);
    }
  }

  lemma KeptBounds(o: Script, s: Session)
    requires Kept(o, s)
    ensures s.seen.read <= |o.frames|
  {
  }

  /** In every run the output is opened only after an input stream was opened, or that failed. */
  lemma OutputOpenedAfterInput(o: Script, ops: seq<Op>)
    ensures InputFirst(Run(o, FRESH, ops).0.io.trace)
  {
    assert o.frames[..0] == [];
    RunKeeps(o, FRESH, ops);
  }

  /**
   In every run the logs and batches seen are those of the first frames of the output, in order, pointers resolved.
   */
  lemma DeliversInOrder(o: Script, ops: seq<Op>)
    ensures var p := Run(o, FRESH, ops).0.seen;
            p.read <= |o.frames| && p.delivered == Expected(o.frames[..p.read], o.external)
  {
    assert o.frames[..0] == [];
    RunKeeps(o, FRESH, ops);
  }

  // Batches and inputs.

  function Batches(ds: seq<Delivery>): seq<Frame> {
    if ds == [] then []
    else Batches(ds[..|ds| - 1]) + if ds[|ds| - 1].Returned? then [ds[|ds| - 1].frame] else []
  }

  function AnswerBatch(a: Answer): seq<Frame> {
    if a.Ok? && a.value.Some? then [a.value.value] else []
  }

  function AnswerBatches(as_: seq<Answer>): seq<Frame> {
    if as_ == [] then [] else AnswerBatch(as_[0]) + AnswerBatches(as_[1..])
  }

  lemma {:induction false} BatchesAppend(a: seq<Delivery>, b: seq<Delivery>)
    ensures Batches(a + b) == Batches(a) + Batches(b)
    decreases |b|
  {
    if b == [] {
      assert a + b == a;
    } else {
      var n := |b| - 1;
      assert (a + b)[..|a| + n] == a + b[..n];
      BatchesAppend(a, b[..n]);
    }
  }

  lemma {:induction false} LogsHoldNoBatch(logs: seq<Metadata>)
    ensures Batches(AsLogs(logs)) == []
    decreases |logs|
  {
    if logs == [] {
    } else {
      var n := |logs| - 1;
      LogsHoldNoBatch(logs[..n]);
    }
  }

  lemma ExpandBatches(f: Frame, external: Option<Resolver>)
    ensures Batches(Expand(f, external)) ==
            match Classify(f)
            case Data => [f]
            case Pointer => (var r := Resolve(external, f.md).result; if r.Ok? then [r.value] else [])
            case _ => []
  {
    hide Classify, Resolve;
    var ds := Expand(f, external);
    if Classify(f).Pointer? {
      assert LOCATION_KEY in f.md by { PointerHasLocation(f); }
      var w := Resolve(external, f.md);
      LogsHoldNoBatch(w.logs);
      if w.result.Ok? {
        BatchesAppend(AsLogs(w.logs), [Returned(w.result.value)]);
        assert [Returned(w.result.value)][..0] == [];
      } else {
        assert ds == AsLogs(w.logs);
      }
    } else if ds != [] {
      assert ds[..0] == [];
    }
  }

  lemma PointerHasLocation(f: Frame)
    requires Classify(f).Pointer?
    ensures LOCATION_KEY in f.md
  {
  }

  lemma {:induction false} ReadNextReturns(o: Script, p: Progress)
    requires p.read <= |o.frames|
    ensures var (q, a) := ReadNext(o, p); Batches(q.delivered) == Batches(p.delivered) + AnswerBatch(a)
    decreases |o.frames| - p.read
  {
    hide Classify, Resolve, Expand, Batches;
    if p.read >= |o.frames| {
    } else {
      var f := o.frames[p.read];
      BatchesAppend(p.delivered, Expand(f, o.external));
      ExpandBatches(f, o.external);
      if Classify(f).Log? { ReadNextReturns(o, Took(o, p)); }
    }
  }

  lemma DoReturns(o: Script, s: Session, op: Op)
    requires s.seen.read <= |o.frames|
    ensures var (t, a) := Do(o, s, op); Batches(t.seen.delivered) == Batches(s.seen.delivered) + AnswerBatch(a)
  {
    hide ReadNext, Batches;
    assert Batches(s.seen.delivered) + [] == Batches(s.seen.delivered);
    ReadNextReturns(o, s.seen);
  }

  /** The batches the steps of a run return are exactly the batches delivered, in order. */
  lemma {:induction false} RunReturns(o: Script, s: Session, ops: seq<Op>)
    requires s.seen.read <= |o.frames|
    ensures Batches(Run(o, s, ops).0.seen.delivered) == Batches(s.seen.delivered) + AnswerBatches(Run(o, s, ops).1)
    decreases |ops|
  {
    hide Do, Batches, AnswerBatch;
    if ops == [] {
    } else {
      DoReturns(o, s, ops[0]);
      ReadBounded(o, s, ops[0]);
      RunReturns(o, Do(o, s, ops[0]).0, ops[1..]);
      var (u, rest) := Run(o, Do(o, s, ops[0]).0, ops[1..]);
      var a := Do(o, s, ops[0]).1;
      assert ([a] + rest)[1..] == rest;
      assert Batches(s.seen.delivered) + (AnswerBatch(a) + AnswerBatches(rest))
          == (Batches(s.seen.delivered) + AnswerBatch(a)) + AnswerBatches(rest);
    }
  }

  function Inputs(trace: seq<Action>): seq<Frame> {
    if trace == [] then []
    else Inputs(trace[..|trace| - 1]) + if trace[|trace| - 1].InputWritten? then [trace[|trace| - 1].input] else []
  }

  lemma InputsPush(trace: seq<Action>, a: Action)
    ensures Inputs(trace + [a]) == Inputs(trace) + if a.InputWritten? then [a.input] else []
  {
    assert (trace + [a])[..|trace|] == trace;
  }

  lemma SentWrites(io: Io, input: Frame, luck: Luck)
    ensures Sent(io, input, luck).1 ==> Inputs(Sent(io, input, luck).0.trace) == Inputs(io.trace) + [input]
  {
    hide Inputs;
    InputsPush(io.trace, InputOpened(luck.newWriter));
    InputsPush(EnsureWriter(io, luck).0.trace, InputWritten(input, false, luck.write));
    InputsPush(Written(io, input, false, luck).0.trace, OutputOpened(luck.newReader));
    assert Inputs(io.trace) + [] == Inputs(io.trace);
    assert Inputs(io.trace) + [input] + [] == Inputs(io.trace) + [input];
  }

  /**
   A step that returns a batch or the end of the stream wrote its input, and only that; a finished one wrote nothing.
   */
  lemma StepWritesItsInput(o: Script, s: Session, input: Frame, luck: Luck)
    requires s.seen.read <= |o.frames|
    ensures var (t, a) := Exchanged(o, s, input, luck);
            && (a.Ok? && !s.seen.finished ==> Inputs(t.io.trace) == Inputs(s.io.trace) + [input])
            && (a.Ok? && a.value.Some? ==> !s.seen.finished)
            && (Over(s) ==> t == s)
  {
    hide ReadNext, Inputs, Sent;
    SentWrites(s.io, input, luck);
  }

  predicate Over(s: Session) {
    s.cancelled || s.closed || s.seen.finished
  }

  /** No action from `from` on writes an input other than the cancel sentinel. */
  predicate OnlySentinels(trace: seq<Action>, from: nat) {
    forall j :: from <= j < |trace| && trace[j].InputWritten? ==> trace[j].sentinel
  }

  lemma DoWhenOver(o: Script, s: Session, op: Op)
    requires s.seen.read <= |o.frames| && Over(s)
    ensures var t := Do(o, s, op).0;
            Over(t) && s.io.trace <= t.io.trace && OnlySentinels(t.io.trace, |s.io.trace|)
  {
    hide ReadNext, Written, EnsureReader, FinishedInput;
    match op
    case Exchange(_, _) =>
    case Cancel(luck) =>
      SentinelOnly(s.io, luck);
      OpeningOnly(Written(s.io, CANCEL_FRAME, true, luck).0, luck);
    case Close(luck) =>
      ClosingOnly(s.io, luck);
      OpeningOnly(FinishedInput(s.io, luck), luck);
  }

  lemma SentinelOnly(io: Io, luck: Luck)
    ensures var t := Written(io, CANCEL_FRAME, true, luck).0; io.trace <= t.trace && OnlySentinels(t.trace, |io.trace|)
  {
  }

  lemma OpeningOnly(io: Io, luck: Luck)
    ensures var t := EnsureReader(io, luck).0; io.trace <= t.trace && OnlySentinels(t.trace, |io.trace|)
  {
  }

  lemma ClosingOnly(io: Io, luck: Luck)
    ensures var t := FinishedInput(io, luck); io.trace <= t.trace && OnlySentinels(t.trace, |io.trace|)
  {
  }

  /** After the stream is finished, cancelled or closed, no later step of any run writes an input but a cancel. */
  lemma {:induction false} NoInputAfterEnd(o: Script, s: Session, ops: seq<Op>)
    requires s.seen.read <= |o.frames| && Over(s)
    ensures var t := Run(o, s, ops).0;
            Over(t) && s.io.trace <= t.io.trace && OnlySentinels(t.io.trace, |s.io.trace|)
    decreases |ops|
  {
    hide Do, Over;
    if ops == [] {
    } else {
      ReadBounded(o, s, ops[0]);
      DoWhenOver(o, s, ops[0]);
      NoInputAfterEnd(o, Do(o, s, ops[0]).0, ops[1..]);
    }
  }

  // What a step answers.

  /** The first frame from `from` on that is no log, or the number of frames. */
  function NextFrame(fs: seq<Frame>, from: nat): (k: nat)
    requires from <= |fs|
    ensures from <= k <= |fs| && (forall i :: from <= i < k ==> Classify(fs[i]).Log?)
    ensures k < |fs| ==> !Classify(fs[k]).Log?
    decreases |fs| - from
  {
    if from == |fs| || !Classify(fs[from]).Log? then from else NextFrame(fs, from + 1)
  }

  /** What the caller is told at frame `k`, or at the end of the output. */
  function Told(o: Script, k: nat): Answer
    requires k <= |o.frames|
  {
    if k == |o.frames| then
      if o.ending.Eos? then Ok(None) else Err(if o.ending.Cut? then Truncated else o.ending.error)
    else
      var f := o.frames[k];
      if LOCATION_KEY in f.md then
        var r := Resolve(o.external, f.md).result;
        if r.Ok? then Ok(Some(r.value)) else Err(r.error)
      else if f.batch.rows > 0 || LOG_LEVEL_KEY !in f.md then Ok(Some(f))
      else Err(Remote(f.md))
  }

  /**
   Reading passes over logs only and answers with the next frame that is none: its batch, or what its pointer resolves
   to, or its error; the output is finished by every error that comes from a frame, by a cut and by the end marker, and
   not by a failure to read.
   */
  lemma {:induction false} ReadNextExactly(o: Script, p: Progress)
    requires p.read <= |o.frames| && !p.finished
    ensures var (q, a) := ReadNext(o, p);
            var k := NextFrame(o.frames, p.read);
            && a == Told(o, k)
            && q.read == (if k < |o.frames| then k + 1 else k)
            && (q.finished <==> !(a.Ok? && a.value.Some?) && !(k == |o.frames| && o.ending.Broken?))
    decreases |o.frames| - p.read
  {
    hide Resolve, Expand;
    if p.read >= |o.frames| || !Classify(o.frames[p.read]).Log? {
    } else {
      ReadNextExactly(o, Took(o, p));
    }
  }

  /** Everything a step needs of the transport is there or can be opened, and the input gets written. */
  predicate Ready(io: Io, luck: Luck) {
    && (io.inWriter || (io.writerRaw && luck.newWriter)) && luck.write
    && (io.outReader || (io.readerRaw && luck.newReader))
  }

  /** What a step answers and where it leaves the session, by the session's flags and the transport. */
  lemma StepExactly(o: Script, s: Session, input: Frame, luck: Luck)
    requires s.seen.read <= |o.frames|
    ensures var (t, a) := Exchanged(o, s, input, luck);
            && t.cancelled == s.cancelled && t.closed == s.closed
            && (s.cancelled || s.closed ==> a == Err(AfterClose) && t == s)
            && (!s.cancelled && !s.closed && s.seen.finished ==> a == Ok(None) && t == s)
            && (!Over(s) && !luck.start ==> a == Err(Poisoned) && t == s)
            && (!Over(s) && luck.start && !Ready(s.io, luck) ==> a == Err(Transport) && t.seen == s.seen)
            && (!Over(s) && luck.start && Ready(s.io, luck) ==> a == Told(o, NextFrame(o.frames, s.seen.read)))
  {
    hide ReadNext, NextFrame, Told;
    if !s.seen.finished { ReadNextExactly(o, s.seen); }
  }

  // The input stream.

  function Count(trace: seq<Action>, a: Action): nat {
    if trace == [] then 0 else Count(trace[..|trace| - 1], a) + if trace[|trace| - 1] == a then 1 else 0
  }

  lemma CountPush(trace: seq<Action>, b: Action, a: Action)
    ensures Count(trace + [b], a) == Count(trace, a) + if a == b then 1 else 0
  {
    assert (trace + [b])[..|trace|] == trace;
  }

  /** The input stream is opened at most once, and finished at most once and only after that. */
  predicate OneInput(io: Io) {
    var starts, ends := Count(io.trace, InputOpened(true)), Count(io.trace, InputFinished);
    && ends <= starts <= 1
    && (io.writerRaw ==> starts == 0 && !io.inWriter)
    && (io.inWriter <==> starts == 1 && ends == 0)
  }

  lemma WrittenOneInput(io: Io, input: Frame, sentinel: bool, luck: Luck)
    requires OneInput(io)
    ensures OneInput(Written(io, input, sentinel, luck).0)
  {
    hide Count;
    var t := EnsureWriter(io, luck).0;
    CountPush(io.trace, InputOpened(luck.newWriter), InputOpened(true));
    CountPush(io.trace, InputOpened(luck.newWriter), InputFinished);
    CountPush(t.trace, InputWritten(input, sentinel, luck.write), InputOpened(true));
    CountPush(t.trace, InputWritten(input, sentinel, luck.write), InputFinished);
  }

  lemma ReaderOneInput(io: Io, luck: Luck)
    requires OneInput(io)
    ensures OneInput(EnsureReader(io, luck).0)
    ensures var t := EnsureReader(io, luck).0;
            && Count(t.trace, InputOpened(true)) == Count(io.trace, InputOpened(true))
            && Count(t.trace, InputFinished) == Count(io.trace, InputFinished)
  {
    hide Count;
    CountPush(io.trace, OutputOpened(luck.newReader), InputOpened(true));
    CountPush(io.trace, OutputOpened(luck.newReader), InputFinished);
  }

  lemma FinishedOneInput(io: Io, luck: Luck)
    requires OneInput(io)
    ensures var t := FinishedInput(io, luck);
            && OneInput(t) && Count(t.trace, InputFinished) == Count(t.trace, InputOpened(true))
            && (io.writerRaw && luck.newWriter ==> Count(t.trace, InputFinished) == 1)
  {
    hide Count;
    CountPush(io.trace, InputFinished, InputOpened(true));
    CountPush(io.trace, InputFinished, InputFinished);
    CountPush(io.trace, InputOpened(luck.newWriter), InputOpened(true));
    CountPush(io.trace, InputOpened(luck.newWriter), InputFinished);
    CountPush(io.trace + [InputOpened(true)], InputFinished, InputOpened(true));
    CountPush(io.trace + [InputOpened(true)], InputFinished, InputFinished);
    assert io.trace + [InputOpened(true), InputFinished] == io.trace + [InputOpened(true)] + [InputFinished];
  }

  lemma DoOneInput(o: Script, s: Session, op: Op)
    requires s.seen.read <= |o.frames| && OneInput(s.io)
    ensures OneInput(Do(o, s, op).0.io)
  {
    hide OneInput, ReadNext, Written, EnsureReader, FinishedInput;
    match op
    case Exchange(input, luck) =>
      WrittenOneInput(s.io, input, false, luck);
      ReaderOneInput(Written(s.io, input, false, luck).0, luck);
    case Cancel(luck) =>
      WrittenOneInput(s.io, CANCEL_FRAME, true, luck);
      ReaderOneInput(Written(s.io, CANCEL_FRAME, true, luck).0, luck);
    case Close(luck) =>
      FinishedOneInput(s.io, luck);
      ReaderOneInput(FinishedInput(s.io, luck), luck);
  }

  lemma {:induction false} RunOneInput(o: Script, s: Session, ops: seq<Op>)
    requires s.seen.read <= |o.frames| && OneInput(s.io)
    ensures OneInput(Run(o, s, ops).0.io)
    decreases |ops|
  {
    hide Do, OneInput;
    if ops == [] {
    } else {
      ReadBounded(o, s, ops[0]);
      DoOneInput(o, s, ops[0]);
      RunOneInput(o, Do(o, s, ops[0]).0, ops[1..]);
    }
  }

  /**
   In every run the input stream is opened at most once and finished at most once; a close that starts its turn on a
   session that was neither closed nor cancelled leaves no input stream unfinished, and opens one only to finish it.
   */
  lemma CloseFinishesInput(o: Script, ops: seq<Op>, luck: Luck)
    ensures var s := Run(o, FRESH, ops).0;
            var t := Closed(s, luck).0;
            && t.closed && OneInput(s.io) && OneInput(t.io)
            && (!s.closed && !s.cancelled && luck.start ==>
                  Count(t.io.trace, InputFinished) == Count(t.io.trace, InputOpened(true)) && !t.io.inWriter)
            && (!s.closed && !s.cancelled && luck.start && s.io.writerRaw && luck.newWriter ==>
                  Count(t.io.trace, InputFinished) == 1)
  {
    assert OneInput(FRESH.io);
    RunOneInput(o, FRESH, ops);
    var s := Run(o, FRESH, ops).0;
    hide OneInput, EnsureReader, FinishedInput, Count, Run;
    FinishedOneInput(s.io, luck);
    ReaderOneInput(FinishedInput(s.io, luck), luck);
    assert OneInput(Closed(s, luck).0.io);
    if !s.closed && !s.cancelled && luck.start { FinishedMeansShut(Closed(s, luck).0.io); }
  }

  /**
   What a close answers: an error only when its turn cannot be started; when it can, both ends have been opened or found
   not to open. Closing again, or after a cancel, touches the transport no more.
   */
  lemma CloseExactly(s: Session, luck: Luck)
    ensures var (t, a) := Closed(s, luck);
            && t.closed && t.cancelled == s.cancelled && t.seen == s.seen
            && a == (if !s.closed && !s.cancelled && !luck.start then Err(Poisoned) else Ok(None))
            && (s.closed || s.cancelled || !luck.start ==> t.io == s.io)
            && (!s.closed && !s.cancelled && luck.start ==>
                  (s.io.inWriter || !t.io.writerRaw) && (t.io.outReader || !t.io.readerRaw))
  {
  }

  lemma FinishedMeansShut(io: Io)
    requires OneInput(io) && Count(io.trace, InputFinished) == Count(io.trace, InputOpened(true))
    ensures !io.inWriter
  {
  }

  /** A cancel that succeeds on an unfinished session has written the sentinel, as its last input, and nothing else. */
  lemma CancelWritesSentinel(s: Session, luck: Luck)
    ensures var (t, a) := Cancelled(s, luck);
            && t.seen == s.seen && t.closed == s.closed
            && (a.Ok? ==> t.cancelled) && (a.Err? ==> t.cancelled == s.cancelled)
            && (a.Ok? && !s.cancelled && !s.seen.finished ==>
                  Inputs(t.io.trace) == Inputs(s.io.trace) + [Frame(Batch(0, 0), map["vgi_rpc.cancel" := "1"])])
            && (a.Ok? && !s.cancelled && !s.seen.finished ==> t.io.outReader || !t.io.readerRaw)
            && (s.cancelled || s.seen.finished ==> a == Ok(None) && t.io == s.io)
            && (a.Err? ==> a.error == if luck.start then Transport else Poisoned)
  {
    hide Inputs;
    InputsPush(s.io.trace, InputOpened(luck.newWriter));
    InputsPush(EnsureWriter(s.io, luck).0.trace, InputWritten(CANCEL_FRAME, true, luck.write));
    InputsPush(Written(s.io, CANCEL_FRAME, true, luck).0.trace, OutputOpened(luck.newReader));
    assert Inputs(s.io.trace) + [] == Inputs(s.io.trace);
    assert Inputs(s.io.trace) + [CANCEL_FRAME] + [] == Inputs(s.io.trace) + [CANCEL_FRAME];
  }

  // Ends.

  lemma {:induction false} ReadNextEnds(o: Script, p: Progress)
    requires p.read <= |o.frames|
    ensures ReadNext(o, p).1 == Ok(None) <==>
            o.ending.Eos? && forall j :: p.read <= j < |o.frames| ==> Classify(o.frames[j]).Log?
    ensures ReadNext(o, p).1 == Ok(None) ==> ReadNext(o, p).0.read == |o.frames| && ReadNext(o, p).0.finished
    decreases |o.frames| - p.read
  {
    hide Classify, Resolve, Expand;
    if p.read >= |o.frames| || !Classify(o.frames[p.read]).Log? {
    } else {
      ReadNextEnds(o, Took(o, p));
    }
  }

  /** In every run the first end a caller sees comes after the end marker and every frame: a cut stream has none. */
  lemma FirstEndIsComplete(o: Script, ops: seq<Op>, input: Frame, luck: Luck)
    requires var s := Run(o, FRESH, ops).0;
             s.seen.read <= |o.frames| && !s.seen.finished && Exchanged(o, s, input, luck).1 == Ok(None)
    ensures o.ending.Eos?
    ensures Exchanged(o, Run(o, FRESH, ops).0, input, luck).0.seen.delivered == Expected(o.frames, o.external)
  {
    hide ReadNext, Expected, Handles;
    DeliversInOrder(o, ops);
    var s := Run(o, FRESH, ops).0;
    ReadNextEnds(o, s.seen);
    ReadNextDelivers(o, s.seen);
    assert o.frames[..|o.frames|] == o.frames;
  }

  // An end after a failure.

  /** The frame gave the caller what it holds: no error envelope, no pointer that does not resolve. */
  predicate Sound(f: Frame, external: Option<Resolver>) {
    !Classify(f).Exception? && (Classify(f).Pointer? ==> Resolve(external, f.md).result.Ok?)
  }

  predicate SoundUpTo(o: Script, n: nat)
    requires n <= |o.frames|
  {
    forall j :: 0 <= j < n ==> Sound(o.frames[j], o.external)
  }

  /** The stream came to its end marker with every frame read and none of them a failure. */
  predicate Whole(o: Script, p: Progress) {
    o.ending.Eos? && p.read == |o.frames| && SoundUpTo(o, |o.frames|)
  }

  /** Reading from an unfinished stream finishes it with an end exactly when the stream is whole. */
  lemma {:induction false} ReadNextWhole(o: Script, p: Progress)
    requires p.read <= |o.frames| && !p.finished && SoundUpTo(o, p.read)
    ensures var (q, a) := ReadNext(o, p);
            && p.read <= q.read <= |o.frames|
            && (q.finished ==> (a == Ok(None) <==> Whole(o, q)))
            && (!q.finished ==> SoundUpTo(o, q.read) && a != Ok(None))
    decreases |o.frames| - p.read
  {
    hide Resolve, Expand;
    if p.read >= |o.frames| {
    } else {
      assert Sound(o.frames[p.read], o.external) <==> SoundUpTo(o, p.read + 1);
      if Classify(o.frames[p.read]).Log? { ReadNextWhole(o, Took(o, p)); }
    }
  }

  /** A step of an unfinished session answered with an end. */
  predicate SawEnd(o: Script, s: Session, op: Op)
    requires s.seen.read <= |o.frames|
  {
    op.Exchange? && !s.seen.finished && Do(o, s, op).1 == Ok(None)
  }

  predicate Saw(o: Script, s: Session, ops: seq<Op>, before: bool)
    requires s.seen.read <= |o.frames|
    decreases |ops|
  {
    if ops == [] then before
    else
      ReadBounded(o, s, ops[0]);
      Saw(o, Do(o, s, ops[0]).0, ops[1..], before || SawEnd(o, s, ops[0]))
  }

  /** An unfinished stream has had no failure; a finished one is whole exactly when an end was seen. */
  predicate Honest(o: Script, p: Progress, saw: bool) {
    p.read <= |o.frames| && if p.finished then saw <==> Whole(o, p) else !saw && SoundUpTo(o, p.read)
  }

  lemma DoHonest(o: Script, s: Session, op: Op, saw: bool)
    requires Honest(o, s.seen, saw)
    ensures Honest(o, Do(o, s, op).0.seen, saw || SawEnd(o, s, op))
  {
    hide ReadNext, SoundUpTo, Sent;
    if !s.seen.finished { ReadNextWhole(o, s.seen); }
  }

  lemma {:induction false} RunHonest(o: Script, s: Session, ops: seq<Op>, saw: bool)
    requires Honest(o, s.seen, saw)
    ensures Honest(o, Run(o, s, ops).0.seen, Saw(o, s, ops, saw))
    decreases |ops|
  {
    hide Do, SawEnd;
    if ops == [] {
    } else {
      DoHonest(o, s, ops[0], saw);
      RunHonest(o, Do(o, s, ops[0]).0, ops[1..], saw || SawEnd(o, s, ops[0]));
    }
  }

  /**
   In every run, a step that answers with an end stands on a whole stream exactly when the session was not finished
   before, or an earlier step on the unfinished session had answered with an end.
   */
  lemma EndIsWholeExactly(o: Script, ops: seq<Op>, input: Frame, luck: Luck)
    requires var s := Run(o, FRESH, ops).0;
             s.seen.read <= |o.frames| && Exchanged(o, s, input, luck).1 == Ok(None)
    ensures var s := Run(o, FRESH, ops).0;
            Whole(o, Exchanged(o, s, input, luck).0.seen) <==> !s.seen.finished || Saw(o, FRESH, ops, false)
  {
    RunHonest(o, FRESH, ops, false);
    var s := Run(o, FRESH, ops).0;
    hide Run, ReadNext, Saw, Whole, Sent;
    if !s.seen.finished { ReadNextWhole(o, s.seen); }
  }

  /** Whatever error finishes the stream, the next step answers with an end, and that end is not whole. */
  lemma EndAfterError(o: Script, s: Session, first: Frame, luck: Luck, second: Frame, luck': Luck)
    requires s.seen.read <= |o.frames| && !s.seen.finished && SoundUpTo(o, s.seen.read)
    requires Exchanged(o, s, first, luck).1.Err? && Exchanged(o, s, first, luck).0.seen.finished
    ensures var t := Exchanged(o, s, first, luck).0;
            && t.seen.read <= |o.frames| && Exchanged(o, t, second, luck') == (t, Ok(None)) && !Whole(o, t.seen)
  {
    hide ReadNext, Sent, SoundUpTo;
    ReadNextWhole(o, s.seen);
  }

  /** A second step after a cut stream reports an end: the error is given once. */
  lemma EndAfterCut(external: Option<Resolver>, input: Frame)
    ensures var luck := Luck(true, true, true, true);
            var o := Script([], Cut, external);
            Run(o, FRESH, [Exchange(input, luck), Exchange(input, luck)]).1 == [Err(Truncated), Ok(None)]
  {
    var luck := Luck(true, true, true, true);
    var o := Script([], Cut, external);
    var ops := [Exchange(input, luck), Exchange(input, luck)];
    var s1 := Do(o, FRESH, ops[0]).0;
    assert s1.seen.finished && Do(o, FRESH, ops[0]).1 == Err(Truncated);
    assert ops[1..] == [ops[1]] && ops[1..][1..] == [];
    assert Run(o, s1, ops[1..]).1 == [Ok(None)] + [];
  }

  // Externalized turns.

  /** A delivery with its location keys set aside. */
  function Bare(d: Delivery): Delivery {
    if d.Returned? then Returned(d.frame.(md := d.frame.md - LOCATION_KEYS)) else d
  }

  function BareAll(ds: seq<Delivery>): seq<Delivery> {
    if ds == [] then [] else BareAll(ds[..|ds| - 1]) + [Bare(ds[|ds| - 1])]
  }

  predicate AllLogs(fs: seq<Frame>) {
    forall i :: 0 <= i < |fs| ==> Classify(fs[i]).Log?
  }

  lemma AsLogsLast(logs: seq<Metadata>, m: Metadata)
    ensures AsLogs(logs + [m]) == AsLogs(logs) + [Logged(m)]
  {
    assert (logs + [m])[..|logs|] == logs;
  }

  lemma {:induction false} LogsExpand(fs: seq<Frame>, external: Option<Resolver>)
    requires AllLogs(fs)
    ensures Expected(fs, external) == AsLogs(LogsOf(fs))
    decreases |fs|
  {
    hide Classify;
    if fs == [] {
    } else {
      var n := |fs| - 1;
      LogsExpand(fs[..n], external);
      LogsOfPush(fs[..n], fs[n]);
      assert fs == fs[..n] + [fs[n]];
      hide LogsOf;
      AsLogsLast(LogsOf(fs[..n]), Classify(fs[n]).md);
    }
  }

  lemma {:induction false} LogsOfPush(fs: seq<Frame>, f: Frame)
    ensures LogsOf(fs + [f]) == LogsOf(fs) + if Classify(f).Log? then [Classify(f).md] else []
  {
    hide Classify;
    if fs == [] {
      assert fs + [f] == [f] && [f][1..] == [];
    } else {
      assert (fs + [f])[0] == fs[0] && (fs + [f])[1..] == fs[1..] + [f];
      LogsOfPush(fs[1..], f);
      var first, last := if Classify(fs[0]).Log? then [Classify(fs[0]).md] else [],
                         if Classify(f).Log? then [Classify(f).md] else [];
      Regroup(first, LogsOf(fs[1..]), last);
    }
  }

  lemma {:induction false} DataOfPush(fs: seq<Frame>, f: Frame)
    ensures DataOf(fs + [f]) == DataOf(fs) + if Classify(f).Data? then [f] else []
  {
    hide Classify;
    if fs == [] {
      assert fs + [f] == [f] && [f][1..] == [];
    } else {
      assert (fs + [f])[0] == fs[0] && (fs + [f])[1..] == fs[1..] + [f];
      DataOfPush(fs[1..], f);
      Regroup(if Classify(fs[0]).Data? then [fs[0]] else [], DataOf(fs[1..]), if Classify(f).Data? then [f] else []);
    }
  }

  /** The payload of a turn, resolved: its logs and then its batch. */
  lemma TurnWalks(logs: seq<Frame>, data: Frame)
    requires AllLogs(logs) && Classify(data).Data?
    ensures WalkFrames(Stream(logs + [data], None), None) == Walk(LogsOf(logs), Ok(data))
  {
    hide Classify, WalkFrames;
    var run := logs + [data];
    LogsOfPush(logs, data);
    DataOfPush(logs, data);
    LogsHoldNoData(logs);
    assert Plain(run);
    hide LogsOf, DataOf;
    WalkExactly(Stream(run, None), None);
    assert Found(None) + DataOf(run) == [data];
    assert LogsOf(run) == LogsOf(logs) + [] == LogsOf(logs);
  }

  lemma {:induction false} LogsHoldNoData(fs: seq<Frame>)
    requires AllLogs(fs)
    ensures DataOf(fs) == []
  {
    hide Classify;
    if fs == [] {
    } else {
      assert AllLogs(fs[1..]);
      LogsHoldNoData(fs[1..]);
    }
  }

  /** The payload of a turn, inline. */
  lemma TurnExpands(logs: seq<Frame>, data: Frame, external: Option<Resolver>)
    requires AllLogs(logs) && Classify(data).Data?
    ensures Expected(logs + [data], external) == AsLogs(LogsOf(logs)) + [Returned(data)]
  {
    hide Classify, LogsOf, AsLogs;
    LogsExpand(logs, external);
    assert (logs + [data])[..|logs|] == logs;
  }

  lemma BareLast(ds: seq<Delivery>, d: Delivery)
    ensures BareAll(ds + [d]) == BareAll(ds) + [Bare(d)]
  {
    assert (ds + [d])[..|ds|] == ds;
  }

  /** A turn's logs and its one batch reach the caller alike whether they come inline or behind one pointer. */
  lemma {:induction false} ExternalizedTurnAlike(
    logs: seq<Frame>, data: Frame, outer: Frame, external: Resolver, ms: string)
    requires AllLogs(logs) && Classify(data).Data?
    requires LOCATION_KEY in outer.md && outer.md - LOCATION_KEYS == map[]
    requires external.fetch(outer.md) == Ok(Fetched(Stream(logs + [data], None), ms))
    ensures BareAll(Expand(outer, Some(external))) == BareAll(Expected(logs + [data], Some(external)))
  {
    hide AllLogs, WalkFrames, Expected, BareAll, AsLogs, LogsOf;
    TurnExpands(logs, data, Some(external));
    TurnWalks(logs, data);
    var md := ResolvedMetadata(outer.md, data.md, outer.md[LOCATION_KEY], ms);
    assert md - LOCATION_KEYS == data.md - LOCATION_KEYS;
    BareLast(AsLogs(LogsOf(logs)), Returned(data));
    BareLast(AsLogs(LogsOf(logs)), Returned(data.(md := md)));
  }

  /** The session. The log callback and the returned batches fill `delivered`. */
  class StreamSession {
    const script: Script
    var readerRaw: bool
    var outReader: bool
    var writerRaw: bool
    var inWriter: bool
    var cancelled: bool
    var finished: bool
    var closed: bool
    var read: nat
    var delivered: seq<Delivery>
    var trace: seq<Action>

    function Wire(): Io
      reads this
    {
      Io(readerRaw, outReader, writerRaw, inWriter, trace)
    }

    function View(): Session
      reads this
    {
      Session(Wire(), Progress(finished, read, delivered), cancelled, closed)
    }

    constructor (o: Script)
      ensures View() == FRESH && script == o
    {
      script := o;
      readerRaw, outReader, writerRaw, inWriter := true, false, true, false;
      cancelled, finished, closed, read, delivered, trace := false, false, false, 0, [], [];
    }

    method EnsureInputWriter(luck: Luck) returns (ok: bool)
      modifies `writerRaw, `inWriter, `trace
      ensures (Wire(), ok) == EnsureWriter(old(Wire()), luck)
    {
      if !inWriter {
        if !writerRaw { return false; }
        writerRaw := false;
        trace := trace + [InputOpened(luck.newWriter)];
        if !luck.newWriter { return false; }
        inWriter := true;
      }
      ok := true;
    }

    method EnsureOutputReader(luck: Luck) returns (ok: bool)
      modifies `readerRaw, `outReader, `trace
      ensures (Wire(), ok) == EnsureReader(old(Wire()), luck)
    {
      if !outReader {
        if !readerRaw { return false; }
        readerRaw := false;
        trace := trace + [OutputOpened(luck.newReader)];
        if !luck.newReader { return false; }
        outReader := true;
      }
      ok := true;
    }

    method WriteInput(input: Frame, sentinel: bool, luck: Luck) returns (ok: bool)
      modifies `writerRaw, `inWriter, `trace
      ensures (Wire(), ok) == Written(old(Wire()), input, sentinel, luck)
    {
      ok := EnsureInputWriter(luck);
      if !ok { return; }
      trace := trace + [InputWritten(input, sentinel, luck.write)];
      ok := luck.write;
    }

    method ReadNextData() returns (a: Answer)
      requires read <= |script.frames|
      modifies `finished, `read, `delivered
      ensures (View().seen, a) == ReadNext(script, old(View().seen))
    {
      hide Classify, Resolve;
      while read < |script.frames|
        invariant read <= |script.frames|
        invariant ReadNext(script, View().seen) == ReadNext(script, old(View().seen))
        decreases |script.frames| - read
      {
        var f := script.frames[read];
        ghost var before := View().seen;
        assert ReadNext(script, before) == ReadNext(script, old(View().seen));
        read := read + 1;
        match Classify(f) {
          case Log(m) => delivered := delivered + [Logged(m)];
          case Exception(e) =>
            assert delivered == delivered + [];
            finished := true;
            return Err(e);
          case Data =>
            delivered := delivered + [Returned(f)];
            return Ok(Some(f));
          case Pointer =>
            PointerHasLocation(f);
            a := TakePointer(f);
            return;
        }
      }
      match script.ending
      case Eos =>
        finished := true;
        a := Ok(None);
      case Cut =>
        finished := true;
        a := Err(Truncated);
      case Broken(e) => a := Err(e);
    }

    /** Resolves a pointer, dispatching its logs. */
    method TakePointer(f: Frame) returns (a: Answer)
      requires Classify(f).Pointer? && LOCATION_KEY in f.md
      modifies `finished, `delivered
      ensures delivered == old(delivered) + Expand(f, script.external)
      ensures var r := Resolve(script.external, f.md).result;
              if r.Ok? then a == Ok(Some(r.value)) && finished == old(finished) else a == Err(r.error) && finished
    {
      hide Resolve;
      var logs, r := ResolveWith(script.external, f.md);
      delivered := delivered + AsLogs(logs);
      if r.Err? {
        assert old(delivered) + (AsLogs(logs) + []) == old(delivered) + AsLogs(logs);
        finished := true;
        return Err(r.error);
      }
      assert old(delivered) + (AsLogs(logs) + [Returned(r.value)]) == delivered + [Returned(r.value)];
      delivered := delivered + [Returned(r.value)];
      a := Ok(Some(r.value));
    }

    method Exchange(input: Frame, luck: Luck) returns (a: Answer)
      requires read <= |script.frames|
      modifies this
      ensures (View(), a) == Exchanged(script, old(View()), input, luck)
    {
      hide ReadNext, Written, EnsureReader;
      if cancelled || closed { return Err(AfterClose); }
      if finished { return Ok(None); }
      if !luck.start { return Err(Poisoned); }
      var ok := WriteInput(input, false, luck);
      if !ok { return Err(Transport); }
      ok := EnsureOutputReader(luck);
      if !ok { return Err(Transport); }
      a := ReadNextData();
    }

    method Cancel(luck: Luck) returns (a: Answer)
      modifies this
      ensures (View(), a) == Cancelled(old(View()), luck)
    {
      hide Written, EnsureReader;
      if cancelled || finished {
        cancelled := true;
        return Ok(None);
      }
      if !luck.start { return Err(Poisoned); }
      var ok := WriteInput(CANCEL_FRAME, true, luck);
      if !ok { return Err(Transport); }
      cancelled := true;
      var _ := EnsureOutputReader(luck);
      a := Ok(None);
    }

    method Close(luck: Luck) returns (a: Answer)
      modifies this
      ensures (View(), a) == Closed(old(View()), luck)
    {
      hide EnsureReader;
      if closed { return Ok(None); }
      closed := true;
      if cancelled { return Ok(None); }
      if !luck.start { return Err(Poisoned); }
      FinishInput(luck);
      var _ := EnsureOutputReader(luck);
      a := Ok(None);
    }

    method FinishInput(luck: Luck)
      modifies `writerRaw, `inWriter, `trace
      ensures Wire() == FinishedInput(old(Wire()), luck)
    {
      if inWriter {
        inWriter, trace := false, trace + [InputFinished];
      } else if writerRaw {
        writerRaw, trace := false, trace + [InputOpened(luck.newWriter)];
        if luck.newWriter {
          assert trace + [InputFinished] == old(trace) + [InputOpened(true), InputFinished];
          trace := trace + [InputFinished];
        }
      }
    }
  }
}
