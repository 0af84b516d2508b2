// The Codex bridge: two output pumps multiplexed over one socket, one input feed, and the client
// that takes the streams apart again. Payloads travel as base64 text inside JSON lines.
module CodexBridge {
  import opened Common
  import opened Base64

  const CHUNK_BYTES: nat := 65536
  const TIMEOUT_CODE := 124

  datatype Stream = Stdout | Stderr

  // The frames that cross the socket once a session is ready.
  datatype Frame =
    | Data(stream: Stream, data: string)
    | Exit(code: int)
    | Failure
    | StdinData(data: string)
    | StdinEof

  function EncodePayload(bytes: seq<Byte>): string {
    Base64.Encode(bytes, false)
  }

  function DecodePayload(data: string): Option<seq<Byte>> {
    Base64.Decode(data, false)
  }

  // ----- Frame lines -----

  // The compact JSON line of a data frame.
  function DataLine(kind: string, data: string): string {
    "{\"type\":\"" + kind + "\",\"data\":\"" + data + "\"}\n"
  }

  // A chunk's line is far below the frame limit, and its newline is its last character.
  lemma DataLineFits(kind: string, bytes: seq<Byte>)
    requires |bytes| <= 65536 && kind in {"stdin", "stdout", "stderr"}
    ensures |EncodePayload(bytes)| <= 87384
    ensures var line := DataLine(kind, EncodePayload(bytes));
            && |line| <= 87384 + 28 && |line| < 1048576
            && line[|line| - 1] == '\n' && forall i :: 0 <= i < |line| - 1 ==> line[i] != '\n'
  {
    CharactersShape(bytes, false);
    PayloadHasNoNewline(bytes);
    var text := EncodePayload(bytes);
    hide Characters;
    var head, tail := "{\"type\":\"" + kind + "\",\"data\":\"", "\"}\n";
    assert DataLine(kind, text) == head + text + tail;
    assert forall i :: 0 <= i < |head| ==> head[i] != '\n';
  }

  lemma {:induction false} CharactersHaveNoNewline(bytes: seq<Byte>)
    ensures forall i :: 0 <= i < |Characters(bytes, false)| ==> Characters(bytes, false)[i] != '\n'
    decreases |bytes|
  {
    if bytes != [] {
      var group := if |bytes| <= 3 then bytes else bytes[..3];
      assert forall v: Digit :: DigitChar(v, false) != '\n';
      if |bytes| > 3 { CharactersHaveNoNewline(bytes[3..]); }
    }
  }

  lemma PayloadHasNoNewline(bytes: seq<Byte>)
    ensures forall i :: 0 <= i < |EncodePayload(bytes)| ==> EncodePayload(bytes)[i] != '\n'
  {
    CharactersHaveNoNewline(bytes);
  }

  // ----- What a sequence of frames carries -----

  function PayloadOf(frame: Frame, stream: Stream): seq<Byte> {
    if frame.Data? && frame.stream == stream && DecodePayload(frame.data).Some?
    then DecodePayload(frame.data).value
    else []
  }

  function Payload(frames: seq<Frame>, stream: Stream): seq<Byte> {
    if frames == [] then []
    else Payload(frames[..|frames| - 1], stream) + PayloadOf(frames[|frames| - 1], stream)
  }

  function StdinPayload(frames: seq<Frame>): seq<Byte> {
    if frames == [] then []
    else
      var last := frames[|frames| - 1];
      StdinPayload(frames[..|frames| - 1])
      + (if last.StdinData? && DecodePayload(last.data).Some? then DecodePayload(last.data).value else [])
  }

  lemma PayloadSnoc(frames: seq<Frame>, frame: Frame, stream: Stream)
    ensures Payload(frames + [frame], stream) == Payload(frames, stream) + PayloadOf(frame, stream)
    ensures StdinPayload(frames + [frame])
         == StdinPayload(frames) + (if frame.StdinData? && DecodePayload(frame.data).Some?
                                     then DecodePayload(frame.data).value else [])
  {
    assert (frames + [frame])[..|frames|] == frames;
  }

  lemma ChunkPayload(bytes: seq<Byte>, stream: Stream)
    ensures DecodePayload(EncodePayload(bytes)) == Some(bytes)
    ensures forall other ::
              PayloadOf(Data(stream, EncodePayload(bytes)), other) == if other == stream then bytes else []
  {
    EncodeDecode(bytes, false);
  }

  // ----- Output: process, pumps, lock, socket and client -----

  // One output pipe of the process and its pump. `held` is a chunk read but not yet written.
  datatype Pipe = Pipe(produced: seq<Byte>, closed: bool, taken: nat, held: Option<seq<Byte>>, done: bool)

  datatype Ending = Running | Normal(code: int) | TimedOut | Failed

  // `delivered` frames have been handled by the client, whose two buffers and result follow.
  datatype Session = Session(
    stdout: Pipe, stderr: Pipe, lock: Option<Stream>, wire: seq<Frame>, ending: Ending,
    delivered: nat, outBuffer: seq<Byte>, errBuffer: seq<Byte>, result: Option<int>)

  function PipeOf(s: Session, stream: Stream): Pipe {
    if stream.Stdout? then s.stdout else s.stderr
  }

  function SetPipe(s: Session, stream: Stream, pipe: Pipe): Session {
    if stream.Stdout? then s.(stdout := pipe) else s.(stderr := pipe)
  }

  function BufferOf(s: Session, stream: Stream): seq<Byte> {
    if stream.Stdout? then s.outBuffer else s.errBuffer
  }

  datatype Step =
    | Produce(stream: Stream, bytes: seq<Byte>)
    | Close(stream: Stream)
    | Read(stream: Stream, size: nat)
    | Lock(stream: Stream)
    | Write(stream: Stream)
    | Unlock(stream: Stream)
    | EndPump(stream: Stream)
    | Finish(code: int)
    | Timeout
    | Fail
    | Receive

  const NEW_PIPE := Pipe([], false, 0, None, false)

  const STARTED := Session(NEW_PIPE, NEW_PIPE, None, [], Running, 0, [], [], None)

  predicate Shaped(s: Session) {
    s.delivered <= |s.wire| && s.stdout.taken <= |s.stdout.produced| && s.stderr.taken <= |s.stderr.produced|
  }

  // `read(65536)` returned `size` bytes, or all there were.
  function Taken(pipe: Pipe, size: nat): Pipe
    requires pipe.taken <= |pipe.produced|
  {
    var available := |pipe.produced| - pipe.taken;
    var n := if size <= available then size else available;
    pipe.(taken := pipe.taken + n, held := Some(pipe.produced[pipe.taken..pipe.taken + n]))
  }

  predicate AtEnd(pipe: Pipe) {
    pipe.closed && pipe.held.None? && pipe.taken == |pipe.produced|
  }

  // The client's loop body on its next frame: 126 for a failure, the code for an exit.
  function ClientStep(s: Session): Session
    requires Shaped(s) && s.delivered < |s.wire|
  {
    var frame := s.wire[s.delivered];
    var next := s.(delivered := s.delivered + 1);
    match frame
    case Data(stream, data) =>
      if stream.Stdout? then next.(outBuffer := s.outBuffer + PayloadOf(frame, stream))
      else next.(errBuffer := s.errBuffer + PayloadOf(frame, stream))
    case Exit(code) => next.(result := Some(code))
    case Failure => next.(result := Some(126))
    case _ => next
  }

  // A step that does not fit the state changes nothing. After a timeout or a failure the pumps may
  // go on writing until they are cancelled; before the normal exit frame both have ended.
  function Apply(s: Session, step: Step): (t: Session)
    requires Shaped(s)
    ensures Shaped(t)
  {
    match step
    case Produce(stream, bytes) =>
      var pipe := PipeOf(s, stream);
      if pipe.closed then s else SetPipe(s, stream, pipe.(produced := pipe.produced + bytes))
    case Close(stream) => SetPipe(s, stream, PipeOf(s, stream).(closed := true))
    case Read(stream, size) =>
      var pipe := PipeOf(s, stream);
      if !pipe.done && pipe.held.None? && 1 <= size <= CHUNK_BYTES && pipe.taken < |pipe.produced| then
        SetPipe(s, stream, Taken(pipe, size))
      else s
    case Lock(stream) =>
      if s.lock.None? && PipeOf(s, stream).held.Some? then s.(lock := Some(stream)) else s
    case Write(stream) =>
      var pipe := PipeOf(s, stream);
      if s.lock == Some(stream) && pipe.held.Some? then
        SetPipe(s, stream, pipe.(held := None)).(wire := s.wire + [Data(stream, EncodePayload(pipe.held.value))])
      else s
    case Unlock(stream) => if s.lock == Some(stream) && PipeOf(s, stream).held.None? then s.(lock := None) else s
    case EndPump(stream) =>
      var pipe := PipeOf(s, stream);
      if AtEnd(pipe) then SetPipe(s, stream, pipe.(done := true)) else s
    case Finish(code) =>
      if s.ending.Running? && s.lock.None? && s.stdout.done && s.stderr.done then
        s.(wire := s.wire + [Exit(code)], ending := Normal(code))
      else s
    case Timeout =>
      if s.ending.Running? && s.lock.None? then s.(wire := s.wire + [Exit(TIMEOUT_CODE)], ending := TimedOut) else s
    case Fail => if s.ending.Running? && s.lock.None? then s.(wire := s.wire + [Failure], ending := Failed) else s
    case Receive => if s.delivered < |s.wire| && s.result.None? then ClientStep(s) else s
  }

  // How many bytes of a stream have reached the socket.
  function Sent(pipe: Pipe): int {
    pipe.taken - (if pipe.held.Some? then |pipe.held.value| else 0)
  }

  ghost predicate PipeValid(pipe: Pipe) {
    && 0 <= Sent(pipe) <= pipe.taken <= |pipe.produced|
    && (pipe.held.Some? ==>
        pipe.held.value == pipe.produced[Sent(pipe)..pipe.taken] && |pipe.held.value| <= CHUNK_BYTES)
    && (pipe.done ==> AtEnd(pipe))
  }

  ghost function SentBytes(pipe: Pipe): seq<Byte>
    requires PipeValid(pipe)
  {
    pipe.produced[..Sent(pipe)]
  }

  // The socket carries exactly the sent bytes, the client's buffer exactly the delivered ones.
  ghost predicate Accounted(pipe: Pipe, wire: seq<Frame>, delivered: nat, buffer: seq<Byte>, stream: Stream)
    requires delivered <= |wire|
  {
    PipeValid(pipe) && Payload(wire, stream) == SentBytes(pipe) && buffer == Payload(wire[..delivered], stream)
  }

  lemma PipeStepsKeep(pipe: Pipe, bytes: seq<Byte>, size: nat)
    requires PipeValid(pipe)
    ensures !pipe.closed ==>
              PipeValid(pipe.(produced := pipe.produced + bytes))
                  && SentBytes(pipe.(produced := pipe.produced + bytes)) == SentBytes(pipe)
    ensures PipeValid(pipe.(closed := true)) && SentBytes(pipe.(closed := true)) == SentBytes(pipe)
    ensures !pipe.done && pipe.held.None? && size <= CHUNK_BYTES ==>
              PipeValid(Taken(pipe, size)) && SentBytes(Taken(pipe, size)) == SentBytes(pipe)
    ensures AtEnd(pipe) ==> PipeValid(pipe.(done := true)) && SentBytes(pipe.(done := true)) == SentBytes(pipe)
    ensures pipe.held.Some? ==>
              PipeValid(pipe.(held := None)) && SentBytes(pipe.(held := None)) == SentBytes(pipe) + pipe.held.value
  {
    if !pipe.closed { ProduceKeeps(pipe, bytes); }
    if pipe.held.Some? {
      assert pipe.produced[..Sent(pipe)] + pipe.produced[Sent(pipe)..pipe.taken] == pipe.produced[..pipe.taken];
    }
  }

  lemma ProduceKeeps(pipe: Pipe, bytes: seq<Byte>)
    requires PipeValid(pipe) && !pipe.closed
    ensures PipeValid(pipe.(produced := pipe.produced + bytes))
    ensures SentBytes(pipe.(produced := pipe.produced + bytes)) == SentBytes(pipe)
  {
    var longer := pipe.produced + bytes;
    assert longer[..Sent(pipe)] == pipe.produced[..Sent(pipe)];
    assert longer[Sent(pipe)..pipe.taken] == pipe.produced[Sent(pipe)..pipe.taken];
  }

  ghost predicate Valid(s: Session) {
    && Shaped(s)
    && Accounted(s.stdout, s.wire, s.delivered, s.outBuffer, Stdout)
    && Accounted(s.stderr, s.wire, s.delivered, s.errBuffer, Stderr)
    && (forall i :: 0 <= i < |s.wire| && !s.wire[i].Data? ==>
        !s.ending.Running? && (s.ending.Normal? ==> i == |s.wire| - 1))
    && (s.ending.Normal? ==>
        s.stdout.done && s.stderr.done && s.wire != [] && s.wire[|s.wire| - 1] == Exit(s.ending.code))
    && (s.result.Some? ==> !s.ending.Running?)
    && (s.result.Some? && s.ending.Normal? ==> s.delivered == |s.wire| && s.result == Some(s.ending.code))
  }

  // One more frame on the socket.
  lemma FrameAppended(pipe: Pipe, after: Pipe, wire: seq<Frame>, delivered: nat, buffer: seq<Byte>, stream: Stream,
                      frame: Frame)
    requires delivered <= |wire| && Accounted(pipe, wire, delivered, buffer, stream)
    requires PipeValid(after) && SentBytes(after) == SentBytes(pipe) + PayloadOf(frame, stream)
    ensures Accounted(after, wire + [frame], delivered, buffer, stream)
  {
    PayloadSnoc(wire, frame, stream);
    assert (wire + [frame])[..delivered] == wire[..delivered];
  }

  // One more frame handled by the client.
  lemma FrameDelivered(pipe: Pipe, wire: seq<Frame>, delivered: nat, buffer: seq<Byte>, stream: Stream)
    requires delivered < |wire| && Accounted(pipe, wire, delivered, buffer, stream)
    ensures Accounted(pipe, wire, delivered + 1, buffer + PayloadOf(wire[delivered], stream), stream)
  {
    PayloadSnoc(wire[..delivered], wire[delivered], stream);
    assert wire[..delivered + 1] == wire[..delivered] + [wire[delivered]];
  }

  lemma WriteKeeps(s: Session, stream: Stream)
    requires Valid(s)
    ensures Valid(Apply(s, Write(stream)))
  {
    hide PipeValid, SentBytes, Payload, PayloadOf, Accounted;
    var pipe := PipeOf(s, stream);
    if s.lock == Some(stream) && pipe.held.Some? {
      var frame := Data(stream, EncodePayload(pipe.held.value));
      ChunkPayload(pipe.held.value, stream);
      AccountedPipe(s);
      PipeStepsKeep(pipe, [], 0);
      var other := if stream.Stdout? then Stderr else Stdout;
      assert PayloadOf(frame, other) == [];
      assert SentBytes(PipeOf(s, other)) == SentBytes(PipeOf(s, other)) + [];
      FrameAppended(PipeOf(s, other), PipeOf(s, other), s.wire, s.delivered, BufferOf(s, other), other, frame);
      FrameAppended(pipe, pipe.(held := None), s.wire, s.delivered, BufferOf(s, stream), stream, frame);
      PipeBounds(pipe.(held := None));
    }
  }

  lemma AccountedPipe(s: Session)
    requires Valid(s)
    ensures PipeValid(s.stdout) && PipeValid(s.stderr)
  {
  }

  lemma PipeBounds(pipe: Pipe)
    requires PipeValid(pipe)
    ensures pipe.taken <= |pipe.produced| && (pipe.done ==> AtEnd(pipe))
  {
  }

  lemma ReceiveKeeps(s: Session)
    requires Valid(s)
    ensures Valid(Apply(s, Receive))
  {
    hide Accounted, Payload, PayloadOf;
    if s.delivered < |s.wire| && s.result.None? {
      FrameDelivered(s.stdout, s.wire, s.delivered, s.outBuffer, Stdout);
      FrameDelivered(s.stderr, s.wire, s.delivered, s.errBuffer, Stderr);
      NoPayload(s.wire[s.delivered]);
    }
  }

  lemma NoPayload(frame: Frame)
    ensures forall stream: Stream :: !(frame.Data? && frame.stream == stream) ==> PayloadOf(frame, stream) == []
    ensures forall b: seq<Byte> :: b + [] == b
  {
  }

  lemma LastFrameKeeps(s: Session, step: Step)
    requires Valid(s) && (step.Finish? || step.Timeout? || step.Fail?)
    ensures Valid(Apply(s, step))
  {
    hide Accounted, Payload, PayloadOf, SentBytes, PipeValid;
    var t := Apply(s, step);
    if t != s {
      var frame := t.wire[|s.wire|];
      AccountedPipe(s);
      NoPayload(frame);
      FrameAppended(s.stdout, s.stdout, s.wire, s.delivered, s.outBuffer, Stdout, frame);
      FrameAppended(s.stderr, s.stderr, s.wire, s.delivered, s.errBuffer, Stderr, frame);
    }
  }

  // A pipe that keeps its sent bytes keeps its account.
  lemma SameAccount(pipe: Pipe, after: Pipe, wire: seq<Frame>, delivered: nat, buffer: seq<Byte>, stream: Stream)
    requires delivered <= |wire| && Accounted(pipe, wire, delivered, buffer, stream)
    requires PipeValid(after) && SentBytes(after) == SentBytes(pipe)
    ensures Accounted(after, wire, delivered, buffer, stream)
  {
  }

  lemma PipeStepKeeps(s: Session, step: Step)
    requires Valid(s)
    requires step.Produce? || step.Close? || step.Read? || step.EndPump?
    ensures Valid(Apply(s, step))
  {
    hide Accounted, Payload, SentBytes, PipeValid, Sent, Taken;
    AccountedPipe(s);
    var t := Apply(s, step);
    var pipe, after := PipeOf(s, step.stream), PipeOf(t, step.stream);
    PipeStepsKeep(pipe, if step.Produce? then step.bytes else [], if step.Read? then step.size else 0);
    PipeBounds(pipe);
    if after != pipe {
      SameAccount(pipe, after, s.wire, s.delivered, BufferOf(s, step.stream), step.stream);
      PipeBounds(after);
    }
  }

  lemma StepKeepsValid(s: Session, step: Step)
    requires Valid(s)
    ensures Valid(Apply(s, step))
  {
    hide Accounted;
    match step
    case Write(stream) => WriteKeeps(s, stream);
    case Receive => ReceiveKeeps(s);
    case Finish(_) => LastFrameKeeps(s, step);
    case Timeout => LastFrameKeeps(s, step);
    case Fail => LastFrameKeeps(s, step);
    case Lock(_) =>
    case Unlock(_) =>
    case Produce(_, _) => PipeStepKeeps(s, step);
    case Close(_) => PipeStepKeeps(s, step);
    case Read(_, _) => PipeStepKeeps(s, step);
    case EndPump(_) => PipeStepKeeps(s, step);
  }

  function Run(s: Session, steps: seq<Step>): (t: Session)
    requires Shaped(s)
    ensures Shaped(t)
  {
    if steps == [] then s else Apply(Run(s, steps[..|steps| - 1]), steps[|steps| - 1])
  }

  lemma {:induction false} RunsStayValid(steps: seq<Step>)
    ensures Valid(Run(STARTED, steps))
  {
    if steps != [] {
      hide Apply, Valid;
      RunsStayValid(steps[..|steps| - 1]);
      StepKeepsValid(Run(STARTED, steps[..|steps| - 1]), steps[|steps| - 1]);
    }
  }

  // For every interleaving of process, pumps, lock and client: each client buffer is a prefix of its
  // own stream, and by the time the client has handled the normal exit frame both are complete.
  lemma EveryInterleavingRebuilds(steps: seq<Step>)
    ensures var s := Run(STARTED, steps);
            && s.outBuffer <= s.stdout.produced
            && s.errBuffer <= s.stderr.produced
            && (s.ending.Normal? && s.result.Some? ==>
                  && s.result == Some(s.ending.code)
                  && s.stdout.closed && s.outBuffer == s.stdout.produced
                  && s.stderr.closed && s.errBuffer == s.stderr.produced)
  {
    RunsStayValid(steps);
    hide Run, Payload;
    var s := Run(STARTED, steps);
    BufferIsPrefix(s.stdout, s.wire, s.delivered, s.outBuffer, Stdout);
    BufferIsPrefix(s.stderr, s.wire, s.delivered, s.errBuffer, Stderr);
  }

  lemma BufferIsPrefix(pipe: Pipe, wire: seq<Frame>, delivered: nat, buffer: seq<Byte>, stream: Stream)
    requires delivered <= |wire| && Accounted(pipe, wire, delivered, buffer, stream)
    ensures buffer <= pipe.produced
    ensures delivered == |wire| && pipe.done ==> buffer == pipe.produced
  {
    PayloadOfPrefix(wire, delivered, stream);
    assert wire[..|wire|] == wire;
  }

  lemma {:induction false} PayloadOfPrefix(wire: seq<Frame>, k: nat, stream: Stream)
    requires k <= |wire|
    ensures Payload(wire[..k], stream) <= Payload(wire, stream)
    decreases |wire| - k
  {
    hide Payload, PayloadOf;
    if k < |wire| {
      PayloadOfPrefix(wire, k + 1, stream);
      assert wire[..k + 1] == wire[..k] + [wire[k]];
      PayloadSnoc(wire[..k], wire[k], stream);
    } else {
      assert wire[..k] == wire;
    }
  }

  predicate FrameFits(frame: Frame) {
    frame.Data? ==> |DataLine(if frame.stream.Stdout? then "stdout" else "stderr", frame.data)| < 1048576
  }

  lemma StepKeepsFrameSize(s: Session, step: Step)
    requires Valid(s) && forall i :: 0 <= i < |s.wire| ==> FrameFits(s.wire[i])
    ensures forall i :: 0 <= i < |Apply(s, step).wire| ==> FrameFits(Apply(s, step).wire[i])
  {
    hide DataLine, Payload;
    if step.Write? && PipeOf(s, step.stream).held.Some? {
      DataLineFits(if step.stream.Stdout? then "stdout" else "stderr", PipeOf(s, step.stream).held.value);
    }
  }

  // Every data frame the server ever writes fits the frame limit.
  lemma {:induction false} EveryDataFrameFits(steps: seq<Step>)
    ensures forall i :: 0 <= i < |Run(STARTED, steps).wire| ==> FrameFits(Run(STARTED, steps).wire[i])
  {
    if steps != [] {
      hide Apply, FrameFits, Valid;
      EveryDataFrameFits(steps[..|steps| - 1]);
      RunsStayValid(steps[..|steps| - 1]);
      StepKeepsFrameSize(Run(STARTED, steps[..|steps| - 1]), steps[|steps| - 1]);
    }
  }

  // One writer at a time: while a pump has the lock only its own data frames reach the socket, and only
  // the final frames are written without it.
  lemma OneWriterAtATime(s: Session, step: Step)
    requires Shaped(s)
    ensures var t := Apply(s, step);
            t.wire == s.wire
            || (|t.wire| == |s.wire| + 1 && t.wire[..|s.wire|] == s.wire
                && match t.wire[|s.wire|]
                   case Data(stream, _) => s.lock == Some(stream)
                   case Exit(_) => s.lock == None
                   case Failure => s.lock == None
                   case _ => false)
  {
    hide PayloadOf, EncodePayload, Taken, AtEnd, ClientStep;
    if step.Receive? { ClientLeavesWire(s); }
  }

  lemma ClientLeavesWire(s: Session)
    requires Shaped(s)
    ensures Apply(s, Receive).wire == s.wire
  {
    hide PayloadOf;
  }

  // ----- Every session can be completed -----

  lemma OneMoreStep(steps: seq<Step>, step: Step) returns (longer: seq<Step>, t: Session)
    ensures longer == steps + [step] && t == Apply(Run(STARTED, steps), step) && Run(STARTED, longer) == t
  {
    hide Apply;
    longer, t := steps + [step], Apply(Run(STARTED, steps), step);
    assert longer[..|steps|] == steps;
  }

  function Other(stream: Stream): Stream {
    if stream.Stdout? then Stderr else Stdout
  }

  // Nobody has the lock, and this pump's chunk, if any, is on the socket; all else is as it was.
  ghost predicate Flushed(s: Session, t: Session, stream: Stream) {
    && t.lock.None? && t.ending == s.ending
    && PipeOf(t, stream) == PipeOf(s, stream).(held := None) && PipeOf(t, Other(stream)) == PipeOf(s, Other(stream))
  }

  lemma Flush(steps: seq<Step>, stream: Stream) returns (longer: seq<Step>)
    requires var lock := Run(STARTED, steps).lock; lock.None? || lock == Some(stream)
    ensures steps <= longer && Flushed(Run(STARTED, steps), Run(STARTED, longer), stream)
  {
    hide Run;
    longer := steps;
    var t := Run(STARTED, steps);
    if t.lock.None? && PipeOf(t, stream).held.Some? { longer, t := OneMoreStep(longer, Lock(stream)); }
    if t.lock.Some? {
      longer, t := OneMoreStep(longer, Write(stream));
      longer, t := OneMoreStep(longer, Unlock(stream));
    }
  }

  // A running session whose pumps hold nothing, and what it was asked to carry.
  ghost predicate Idle(t: Session, out: seq<Byte>, err: seq<Byte>) {
    && t.ending.Running? && t.lock.None? && t.stdout.held.None? && t.stderr.held.None?
    && t.stdout.produced == out && t.stderr.produced == err
  }

  lemma FlushBoth(steps: seq<Step>) returns (longer: seq<Step>)
    requires Run(STARTED, steps).ending.Running?
    ensures steps <= longer
    ensures var s := Run(STARTED, steps); Idle(Run(STARTED, longer), s.stdout.produced, s.stderr.produced)
  {
    hide Run, Apply;
    var s := Run(STARTED, steps);
    var first := if s.lock.Some? then s.lock.value else Stdout;
    longer := Flush(steps, first);
    longer := Flush(longer, Other(first));
  }

  // Reading byte by byte empties a pipe.
  lemma {:induction false} Drain(steps: seq<Step>, stream: Stream, out: seq<Byte>, err: seq<Byte>)
    returns (longer: seq<Step>)
    requires Idle(Run(STARTED, steps), out, err)
    ensures steps <= longer && Idle(Run(STARTED, longer), out, err)
    ensures var t := Run(STARTED, longer);
            && PipeOf(t, stream).taken == |PipeOf(t, stream).produced|
            && PipeOf(t, Other(stream)) == PipeOf(Run(STARTED, steps), Other(stream))
    decreases var pipe := PipeOf(Run(STARTED, steps), stream); |pipe.produced| - pipe.taken
  {
    hide Run;
    var s := Run(STARTED, steps);
    longer := steps;
    RunsStayValid(steps);
    AccountedPipe(s);
    if PipeOf(s, stream).taken < |PipeOf(s, stream).produced| {
      var t;
      longer, t := OneMoreStep(steps, Read(stream, 1));
      longer := Flush(longer, stream);
      longer := Drain(longer, stream, out, err);
    }
  }

  lemma EndPumps(steps: seq<Step>, out: seq<Byte>, err: seq<Byte>) returns (longer: seq<Step>)
    requires var s := Run(STARTED, steps);
             Idle(s, out, err) && s.stdout.taken == |s.stdout.produced| && s.stderr.taken == |s.stderr.produced|
    ensures steps <= longer && Idle(Run(STARTED, longer), out, err)
    ensures Run(STARTED, longer).stdout.done && Run(STARTED, longer).stderr.done
  {
    hide Run;
    var t;
    longer, t := OneMoreStep(steps, Close(Stdout));
    longer, t := OneMoreStep(longer, Close(Stderr));
    longer, t := OneMoreStep(longer, EndPump(Stdout));
    longer, t := OneMoreStep(longer, EndPump(Stderr));
  }

  // A client without a result has handled data frames only.
  ghost predicate SawOnlyData(s: Session) {
    && (forall i :: 0 <= i < |s.wire| ==> s.wire[i].Data? || s.wire[i].Exit? || s.wire[i].Failure?)
    && (s.result.None? ==> forall i :: 0 <= i < s.delivered && i < |s.wire| ==> s.wire[i].Data?)
  }

  lemma OneFrameMore(s: Session, t: Session, frame: Frame)
    requires Shaped(s) && SawOnlyData(s) && (frame.Data? || frame.Exit? || frame.Failure?)
    requires t.wire == s.wire + [frame] && t.delivered == s.delivered && t.result == s.result
    ensures SawOnlyData(t)
  {
  }

  lemma StepKeepsSawOnlyData(s: Session, step: Step)
    requires Shaped(s) && SawOnlyData(s)
    ensures SawOnlyData(Apply(s, step))
  {
    hide PayloadOf, EncodePayload, Taken, AtEnd, SawOnlyData;
    var t := Apply(s, step);
    if step.Receive? {
      ReceiveKeepsSawOnlyData(s);
    } else if t.wire != s.wire {
      OneFrameMore(s, t, t.wire[|s.wire|]);
    } else {
      SameFrames(s, t);
    }
  }

  lemma SameFrames(s: Session, t: Session)
    requires SawOnlyData(s) && t.wire == s.wire && t.delivered == s.delivered && t.result == s.result
    ensures SawOnlyData(t)
  {
  }

  lemma ReceiveKeepsSawOnlyData(s: Session)
    requires Shaped(s) && SawOnlyData(s)
    ensures SawOnlyData(Apply(s, Receive))
  {
    hide PayloadOf;
  }

  lemma {:induction false} UnansweredSawData(steps: seq<Step>)
    ensures SawOnlyData(Run(STARTED, steps))
  {
    hide Apply, SawOnlyData;
    if steps != [] {
      UnansweredSawData(steps[..|steps| - 1]);
      StepKeepsSawOnlyData(Run(STARTED, steps[..|steps| - 1]), steps[|steps| - 1]);
    } else {
      NothingSeen();
    }
  }

  lemma NothingSeen()
    ensures SawOnlyData(STARTED)
  {
  }

  // The client handles what is left on the socket.
  lemma {:induction false} ReceiveAll(steps: seq<Step>) returns (longer: seq<Step>)
    requires Run(STARTED, steps).ending.Normal?
    ensures steps <= longer
    ensures var s, t := Run(STARTED, steps), Run(STARTED, longer);
            && t.ending == s.ending && t.stdout == s.stdout && t.stderr == s.stderr
            && t.result == Some(s.ending.code)
    decreases |Run(STARTED, steps).wire| - Run(STARTED, steps).delivered
  {
    hide Run, PipeValid, SentBytes, PayloadOf, Accounted;
    var s := Run(STARTED, steps);
    longer := steps;
    RunsStayValid(steps);
    UnansweredSawData(steps);
    if s.result.None? {
      var t;
      longer, t := OneMoreStep(steps, Receive);
      longer := ReceiveAll(longer);
    }
  }

  // From every reachable session that is still running, whoever holds the lock and whatever is left
  // in the pipes: the process may write any more output and exit with any code, and the session can
  // go on until the client has both streams whole and the code.
  lemma EverySessionCanComplete(steps: seq<Step>, out: seq<Byte>, err: seq<Byte>, code: int)
    returns (longer: seq<Step>)
    requires var s := Run(STARTED, steps); s.ending.Running? && !s.stdout.closed && !s.stderr.closed
    ensures steps <= longer
    ensures var s, t := Run(STARTED, steps), Run(STARTED, longer);
            && t.result == Some(code)
            && t.outBuffer == t.stdout.produced == s.stdout.produced + out
            && t.errBuffer == t.stderr.produced == s.stderr.produced + err
  {
    hide Run;
    var s, t := Run(STARTED, steps), Run(STARTED, steps);
    longer, t := OneMoreStep(steps, Produce(Stdout, out));
    longer, t := OneMoreStep(longer, Produce(Stderr, err));
    hide Apply;
    var allOut, allErr := s.stdout.produced + out, s.stderr.produced + err;
    longer := FlushBoth(longer);
    longer := Drain(longer, Stdout, allOut, allErr);
    longer := Drain(longer, Stderr, allOut, allErr);
    longer := EndPumps(longer, allOut, allErr);
    longer := FinishIdle(longer, allOut, allErr, code);
    longer := ReceiveAll(longer);
    EveryInterleavingRebuilds(longer);
  }

  lemma FinishIdle(steps: seq<Step>, out: seq<Byte>, err: seq<Byte>, code: int) returns (longer: seq<Step>)
    requires var s := Run(STARTED, steps); Idle(s, out, err) && s.stdout.done && s.stderr.done
    ensures steps <= longer
    ensures var t := Run(STARTED, longer);
            t.ending == Normal(code) && t.stdout.produced == out && t.stderr.produced == err
  {
    hide Run;
    var t;
    longer, t := OneMoreStep(steps, Finish(code));
  }

  // A running session can also be cut short: the client then reports 124 for a timeout and 126 for a failure.
  lemma CutShort(steps: seq<Step>) returns (timedOut: seq<Step>, failed: seq<Step>)
    requires Run(STARTED, steps).ending.Running?
    ensures steps <= timedOut && Run(STARTED, timedOut).result == Some(124)
    ensures steps <= failed && Run(STARTED, failed).result == Some(126)
  {
    hide Run, Apply;
    var flushed := FlushBoth(steps);
    timedOut := EndsWith(flushed, Timeout);
    failed := EndsWith(flushed, Fail);
  }

  lemma EndsWith(steps: seq<Step>, step: Step) returns (longer: seq<Step>)
    requires Run(STARTED, steps).ending.Running? && Run(STARTED, steps).lock.None? && step in {Timeout, Fail}
    ensures steps <= longer && Run(STARTED, longer).result == Some(if step == Timeout then 124 else 126)
  {
    hide Run, PipeValid, SentBytes, PayloadOf, Accounted;
    var s, t := Run(STARTED, steps), Run(STARTED, steps);
    RunsStayValid(steps);
    longer, t := OneMoreStep(steps, step);
    longer := ReceiveUntil(longer, if step == Timeout then Exit(124) else Failure);
  }

  lemma {:induction false} ReceiveUntil(steps: seq<Step>, last: Frame) returns (longer: seq<Step>)
    requires last in {Exit(124), Failure}
    requires var s := Run(STARTED, steps);
             && s.result.None? && s.delivered < |s.wire| && s.wire[|s.wire| - 1] == last
             && forall i :: 0 <= i < |s.wire| - 1 ==> s.wire[i].Data?
    ensures steps <= longer && Run(STARTED, longer).result == Some(if last == Failure then 126 else 124)
    decreases |Run(STARTED, steps).wire| - Run(STARTED, steps).delivered
  {
    hide Run, PayloadOf;
    var s := Run(STARTED, steps);
    var t;
    longer, t := OneMoreStep(steps, Receive);
    if t.result.None? { longer := ReceiveUntil(longer, last); }
  }

  // ----- After a timeout -----

  // What later steps keep: the frames up to the timeout's exit frame are fixed, the client stops at
  // that frame, and the process may only add output.
  ghost predicate SinceTimeout(b: Session, s: Session) {
    && s.ending.TimedOut? && b.wire + [Exit(TIMEOUT_CODE)] <= s.wire
    && b.stdout.produced <= s.stdout.produced && b.stderr.produced <= s.stderr.produced
    && (if s.result.None? then s.delivered <= |b.wire|
        else s.delivered == |b.wire| + 1 && s.result == Some(124))
  }

  ghost predicate OnlyData(frames: seq<Frame>) {
    forall i :: 0 <= i < |frames| ==> frames[i].Data?
  }

  lemma StepSinceTimeout(b: Session, s: Session, step: Step)
    requires Shaped(s) && OnlyData(b.wire) && SinceTimeout(b, s)
    ensures SinceTimeout(b, Apply(s, step))
  {
    hide PayloadOf, EncodePayload;
    var exit := b.wire + [Exit(TIMEOUT_CODE)];
    assert forall i :: 0 <= i < |exit| ==> s.wire[i] == exit[i];
  }

  lemma {:induction false} RunSinceTimeout(b: Session, steps: seq<Step>)
    requires Valid(b) && b.ending.Running? && b.lock.None?
    ensures var s := Run(Apply(b, Timeout), steps); Valid(s) && SinceTimeout(b, s)
  {
    if steps == [] {
      StepKeepsValid(b, Timeout);
    } else {
      var front := Run(Apply(b, Timeout), steps[..|steps| - 1]);
      RunSinceTimeout(b, steps[..|steps| - 1]);
      StepKeepsValid(front, steps[|steps| - 1]);
      DataBefore(b);
      hide Valid, Apply, SinceTimeout, OnlyData;
      ShapedWhenValid(front);
      StepSinceTimeout(b, front, steps[|steps| - 1]);
    }
  }

  lemma DataBefore(b: Session)
    requires Valid(b) && b.ending.Running?
    ensures OnlyData(b.wire)
  {
    hide Accounted;
  }

  lemma ShapedWhenValid(s: Session)
    requires Valid(s)
    ensures Shaped(s)
  {
  }

  // The buffer of a client that stopped at the timeout's exit frame holds what had been sent before it.
  lemma BufferAtTimeout(pipe: Pipe, now: Pipe, wire: seq<Frame>, nowWire: seq<Frame>, buffer: seq<Byte>,
                        nowBuffer: seq<Byte>, delivered: nat, stream: Stream)
    requires delivered <= |wire| && Accounted(pipe, wire, delivered, buffer, stream)
    requires wire + [Exit(TIMEOUT_CODE)] <= nowWire && Accounted(now, nowWire, |wire| + 1, nowBuffer, stream)
    requires pipe.produced <= now.produced
    ensures nowBuffer == now.produced <==> Sent(pipe) == |pipe.produced| && now.produced == pipe.produced
  {
    hide Payload, PayloadOf;
    var exit := wire + [Exit(TIMEOUT_CODE)];
    assert nowWire[..|wire| + 1] == exit;
    PayloadSnoc(wire, Exit(TIMEOUT_CODE), stream);
    NoPayload(Exit(TIMEOUT_CODE));
    assert nowBuffer == pipe.produced[..Sent(pipe)];
  }

  // A client that got the timeout's exit frame has a complete stream exactly when everything produced
  // had been sent by the time of the timeout and nothing was produced afterwards.
  lemma TimedOutIsCompleteExactly(front: seq<Step>, later: seq<Step>)
    requires Run(STARTED, front).ending.Running? && Run(STARTED, front).lock.None?
    ensures var b := Run(STARTED, front);
            var s := Run(Apply(b, Timeout), later);
            s.result.Some? ==>
              && s.result == Some(124)
              && (s.outBuffer == s.stdout.produced <==>
                  Sent(b.stdout) == |b.stdout.produced| && s.stdout.produced == b.stdout.produced)
              && (s.errBuffer == s.stderr.produced <==>
                  Sent(b.stderr) == |b.stderr.produced| && s.stderr.produced == b.stderr.produced)
  {
    var b := Run(STARTED, front);
    RunsStayValid(front);
    RunSinceTimeout(b, later);
    hide Run, Apply, Accounted, Sent;
    var s := Run(Apply(b, Timeout), later);
    if s.result.Some? {
      BufferAtTimeout(b.stdout, s.stdout, b.wire, s.wire, b.outBuffer, s.outBuffer, b.delivered, Stdout);
      BufferAtTimeout(b.stderr, s.stderr, b.wire, s.wire, b.errBuffer, s.errBuffer, b.delivered, Stderr);
    }
  }

  // The timeout's exit frame may overtake output that was produced.
  lemma TimeoutMayDropOutput()
    ensures var s := Apply(Apply(Apply(STARTED, Produce(Stdout, [7])), Timeout), Receive);
            s.result == Some(124) && s.stdout.produced == [7] && s.outBuffer == []
  {
  }

  // ----- Input: the client's pump and the server's feed -----

  datatype Input = Input(
    typed: seq<Byte>, ended: bool, taken: nat, wire: seq<Frame>, eofSent: bool,
    delivered: nat, fed: seq<Byte>, stdinClosed: bool)

  datatype InputStep = Type(bytes: seq<Byte>) | EndInput | Pump(size: nat) | PumpEof | Feed

  const NO_INPUT := Input([], false, 0, [], false, 0, [], false)

  predicate InputShaped(s: Input) {
    s.taken <= |s.typed| && s.delivered <= |s.wire|
  }

  function ApplyInput(s: Input, step: InputStep): (t: Input)
    requires InputShaped(s)
    ensures InputShaped(t)
  {
    match step
    case Type(bytes) => if s.ended then s else s.(typed := s.typed + bytes)
    case EndInput => s.(ended := true)
    case Pump(size) =>
      if !s.eofSent && 1 <= size <= CHUNK_BYTES && s.taken + size <= |s.typed| then
        s.(taken := s.taken + size, wire := s.wire + [StdinData(EncodePayload(s.typed[s.taken..s.taken + size]))])
      else s
    case PumpEof =>
      if !s.eofSent && s.ended && s.taken == |s.typed| then s.(wire := s.wire + [StdinEof], eofSent := true) else s
    case Feed =>
      if s.delivered == |s.wire| || s.stdinClosed then s
      else
        var frame, next := s.wire[s.delivered], s.(delivered := s.delivered + 1);
        match frame
        case StdinData(data) =>
          next.(fed := s.fed + (if DecodePayload(data).Some? then DecodePayload(data).value else []))
        case StdinEof => next.(stdinClosed := true)
        case _ => next
  }

  function RunInput(s: Input, steps: seq<InputStep>): (t: Input)
    requires InputShaped(s)
    ensures InputShaped(t)
  {
    if steps == [] then s else ApplyInput(RunInput(s, steps[..|steps| - 1]), steps[|steps| - 1])
  }

  ghost predicate InputValid(s: Input) {
    && InputShaped(s)
    && StdinPayload(s.wire) == s.typed[..s.taken]
    && s.fed == StdinPayload(s.wire[..s.delivered])
    && (forall i :: 0 <= i < |s.wire| ==>
        s.wire[i].StdinData? || (s.wire[i].StdinEof? && i == |s.wire| - 1 && s.eofSent))
    && (s.eofSent ==> s.ended && s.taken == |s.typed|)
    && (s.stdinClosed ==> s.eofSent && s.delivered == |s.wire|)
  }

  lemma InputStepKeeps(s: Input, step: InputStep)
    requires InputValid(s)
    ensures InputValid(ApplyInput(s, step))
  {
    hide StdinPayload, DecodePayload, EncodePayload;
    match step
    case Type(bytes) => assert (s.typed + bytes)[..s.taken] == s.typed[..s.taken];
    case EndInput =>
    case Pump(size) =>
      if !s.eofSent && 1 <= size <= CHUNK_BYTES && s.taken + size <= |s.typed| { PumpKeeps(s, size); }
    case PumpEof =>
      PayloadSnoc(s.wire, StdinEof, Stdout);
      assert (s.wire + [StdinEof])[..s.delivered] == s.wire[..s.delivered];
    case Feed =>
      if s.delivered < |s.wire| && !s.stdinClosed { FeedKeeps(s); }
  }

  lemma PumpKeeps(s: Input, size: nat)
    requires InputValid(s) && !s.eofSent && 1 <= size <= CHUNK_BYTES && s.taken + size <= |s.typed|
    ensures InputValid(ApplyInput(s, Pump(size)))
  {
    hide StdinPayload, DecodePayload, EncodePayload;
    var chunk := s.typed[s.taken..s.taken + size];
    var frame := StdinData(EncodePayload(chunk));
    ChunkPayload(chunk, Stdout);
    PayloadSnoc(s.wire, frame, Stdout);
    assert s.typed[..s.taken] + chunk == s.typed[..s.taken + size];
    assert (s.wire + [frame])[..s.delivered] == s.wire[..s.delivered];
  }

  lemma FeedKeeps(s: Input)
    requires InputValid(s) && s.delivered < |s.wire| && !s.stdinClosed
    ensures InputValid(ApplyInput(s, Feed))
  {
    hide StdinPayload, DecodePayload, EncodePayload;
    PayloadSnoc(s.wire[..s.delivered], s.wire[s.delivered], Stdout);
    assert s.wire[..s.delivered + 1] == s.wire[..s.delivered] + [s.wire[s.delivered]];
  }

  lemma {:induction false} StdinPayloadOfPrefix(wire: seq<Frame>, k: nat)
    requires k <= |wire|
    ensures StdinPayload(wire[..k]) <= StdinPayload(wire)
    decreases |wire| - k
  {
    hide StdinPayload;
    if k < |wire| {
      StdinPayloadOfPrefix(wire, k + 1);
      assert wire[..k + 1] == wire[..k] + [wire[k]];
      PayloadSnoc(wire[..k], wire[k], Stdout);
    } else {
      assert wire[..k] == wire;
    }
  }

  // The process is fed a prefix of the client's input, and all of it once its stdin is closed.
  lemma {:induction false} FedIsPrefixOfInput(steps: seq<InputStep>)
    ensures InputValid(RunInput(NO_INPUT, steps))
    ensures var s := RunInput(NO_INPUT, steps);
            s.fed <= s.typed && (s.stdinClosed ==> s.ended && s.fed == s.typed)
  {
    if steps != [] {
      FedIsPrefixOfInput(steps[..|steps| - 1]);
      InputStepKeeps(RunInput(NO_INPUT, steps[..|steps| - 1]), steps[|steps| - 1]);
    }
    var s := RunInput(NO_INPUT, steps);
    StdinPayloadOfPrefix(s.wire, s.delivered);
    assert s.wire[..|s.wire|] == s.wire;
  }

  lemma OneMoreInput(steps: seq<InputStep>, step: InputStep) returns (longer: seq<InputStep>, t: Input)
    ensures longer == steps + [step] && t == ApplyInput(RunInput(NO_INPUT, steps), step)
    ensures RunInput(NO_INPUT, longer) == t
  {
    hide ApplyInput;
    longer, t := steps + [step], ApplyInput(RunInput(NO_INPUT, steps), step);
    assert longer[..|steps|] == steps;
  }

  lemma {:induction false} PumpAll(steps: seq<InputStep>) returns (longer: seq<InputStep>)
    requires !RunInput(NO_INPUT, steps).eofSent
    ensures steps <= longer
    ensures var s, t := RunInput(NO_INPUT, steps), RunInput(NO_INPUT, longer);
            t.typed == s.typed && t.ended == s.ended && !t.eofSent && t.taken == |t.typed|
    decreases |RunInput(NO_INPUT, steps).typed| - RunInput(NO_INPUT, steps).taken
  {
    hide RunInput;
    var s := RunInput(NO_INPUT, steps);
    longer := steps;
    if s.taken < |s.typed| {
      var t;
      longer, t := OneMoreInput(steps, Pump(1));
      longer := PumpAll(longer);
    }
  }

  lemma {:induction false} FeedAll(steps: seq<InputStep>) returns (longer: seq<InputStep>)
    requires RunInput(NO_INPUT, steps).eofSent
    requires var s := RunInput(NO_INPUT, steps);
             s.stdinClosed || (s.delivered < |s.wire| && s.wire[|s.wire| - 1] == StdinEof)
    ensures steps <= longer && RunInput(NO_INPUT, longer).stdinClosed
    ensures RunInput(NO_INPUT, longer).typed == RunInput(NO_INPUT, steps).typed
    decreases |RunInput(NO_INPUT, steps).wire| - RunInput(NO_INPUT, steps).delivered
  {
    hide RunInput, DecodePayload;
    var s := RunInput(NO_INPUT, steps);
    longer := steps;
    if !s.stdinClosed {
      var t;
      longer, t := OneMoreInput(steps, Feed);
      longer := FeedAll(longer);
    }
  }

  // While the input is open, more can be typed, and the session can go on until the process has all of
  // it and its stdin is closed.
  lemma EveryInputCanComplete(steps: seq<InputStep>, bytes: seq<Byte>) returns (longer: seq<InputStep>)
    requires !RunInput(NO_INPUT, steps).ended
    ensures steps <= longer
    ensures var s, t := RunInput(NO_INPUT, steps), RunInput(NO_INPUT, longer);
            t.stdinClosed && t.fed == t.typed == s.typed + bytes
  {
    hide RunInput, StdinPayload;
    var s, t := RunInput(NO_INPUT, steps), RunInput(NO_INPUT, steps);
    FedIsPrefixOfInput(steps);
    longer, t := OneMoreInput(steps, Type(bytes));
    longer := PumpAll(longer);
    longer, t := OneMoreInput(longer, EndInput);
    FedIsPrefixOfInput(longer);
    longer, t := OneMoreInput(longer, PumpEof);
    longer := FeedAll(longer);
    FedIsPrefixOfInput(longer);
  }

  // ----- The loops -----

  class Socket {
    var frames: seq<Frame>

    constructor ()
      ensures frames == []
    {
      frames := [];
    }

    // `_send_json` under the lock: one whole frame at a time.
    method Send(frame: Frame)
      modifies this
      ensures frames == old(frames) + [frame]
    {
      frames := frames + [frame];
    }
  }

  ghost predicate FromOtherPump(frames: seq<Frame>, stream: Stream) {
    forall i :: 0 <= i < |frames| ==> frames[i].Data? && frames[i].stream != stream
  }

  function OtherFrames(others: nat -> seq<Frame>, rounds: nat): seq<Frame> {
    if rounds == 0 then [] else OtherFrames(others, rounds - 1) + others(rounds - 1)
  }

  lemma {:induction false} PayloadConcat(a: seq<Frame>, b: seq<Frame>, stream: Stream)
    ensures Payload(a + b, stream) == Payload(a, stream) + Payload(b, stream)
    decreases |b|
  {
    hide PayloadOf, Payload;
    NoFrames();
    if b == [] {
      assert a + b == a;
    } else {
      var front, last := b[..|b| - 1], b[|b| - 1];
      assert b == front + [last];
      assert a + b == (a + front) + [last];
      PayloadConcat(a, front, stream);
      PayloadSnoc(a + front, last, stream);
      PayloadSnoc(front, last, stream);
      Regroup(Payload(a, stream), Payload(front, stream), PayloadOf(last, stream));
    }
  }

  lemma Regroup(a: seq<Byte>, b: seq<Byte>, c: seq<Byte>)
    ensures (a + b) + c == a + (b + c)
    ensures a + [] == a
  {
  }

  lemma {:induction false} OthersCarryNothing(frames: seq<Frame>, stream: Stream)
    requires FromOtherPump(frames, stream)
    ensures Payload(frames, stream) == []
  {
    if frames != [] { OthersCarryNothing(frames[..|frames| - 1], stream); }
  }

  // `_pump_output` until the end of its source. `sizes` is what each read returns; `others(k)` is what
  // the other pump writes before this one gets the lock for its k-th frame.
  method PumpOutput(source: seq<Byte>, stream: Stream, sizes: nat -> nat, socket: Socket, others: nat -> seq<Frame>)
    returns (rounds: nat)
    requires forall k :: FromOtherPump(others(k), stream)
    modifies socket
    ensures Payload(socket.frames, stream) == Payload(old(socket.frames), stream) + source
    ensures forall other :: other != stream ==>
              Payload(socket.frames, other) == Payload(old(socket.frames), other)
                  + Payload(OtherFrames(others, rounds), other)
  {
    hide Payload, PayloadOf, FromOtherPump, OtherFrames;
    rounds := 0;
    var position := 0;
    ghost var other := if stream.Stdout? then Stderr else Stdout;
    NothingPumped(others, other);
    while position < |source|
      invariant 0 <= position <= |source|
      invariant Payload(socket.frames, stream) == Payload(old(socket.frames), stream) + source[..position]
      invariant Payload(socket.frames, other) == Payload(old(socket.frames), other)
          + Payload(OtherFrames(others, rounds), other)
    {
      var n := ReadSize(sizes(rounds), |source| - position);
      var chunk := source[position..position + n];
      OneMoreRound(others, rounds, other);
      PumpChunk(chunk, stream, other, socket, others(rounds));
      assert source[..position] + chunk == source[..position + n];
      position := position + n;
      rounds := rounds + 1;
    }
    assert source[..position] == source;
  }

  // One chunk: the other pump's frames go first, then this one's frame under the lock.
  method PumpChunk(chunk: seq<Byte>, stream: Stream, ghost other: Stream, socket: Socket, others: seq<Frame>)
    requires FromOtherPump(others, stream) && other != stream
    modifies socket
    ensures Payload(socket.frames, stream) == Payload(old(socket.frames), stream) + chunk
    ensures Payload(socket.frames, other) == Payload(old(socket.frames), other) + Payload(others, other)
  {
    hide Payload, PayloadOf, FromOtherPump;
    PayloadConcat(socket.frames, others, stream);
    PayloadConcat(socket.frames, others, other);
    OthersCarryNothing(others, stream);
    socket.frames := socket.frames + others;
    var frame := Data(stream, EncodePayload(chunk));
    ChunkPayload(chunk, stream);
    PayloadSnoc(socket.frames, frame, stream);
    PayloadSnoc(socket.frames, frame, other);
    Regroup(Payload(old(socket.frames), stream), [], chunk);
    Regroup(Payload(old(socket.frames), other), Payload(others, other), []);
    Regroup(Payload(socket.frames, other), [], []);
    socket.Send(frame);
  }

  lemma OneMoreRound(others: nat -> seq<Frame>, rounds: nat, other: Stream)
    ensures Payload(OtherFrames(others, rounds + 1), other)
         == Payload(OtherFrames(others, rounds), other) + Payload(others(rounds), other)
  {
    PayloadConcat(OtherFrames(others, rounds), others(rounds), other);
  }

  lemma NothingPumped(others: nat -> seq<Frame>, other: Stream)
    ensures Payload(OtherFrames(others, 0), other) == []
  {
  }

  // A read returns at least one byte, at most 65536 and at most what there is.
  function ReadSize(size: nat, available: nat): (n: nat)
    requires available > 0
    ensures 1 <= n <= available && n <= CHUNK_BYTES
  {
    var wanted := if size < 1 then 1 else if size > CHUNK_BYTES then CHUNK_BYTES else size;
    if wanted <= available then wanted else available
  }

  datatype ClientResult = Exited(code: int) | Reported | ClosedWithoutExit | BadPayload

  // The demultiplexing loop of the client: it handles every frame up to the first final one.
  method Demultiplex(frames: seq<Frame>) returns (out: seq<Byte>, err: seq<Byte>, result: ClientResult, handled: nat)
    ensures handled <= |frames| && forall i :: 0 <= i < handled ==>
        !frames[i].Exit? && !frames[i].Failure? && (frames[i].Data? ==> DecodePayload(frames[i].data).Some?)
    ensures out == Payload(frames[..handled], Stdout) && err == Payload(frames[..handled], Stderr)
    ensures result.ClosedWithoutExit? <==> handled == |frames|
    ensures handled < |frames| ==>
              match frames[handled]
              case Exit(code) => result == Exited(code)
              case Failure => result == Reported
              case Data(_, data) => result == BadPayload && DecodePayload(data).None?
              case _ => false
  {
    hide Payload, DecodePayload;
    out, err, handled := [], [], 0;
    NoFrames();
    assert frames[..0] == [];
    while handled < |frames|
      invariant handled <= |frames| && forall i :: 0 <= i < handled ==>
          !frames[i].Exit? && !frames[i].Failure? && (frames[i].Data? ==> DecodePayload(frames[i].data).Some?)
      invariant out == Payload(frames[..handled], Stdout) && err == Payload(frames[..handled], Stderr)
      decreases |frames| - handled
    {
      var frame := frames[handled];
      assert frames[..handled + 1] == frames[..handled] + [frame];
      PayloadSnoc(frames[..handled], frame, Stdout);
      PayloadSnoc(frames[..handled], frame, Stderr);
      match frame {
        case Data(stream, data) =>
          var payload := DecodePayload(data);
          if payload.None? { return out, err, BadPayload, handled; }
          if stream.Stdout? { out := out + payload.value; } else { err := err + payload.value; }
        case Exit(code) => return out, err, Exited(code), handled;
        case Failure => return out, err, Reported, handled;
        case _ =>
      }
      handled := handled + 1;
    }
    result := ClosedWithoutExit;
  }

  lemma NoFrames()
    ensures Payload([], Stdout) == [] && Payload([], Stderr) == [] && StdinPayload([]) == []
  {
  }

  // `_pump_stdin`: the input as data frames that all fit, then one end marker.
  method PumpStdin(input: seq<Byte>, sizes: nat -> nat) returns (frames: seq<Frame>)
    ensures frames != [] && frames[|frames| - 1] == StdinEof
    ensures forall i :: 0 <= i < |frames| - 1 ==>
        frames[i].StdinData? && |DataLine("stdin", frames[i].data)| < 1048576
    ensures StdinPayload(frames) == input
  {
    hide StdinPayload;
    frames := [];
    NoFrames();
    var position := 0;
    while position < |input|
      invariant 0 <= position <= |input|
      invariant StdinPayload(frames) == input[..position]
      invariant forall i :: 0 <= i < |frames| ==>
          frames[i].StdinData? && |DataLine("stdin", frames[i].data)| < 1048576
    {
      var n := ReadSize(sizes(|frames|), |input| - position);
      var chunk := input[position..position + n];
      EncodeDecode(chunk, false);
      DataLineFits("stdin", chunk);
      PayloadSnoc(frames, StdinData(EncodePayload(chunk)), Stdout);
      frames := frames + [StdinData(EncodePayload(chunk))];
      assert input[..position] + chunk == input[..position + n];
      position := position + n;
    }
    assert input[..position] == input;
    PayloadSnoc(frames, StdinEof, Stdout);
    frames := frames + [StdinEof];
  }

  datatype FeedResult = Closed | InvalidFrame | Incomplete

  // `_feed_stdin`: bytes are written up to the first frame that is not valid stdin data; only the end
  // marker closes the process's stdin, and a connection that stops early is incomplete.
  method FeedStdin(frames: seq<Frame>) returns (fed: seq<Byte>, result: FeedResult, handled: nat)
    ensures handled <= |frames| && forall i :: 0 <= i < handled ==>
        frames[i].StdinData? && DecodePayload(frames[i].data).Some?
    ensures fed == StdinPayload(frames[..handled])
    ensures result.Incomplete? <==> handled == |frames|
    ensures handled < |frames| ==>
              && (result.Closed? <==> frames[handled].StdinEof?)
              && (frames[handled].StdinData? ==> DecodePayload(frames[handled].data).None?)
  {
    hide StdinPayload;
    fed, handled := [], 0;
    NoFrames();
    assert frames[..0] == [];
    while handled < |frames|
      invariant handled <= |frames| && forall i :: 0 <= i < handled ==>
          frames[i].StdinData? && DecodePayload(frames[i].data).Some?
      invariant fed == StdinPayload(frames[..handled])
    {
      var frame := frames[handled];
      if frame.StdinEof? { return fed, Closed, handled; }
      if !frame.StdinData? { return fed, InvalidFrame, handled; }
      var payload := DecodePayload(frame.data);
      if payload.None? { return fed, InvalidFrame, handled; }
      assert frames[..handled + 1] == frames[..handled] + [frame];
      PayloadSnoc(frames[..handled], frame, Stdout);
      fed := fed + payload.value;
      handled := handled + 1;
    }
    result := Incomplete;
  }
}
