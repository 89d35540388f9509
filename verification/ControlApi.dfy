/** The control client: the hello handshake, one request at a time, and the upgrade that hands the
    connection over mid-stream. */
module ControlApi {
  import opened Utf8
  import opened Json
  import opened Codec
  import opened FrameIo
  import opened Messages

  datatype ClientError = Io | ClosedBefore | Malformed | WrongApi(got: string) | Api(err: Value)

  /** How a call stands: `Waiting` while the daemon has not answered yet. */
  datatype Reply<+T> = Ok(value: T) | Err(error: ClientError) | Waiting

  function Rest(outs: seq<Inbound>): seq<Inbound> {
    if outs == [] then [] else outs[1..]
  }

  // ---- Replies ------------------------------------------------------------------------------

  /** What `request_value` returns for what it read. */
  function ReplyOf(x: Inbound): Reply<Value> {
    match x
    case Rejected(_) => Err(Malformed)
    case Frame(resp) =>
      match Get(resp, "error")
      case Some(err) => Err(Api(err))
      case None => match Get(resp, "result") case Some(v) => Ok(v) case None => Ok(Null)
  }

  /** `r` is what `x` comes to, told member by member: a line that is no frame is malformed; a frame with
      an `error`, whatever it is, is that API error; any other is its `result`, or null without one. */
  predicate Answers(x: Inbound, r: Reply<Value>) {
    match x
    case Rejected(_) => r == Err(Malformed)
    case Frame(f) =>
      match r
      case Err(Api(err)) => Has(f, "error", err)
      case Ok(v) => Lacks(f, "error") && (Has(f, "result", v) || (Lacks(f, "result") && v == Null))
      case _ => false
  }

  lemma AnswersIff(x: Inbound, r: Reply<Value>)
    ensures Answers(x, r) <==> r == ReplyOf(x)
  {
  }

  /** What a call that awaits one reply returns, given all that is owed and how the stream stands. */
  predicate Concludes(owed: seq<Inbound>, ending: Ending, r: Reply<Value>) {
    if owed != [] then Answers(owed[0], r)
    else match ending
      case Open => r == Waiting
      case Closed => r == Err(ClosedBefore)
      case Broken => r == Err(Io)
  }

  /** The daemon's answer shapes come back as what went into them. */
  lemma AnswerShapes(id: Value, result: Value, code: int, message: string)
    ensures ReplyOf(Frame(ResultFrame(id, result))) == Ok(result)
    ensures ReplyOf(Frame(ErrorFrame(id, code, message))) == Err(Api(ErrorObject(code, message)))
  {
    AnswersSay(id, result, code, message);
    AnswersIff(Frame(ResultFrame(id, result)), Ok(result));
    AnswersIff(Frame(ErrorFrame(id, code, message)), Err(Api(ErrorObject(code, message))));
  }

  // ---- The handshake ------------------------------------------------------------------------

  function Greet(v: Value): Reply<Hello> {
    match HelloOf(v)
    case None => Err(Malformed)
    case Some(h) => if h.api != API_NAME then Err(WrongApi(h.api)) else Ok(h)
  }

  /** What the handshake comes to, told member by member: a hello for `mcpmesh-local/1` is accepted as it
      is, a hello for any other api is refused by that name, and any other frame or line is malformed. */
  ghost predicate Welcomes(owed: seq<Inbound>, ending: Ending, r: Reply<Hello>) {
    if owed == [] then
      match ending
      case Open => r == Waiting
      case Closed => r == Err(ClosedBefore)
      case Broken => r == Err(Io)
    else match owed[0]
      case Rejected(_) => r == Err(Malformed)
      case Frame(v) =>
        match r
        case Ok(h) => SaysHello(v, h) && h.api == "mcpmesh-local/1"
        case Err(WrongApi(got)) => got != "mcpmesh-local/1" && exists h :: SaysHello(v, h) && h.api == got
        case Err(Malformed) => forall h :: !SaysHello(v, h)
        case _ => false
  }

  lemma GreetWelcomes(owed: seq<Inbound>, ending: Ending, v: Value)
    requires owed != [] && owed[0] == Frame(v)
    ensures Welcomes(owed, ending, Greet(v))
  {
    forall h ensures HelloOf(v) == Some(h) <==> SaysHello(v, h) { HelloIff(v, h); }
  }

  /** There is one outcome, so on a daemon's own hello the handshake accepts or refuses by the name. */
  lemma OwnHello(h: Hello, rest: Bytes, cap: nat, ending: Ending, r: Reply<Hello>)
    requires h.apiMinor <= 0xFFFF_FFFF && |ToVec(HelloFrame(h))| <= cap
    requires Welcomes(Outcomes(Sent(HelloFrame(h)) + rest, cap, ending), ending, r)
    ensures r == if h.api == "mcpmesh-local/1" then Ok(h) else Err(WrongApi(h.api))
  {
    HelloRoundTrip(h);
    HelloSorted(h);
    SentOutcome(HelloFrame(h), rest, cap, ending);
    forall g ensures SaysHello(HelloFrame(h), g) <==> g == h { HelloIff(HelloFrame(h), g); }
  }

  // ---- The client ---------------------------------------------------------------------------

  class ControlClient {
    var hello: Hello
    const reader: FrameReader
    const writer: Sink

    constructor (hello: Hello, reader: FrameReader, writer: Sink)
      ensures this.hello == hello && this.reader == reader && this.writer == writer && fresh(this)
    {
      this.hello, this.reader, this.writer := hello, reader, writer;
    }

    /** What the daemon's side of the connection still owes this client. */
    ghost function Owes(): seq<Inbound>
      reads this, reader
    {
      Owed(reader.View(), reader.maxFrame)
    }

    /** Awaits the reply: the first outcome owed, and no other. */
    method AwaitReply(cut: Chunking) returns (r: Reply<Value>)
      requires reader.Valid()
      modifies reader
      ensures reader.Valid() && reader.View().ending == old(reader.View().ending)
      ensures Owes() == Rest(old(Owes())) && Concludes(old(Owes()), old(reader.View().ending), r)
      ensures old(Owes()) != [] ==> Fresh(reader.View())
    {
      AwaitFirst(reader.View(), reader.maxFrame);
      var p := reader.Next(|Unread(reader.reader)| + 1, cut);
      match p
      case Pending => return Waiting;
      case Failed => return Err(Io);
      case Ready(None) => return Err(ClosedBefore);
      case Ready(Some(x)) =>
        AnswersIff(x, ReplyOf(x));
        return ReplyOf(x);
    }

    /** One request, one reply. The request goes out first; if that fails nothing is read. Otherwise
        the call takes the first outcome owed, and no other, and leaves the reader between frames. */
    method RequestValue(request: Value, accept: nat, flushes: bool, cut: Chunking) returns (r: Reply<Value>)
      requires reader.Valid() && WellFormed(request)
      modifies writer`written, reader
      ensures reader.Valid() && reader.View().ending == old(reader.View().ending)
      ensures writer.written == old(writer.written)
            + if accept < |Sent(request)| then Sent(request)[..accept] else Sent(request)
      ensures accept < |Sent(request)| || !flushes ==> r == Err(Io) && reader.View() == old(reader.View())
      ensures accept >= |Sent(request)| && flushes ==> Owes() == Rest(old(Owes()))
      ensures accept >= |Sent(request)| && flushes ==>
        Concludes(old(Owes()), old(reader.View().ending), r)
      ensures accept >= |Sent(request)| && flushes && old(Owes()) != [] ==> Fresh(reader.View())
    {
      var sent := WriteFrame(writer, request, accept, flushes);
      if !sent { return Err(Io); }
      r := AwaitReply(cut);
    }

    /** The session upgrade: the request goes out, nothing is read, and the very reader that read the
        hello is handed over, owing all it owed. */
    method OpenSession(peer: string, service: string, idle: Option<nat>, accept: nat, flushes: bool)
      returns (halves: Reply<(FrameReader, Sink)>)
      requires reader.Valid() && (idle.Some? ==> idle.value < U64_LIMIT)
      modifies writer`written
      ensures reader.Valid() && Owes() == old(Owes())
      ensures var bytes := Sent(OpenSessionRequest(peer, service, idle));
        && writer.written == old(writer.written) + (if accept < |bytes| then bytes[..accept] else bytes)
        && halves == if accept < |bytes| || !flushes then Err(Io) else Ok((reader, writer))
      ensures halves.Ok? ==> exists f: Value ::
        AsksSession(f, peer, service, idle) && WellFormed(f) && Depth(f) == 2 && writer.written == old(writer.written) + Sent(f)
    {
      UpgradeRequestsWellFormed(peer, service, idle, "");
      UpgradeRequestsAsk(peer, service, idle, "");
      var sent := WriteFrame(writer, OpenSessionRequest(peer, service, idle), accept, flushes);
      halves := if sent then Ok((reader, writer)) else Err(Io);
    }

    /** The generic stream upgrade. */
    method OpenStream(verb: string, accept: nat, flushes: bool)
      returns (halves: Reply<(FrameReader, Sink)>)
      requires reader.Valid()
      modifies writer`written
      ensures reader.Valid() && Owes() == old(Owes())
      ensures var bytes := Sent(StreamRequest(verb));
        && writer.written == old(writer.written) + (if accept < |bytes| then bytes[..accept] else bytes)
        && halves == if accept < |bytes| || !flushes then Err(Io) else Ok((reader, writer))
      ensures halves.Ok? ==> exists f: Value ::
        AsksStream(f, verb) && WellFormed(f) && Depth(f) == 1 && writer.written == old(writer.written) + Sent(f)
    {
      UpgradeRequestsWellFormed("", "", None, verb);
      UpgradeRequestsAsk("", "", None, verb);
      var sent := WriteFrame(writer, StreamRequest(verb), accept, flushes);
      halves := if sent then Ok((reader, writer)) else Err(Io);
    }
  }

  /** The hello handshake. A client exists exactly when the first frame is a hello for this API; its
      reader, between frames, still owes every outcome behind the hello, pipelined bytes included, and
      nothing has been written. */
  method ConnectControlIo(source: Source, writer: Sink, cap: nat, cut: Chunking)
    returns (r: Reply<Hello>, client: ControlClient?)
    requires ValidSource(source) && cap > 0
    ensures var outs := Outcomes(Unread(source), cap, EndingOf(source));
      && Welcomes(outs, EndingOf(source), r)
      && (client != null <==> r.Ok?)
      && (client != null ==>
            && client.reader.Valid() && fresh(client.reader) && client.writer == writer
            && client.reader.maxFrame == cap
            && client.hello == r.value
            && client.Owes() == outs[1..] && Fresh(client.reader.View()))
    ensures writer.written == old(writer.written)
  {
    client := null;
    var reader := new FrameReader(source, cap);
    StartOwes(Unread(source), cap, EndingOf(source));
    AwaitFirst(reader.View(), cap);
    var p := reader.Next(|Unread(reader.reader)| + 1, cut);
    match p
    case Pending => r := Waiting;
    case Failed => r := Err(Io);
    case Ready(None) => r := Err(ClosedBefore);
    case Ready(Some(Rejected(_))) => r := Err(Malformed);
    case Ready(Some(Frame(v))) =>
      r := Greet(v);
      GreetWelcomes(Outcomes(Unread(source), cap, EndingOf(source)), EndingOf(source), v);
      if r.Ok? { client := new ControlClient(r.value, reader, writer); }
  }

  /** Re-boxing the read half: unwrap to the buffered reader and frame it again. Between frames this
      loses nothing, read-ahead included. */
  method Rebox(r: FrameReader) returns (again: FrameReader)
    requires r.Valid() && r.maxFrame > 0 && Fresh(r.View())
    ensures fresh(again) && again.Valid() && again.View() == r.View() && again.maxFrame == r.maxFrame
  {
    again := new FrameReader(r.IntoInner(), r.maxFrame);
  }

  // ---- Response matching --------------------------------------------------------------------

  /** A client and a daemon that dispatches requests concurrently. `received` is what the daemon has
      read, `inflight` which of those it is still working on, `answers[k]` what it answered to the
      k-th; `results` is what the client's calls returned. */
  datatype Rpc = Rpc(
    waiting: bool, sent: seq<Value>, toDaemon: State, received: seq<Inbound>,
    inflight: seq<nat>, answers: map<nat, Value>, toClient: State, results: seq<Reply<Value>>)

  /** The daemon may complete any in-flight request, in any order. */
  datatype Act =
    | Call(request: Value)
    | DaemonReads(budget: nat)
    | DaemonAnswers(which: nat, answer: Value)
    | ClientReads(budget: nat)

  const QUIET := Start([], Open)

  function RpcStart(): Rpc {
    Rpc(false, [], QUIET, [], [], map[], QUIET, [])
  }

  predicate ActOk(a: Act) {
    match a
    case Call(request) => WellFormed(request)
    case DaemonAnswers(_, answer) => WellFormed(answer)
    case _ => true
  }

  function Receive(s: Rpc, d: State, x: Inbound): Rpc {
    s.(toDaemon := d, received := s.received + [x], inflight := s.inflight + [|s.received|])
  }

  function Answer(s: Rpc, i: nat, answer: Value): Rpc
    requires i < |s.inflight|
  {
    s.(inflight := s.inflight[..i] + s.inflight[i + 1..],
       answers := s.answers[s.inflight[i] := answer],
       toClient := s.toClient.(input := s.toClient.input + Sent(answer)))
  }

  function RpcStep(s: Rpc, a: Act, cap: nat): Rpc {
    match a
    case Call(request) =>
      // `&mut self`: the next call starts only after the last one returned
      if s.waiting then s
      else s.(waiting := true, sent := s.sent + [request],
              toDaemon := s.toDaemon.(input := s.toDaemon.input + Sent(request)))
    case DaemonReads(budget) =>
      var (d, p) := PollNext(s.toDaemon, cap, budget);
      (match p
       case Ready(Some(Rejected(why))) => Answer(Receive(s, d, Rejected(why)), |s.inflight|, ParseError(why))
       case Ready(Some(frame)) => Receive(s, d, frame)
       case _ => s.(toDaemon := d))
    case DaemonAnswers(i, answer) => if i >= |s.inflight| then s else Answer(s, i, answer)
    case ClientReads(budget) =>
      if !s.waiting then s
      else
        var (c, p) := PollNext(s.toClient, cap, budget);
        match p
        case Ready(Some(x)) => s.(toClient := c, waiting := false, results := s.results + [ReplyOf(x)])
        case _ => s.(toClient := c)
  }

  function RpcRun(s: Rpc, acts: seq<Act>, cap: nat): Rpc
    decreases |acts|
  {
    if acts == [] then s else RpcRun(RpcStep(s, acts[0], cap), acts[1..], cap)
  }

  /** `carry` of a line has been read, the rest is on its way, and nothing else is. */
  predicate CarryingLine(st: State, cap: nat, body: Bytes, carry: Bytes) {
    st.ending == Open && Carries(st, cap, carry) && carry + st.input == Line(body)
  }

  predicate Carrying(st: State, cap: nat, v: Value, carry: Bytes) {
    CarryingLine(st, cap, ToVec(v), carry)
  }

  /** Where the one outstanding request is. */
  datatype Phase = Idle | Travelling(up: Bytes) | Working | Answered(back: Bytes)

  /** What becomes of a frame at either end: how the daemon receives a request, which answers are right
      for what it received, and what a call makes of an answer. */
  datatype Ends = Ends(receive: Value -> Inbound, right: (Inbound, Value) -> bool, result: Value -> Reply<Value>)

  /** A rejected line is answered with the parse error. */
  predicate Right(x: Inbound, answer: Value) {
    WellFormed(answer) && (x.Rejected? ==> answer == ParseError(x.why))
  }

  function CappedEnds(cap: nat): Ends {
    Ends(v => Received(v, cap), Right, v => ReplyOf(Received(v, cap)))
  }

  /** How many requests have been sent, received, answered and returned. */
  ghost predicate Counts(s: Rpc, ph: Phase) {
    var k := |s.results|;
    && s.waiting == !ph.Idle?
    && |s.sent| == (if s.waiting then k + 1 else k)
    && |s.received| == (if ph.Idle? || ph.Travelling? then k else k + 1)
    && s.inflight == (if ph.Working? then [k] else [])
    && (forall j :: j in s.answers <==> 0 <= j < (if ph.Answered? then k + 1 else k))
  }

  /** What was received for which request, answered to it and made of the answer. */
  ghost predicate Matches(s: Rpc, ends: Ends)
    requires |s.received| <= |s.sent| && |s.results| <= |s.received|
    requires forall j :: 0 <= j < |s.results| ==> j in s.answers
  {
    && (forall j :: 0 <= j < |s.received| ==> s.received[j] == ends.receive(s.sent[j]))
    && (forall j :: 0 <= j < |s.results| ==> s.results[j] == ends.result(s.answers[j]))
    && (forall j :: 0 <= j < |s.received| && j in s.answers ==> ends.right(s.received[j], s.answers[j]))
  }

  ghost predicate Ledger(s: Rpc, ph: Phase, ends: Ends) {
    Counts(s, ph) && Matches(s, ends)
  }

  /** What is on its way. */
  ghost predicate Wires(s: Rpc, ph: Phase, cap: nat) {
    && (if ph.Travelling?
        then s.sent != [] && WellFormed(s.sent[|s.sent| - 1]) && Carrying(s.toDaemon, cap, s.sent[|s.sent| - 1], ph.up)
        else s.toDaemon == QUIET)
    && (if ph.Answered?
        then |s.results| in s.answers && Carrying(s.toClient, cap, s.answers[|s.results|], ph.back)
        else s.toClient == QUIET)
  }

  ghost predicate RpcSafe(s: Rpc, ph: Phase, cap: nat) {
    Ledger(s, ph, CappedEnds(cap)) && Wires(s, ph, cap) && (ph.Working? ==> s.received[|s.results|].Frame?)
  }

  lemma PollOneLine(st: State, cap: nat, budget: nat, body: Bytes, carry: Bytes) returns (more: Bytes)
    requires OneLine(body) && CarryingLine(st, cap, body, carry)
    ensures var (s, p) := PollNext(st, cap, budget);
      || (p.Pending? && CarryingLine(s, cap, body, more))
      || (p == Ready(Some(Classify(body, cap))) && s == QUIET)
  {
    more := PollTold(st, cap, budget, carry);
    var (s, p) := PollNext(st, cap, budget);
    if p.Ready? && p.item.Some? {
      assert Line(body) == Line(body) + [];
      FirstLineUnique(body, [], more, s.input);
    }
  }

  /** A reader with one frame on its way yields that frame's outcome and is quiet again. */
  lemma PollOneFrame(st: State, cap: nat, budget: nat, v: Value, carry: Bytes) returns (more: Bytes)
    requires WellFormed(v) && Carrying(st, cap, v, carry)
    ensures var (s, p) := PollNext(st, cap, budget);
      || (p.Pending? && Carrying(s, cap, v, more))
      || (p == Ready(Some(Received(v, cap))) && s == QUIET)
  {
    ToVecOneLine(v);
    FromSliceToVec(v);
    more := PollOneLine(st, cap, budget, ToVec(v), carry);
  }

  lemma QuietStays(cap: nat, budget: nat)
    ensures PollNext(QUIET, cap, budget) == (QUIET, Pending)
  {
  }

  lemma RpcCallSafe(s: Rpc, ph: Phase, request: Value, cap: nat) returns (next: Phase)
    requires RpcSafe(s, ph, cap) && WellFormed(request)
    ensures RpcSafe(RpcStep(s, Call(request), cap), next, cap)
  {
    next := if s.waiting then ph else Travelling([]);
    assert [] + Sent(request) == Sent(request);
  }

  lemma ReceiveLedger(s: Rpc, up: Bytes, x: Inbound, ends: Ends)
    requires Ledger(s, Travelling(up), ends) && x == ends.receive(s.sent[|s.results|])
    ensures Ledger(Receive(s, QUIET, x), Working, ends) && Receive(s, QUIET, x).received[|s.results|] == x
  {
    var r := Receive(s, QUIET, x);
    forall j | 0 <= j < |r.received| ensures r.received[j] == ends.receive(r.sent[j]) {
      if j < |s.received| { assert r.received[j] == s.received[j]; }
    }
  }

  lemma AnswerCounts(s: Rpc, answer: Value)
    requires Counts(s, Working)
    ensures Counts(Answer(s, 0, answer), Answered([]))
  {
    assert s.inflight[..0] + s.inflight[1..] == [];
  }

  lemma AnswerLedger(s: Rpc, answer: Value, ends: Ends)
    requires Ledger(s, Working, ends) && ends.right(s.received[|s.results|], answer)
    ensures Ledger(Answer(s, 0, answer), Answered([]), ends)
  {
    AnswerCounts(s, answer);
    var r, k := Answer(s, 0, answer), |s.results|;
    forall j | 0 <= j < |r.received| && j in r.answers ensures ends.right(r.received[j], r.answers[j]) {
      if j != k { assert j in s.answers; }
    }
  }

  lemma AnswerSafe(s: Rpc, answer: Value, cap: nat)
    requires Ledger(s, Working, CappedEnds(cap)) && Wires(s, Working, cap) && Right(s.received[|s.results|], answer)
    ensures RpcSafe(Answer(s, 0, answer), Answered([]), cap)
  {
    AnswerLedger(s, answer, CappedEnds(cap));
    assert [] + Sent(answer) == Sent(answer);
  }

  /** What the daemon's read does to the one request on its way: it comes further, or is received. */
  lemma DaemonReadsWhat(s: Rpc, up: Bytes, budget: nat, v: Value, x: Inbound, cap: nat)
    returns (d: State, more: Bytes, whole: bool)
    requires WellFormed(v) && Carrying(s.toDaemon, cap, v, up) && x == Received(v, cap) && s.inflight == []
    ensures !whole ==> RpcStep(s, DaemonReads(budget), cap) == s.(toDaemon := d) && Carrying(d, cap, v, more)
    ensures whole && x.Frame? ==> RpcStep(s, DaemonReads(budget), cap) == Receive(s, QUIET, x)
    ensures whole && x.Rejected? ==>
      RpcStep(s, DaemonReads(budget), cap) == Answer(Receive(s, QUIET, x), 0, ParseError(x.why))
  {
    more := PollOneFrame(s.toDaemon, cap, budget, v, up);
    d := PollNext(s.toDaemon, cap, budget).0;
    whole := !PollNext(s.toDaemon, cap, budget).1.Pending?;
  }

  lemma DaemonMoves(s: Rpc, up: Bytes, d: State, more: Bytes, cap: nat)
    requires RpcSafe(s, Travelling(up), cap) && Carrying(d, cap, s.sent[|s.results|], more)
    ensures RpcSafe(s.(toDaemon := d), Travelling(more), cap)
  {
  }

  /** A received request: at work on, or answered at once. */
  lemma ReceiveSafe(s: Rpc, up: Bytes, x: Inbound, cap: nat) returns (next: Phase)
    requires RpcSafe(s, Travelling(up), cap) && x == Received(s.sent[|s.results|], cap)
    ensures var r := Receive(s, QUIET, x);
      RpcSafe(if x.Frame? then r else Answer(r, 0, ParseError(x.why)), next, cap)
  {
    ReceiveLedger(s, up, x, CappedEnds(cap));
    next := Working;
    if x.Rejected? {
      ErrorFrameWellFormed(Null, -32700, "invalid request frame: TooLarge");
      ErrorFrameWellFormed(Null, -32700, "invalid request frame: InvalidJson");
      AnswerSafe(Receive(s, QUIET, x), ParseError(x.why), cap);
      next := Answered([]);
    }
  }

  lemma DaemonFindsNothing(s: Rpc, budget: nat, cap: nat)
    requires s.toDaemon == QUIET
    ensures RpcStep(s, DaemonReads(budget), cap) == s
  {
    QuietStays(cap, budget);
  }

  lemma RpcDaemonReadsSafe(s: Rpc, ph: Phase, budget: nat, cap: nat) returns (next: Phase)
    requires RpcSafe(s, ph, cap)
    ensures RpcSafe(RpcStep(s, DaemonReads(budget), cap), next, cap)
  {
    next := ph;
    if ph.Travelling? {
      var v := s.sent[|s.results|];
      var d, more, whole := DaemonReadsWhat(s, ph.up, budget, v, Received(v, cap), cap);
      if !whole {
        DaemonMoves(s, ph.up, d, more, cap);
        next := Travelling(more);
      } else {
        next := ReceiveSafe(s, ph.up, Received(v, cap), cap);
      }
    } else {
      DaemonFindsNothing(s, budget, cap);
    }
  }

  lemma RpcAnswerSafe(s: Rpc, ph: Phase, i: nat, answer: Value, cap: nat) returns (next: Phase)
    requires RpcSafe(s, ph, cap) && WellFormed(answer)
    ensures RpcSafe(RpcStep(s, DaemonAnswers(i, answer), cap), next, cap)
  {
    next := ph;
    if i < |s.inflight| {
      AnswerSafe(s, answer, cap);
      next := Answered([]);
    }
  }

  function Return(s: Rpc, result: Reply<Value>): Rpc {
    s.(toClient := QUIET, waiting := false, results := s.results + [result])
  }

  lemma ReturnLedger(s: Rpc, back: Bytes, result: Reply<Value>, ends: Ends)
    requires Ledger(s, Answered(back), ends) && result == ends.result(s.answers[|s.results|])
    ensures Ledger(Return(s, result), Idle, ends)
  {
    var r := Return(s, result);
    forall j | 0 <= j < |r.results| ensures r.results[j] == ends.result(r.answers[j]) {
      if j < |s.results| { assert r.results[j] == s.results[j]; }
    }
  }

  lemma ClientReadsWhat(s: Rpc, back: Bytes, budget: nat, v: Value, cap: nat)
    returns (c: State, more: Bytes, whole: bool)
    requires WellFormed(v) && Carrying(s.toClient, cap, v, back) && s.waiting
    ensures !whole ==> RpcStep(s, ClientReads(budget), cap) == s.(toClient := c) && Carrying(c, cap, v, more)
    ensures whole ==> RpcStep(s, ClientReads(budget), cap) == Return(s, ReplyOf(Received(v, cap)))
  {
    more := PollOneFrame(s.toClient, cap, budget, v, back);
    c := PollNext(s.toClient, cap, budget).0;
    whole := !PollNext(s.toClient, cap, budget).1.Pending?;
  }

  lemma ClientMoves(s: Rpc, back: Bytes, c: State, more: Bytes, cap: nat)
    requires RpcSafe(s, Answered(back), cap) && Carrying(c, cap, s.answers[|s.results|], more)
    ensures RpcSafe(s.(toClient := c), Answered(more), cap)
  {
  }

  lemma RpcClientReadsSafe(s: Rpc, ph: Phase, budget: nat, cap: nat) returns (next: Phase)
    requires RpcSafe(s, ph, cap)
    ensures RpcSafe(RpcStep(s, ClientReads(budget), cap), next, cap)
  {
    next := ph;
    if ph.Answered? {
      var answer := s.answers[|s.results|];
      assert Right(s.received[|s.results|], answer);
      var c, more, whole := ClientReadsWhat(s, ph.back, budget, answer, cap);
      if !whole {
        ClientMoves(s, ph.back, c, more, cap);
        next := Answered(more);
      } else {
        ReturnLedger(s, ph.back, ReplyOf(Received(answer, cap)), CappedEnds(cap));
        next := Idle;
      }
    } else {
      QuietStays(cap, budget);
    }
  }

  lemma RpcStepSafe(s: Rpc, ph: Phase, a: Act, cap: nat) returns (next: Phase)
    requires RpcSafe(s, ph, cap) && ActOk(a)
    ensures RpcSafe(RpcStep(s, a, cap), next, cap)
  {
    match a
    case Call(request) => next := RpcCallSafe(s, ph, request, cap);
    case DaemonReads(budget) => next := RpcDaemonReadsSafe(s, ph, budget, cap);
    case DaemonAnswers(i, answer) => next := RpcAnswerSafe(s, ph, i, answer, cap);
    case ClientReads(budget) => next := RpcClientReadsSafe(s, ph, budget, cap);
  }

  lemma {:induction false} RpcRunSafe(s: Rpc, ph: Phase, acts: seq<Act>, cap: nat) returns (last: Phase)
    requires RpcSafe(s, ph, cap) && forall i :: 0 <= i < |acts| ==> ActOk(acts[i])
    ensures RpcSafe(RpcRun(s, acts, cap), last, cap)
    decreases |acts|
  {
    last := ph;
    if acts != [] {
      var next := RpcStepSafe(s, ph, acts[0], cap);
      last := RpcRunSafe(RpcStep(s, acts[0], cap), next, acts[1..], cap);
    }
  }

  /** Response matching: whatever order the daemon completes requests in and however the bytes
      travel, the client never has two outstanding; the k-th thing the daemon receives is the client's
      k-th request, or its rejection when that is oversized or too deep; and the k-th result is what the
      daemon answered to it, a parse error for a rejected one. */
  lemma ResponsesMatch(acts: seq<Act>, cap: nat)
    requires forall i :: 0 <= i < |acts| ==> ActOk(acts[i])
    ensures var r := RpcRun(RpcStart(), acts, cap);
      && |r.results| <= |r.sent| <= |r.results| + 1 && |r.inflight| <= 1
      && |r.results| <= |r.received| <= |r.sent|
      && (forall k :: 0 <= k < |r.received| ==> r.received[k] == Received(r.sent[k], cap))
      && (forall k :: 0 <= k < |r.results| ==>
            k in r.answers && Answers(Received(r.answers[k], cap), r.results[k]))
      && (forall k :: 0 <= k < |r.results| && !Fits(r.sent[k], cap) ==>
            r.answers[k] == ParseError(if |ToVec(r.sent[k])| > cap then TooLarge else InvalidJson))
  {
    var last := RpcRunSafe(RpcStart(), Idle, acts, cap);
    var r := RpcRun(RpcStart(), acts, cap);
    LedgerRead(r, last, cap);
    forall k | 0 <= k < |r.results| ensures Answers(Received(r.answers[k], cap), r.results[k]) {
      AnswersIff(Received(r.answers[k], cap), r.results[k]);
    }
  }

  /** So the k-th result is the result the daemon put into its answer, or its error, unless the answer
      does not fit. */
  lemma ResultsMatch(acts: seq<Act>, cap: nat, k: nat, id: Value, result: Value, code: int, message: string)
    requires forall i :: 0 <= i < |acts| ==> ActOk(acts[i])
    requires k < |RpcRun(RpcStart(), acts, cap).results| && k in RpcRun(RpcStart(), acts, cap).answers
    ensures var r := RpcRun(RpcStart(), acts, cap);
      && (r.answers[k] == ResultFrame(id, result) && Fits(r.answers[k], cap) ==> r.results[k] == Ok(result))
      && (r.answers[k] == ErrorFrame(id, code, message) && Fits(r.answers[k], cap) ==>
            r.results[k] == Err(Api(ErrorObject(code, message))))
      && (!Fits(r.answers[k], cap) ==> r.results[k] == Err(Malformed))
  {
    ResponsesMatch(acts, cap);
    var r := RpcRun(RpcStart(), acts, cap);
    AnswersIff(Received(r.answers[k], cap), r.results[k]);
    AnswerShapes(id, result, code, message);
  }

  lemma LedgerRead(r: Rpc, last: Phase, cap: nat)
    requires Ledger(r, last, CappedEnds(cap))
    ensures forall k :: 0 <= k < |r.received| ==> r.received[k] == Received(r.sent[k], cap)
    ensures forall k :: 0 <= k < |r.results| ==>
      k in r.answers && r.results[k] == ReplyOf(Received(r.answers[k], cap)) && Right(r.received[k], r.answers[k])
  {
  }
}
