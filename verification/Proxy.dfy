/** The `connect` command over a connection: handshake, session upgrade, pump. The reader that read the
    hello and the writer that carries the request are the very ones the pump goes on with. */
module Proxy {
  import opened Utf8
  import opened Json
  import opened Codec
  import opened FrameIo
  import opened Pump
  import opened Messages
  import opened ControlApi

  /** What the connection owes before anything is read. */
  function Outs(source: Source, cap: nat): seq<Inbound> {
    Outcomes(Unread(source), cap, EndingOf(source))
  }

  /** Handshake and upgrade. Without a hello nothing is written and that is the error; otherwise the
      request for the named session goes out; and on success the reader is handed over with everything
      behind the hello still owed. */
  method Upgrade(source: Source, writer: Sink, cap: nat, peer: string, service: string,
                 accept: nat, flushes: bool, cut: Chunking)
    returns (r: Reply<FrameReader>, ghost hello: Reply<Hello>)
    requires ValidSource(source) && cap > 0
    modifies writer`written
    ensures Welcomes(Outs(source, cap), EndingOf(source), hello)
    ensures hello.Err? ==> r == Err(hello.error)
    ensures hello.Waiting? ==> r == Waiting
    ensures hello.Ok? ==> r.Ok? || r == Err(Io)
    ensures !hello.Ok? ==> writer.written == old(writer.written)
    ensures hello.Ok? && r.Err? ==> exists f: Value, n: nat ::
      AsksSession(f, peer, service, None) && n <= |Sent(f)| && writer.written == old(writer.written) + Sent(f)[..n]
    ensures r.Ok? ==> exists f: Value ::
      AsksSession(f, peer, service, None) && WellFormed(f) && Depth(f) == 2
      && writer.written == old(writer.written) + Sent(f)
    ensures r.Ok? ==> fresh(r.value) && r.value.Valid() && r.value.maxFrame == cap
    ensures r.Ok? ==> Owed(r.value.View(), cap) == Rest(Outs(source, cap))
    ensures hello.Ok? ==> (r.Ok? <==> accept >= |Sent(OpenSessionRequest(peer, service, None))| && flushes)
  {
    var greeting, client := ConnectControlIo(source, writer, cap, cut);
    hello := greeting;
    if client == null {
      r := match greeting case Err(e) => Err(e) case _ => Waiting;
      return;
    }
    UpgradeRequestsAsk(peer, service, None, "");
    ghost var bytes := Sent(OpenSessionRequest(peer, service, None));
    var halves := client.OpenSession(peer, service, None, accept, flushes);
    r := if halves.Ok? then Ok(client.reader) else Err(Io);
    if r.Err? {
      assert writer.written == old(writer.written) + bytes[..if accept < |bytes| then accept else |bytes|];
    }
  }

  lemma Kept(before: Bytes, now: Bytes)
    requires before <= now
    ensures now == before + now[|before|..]
  {
  }

  /** stdout has every frame before the first violation, error or end, and there is a code exactly when
      the last of them is a refusal, namely its code. */
  ghost predicate Drained(pump: PumpState, owed: seq<Inbound>) {
    && pump.stdout == SendAll(Delivered(owed))
    && forall code :: pump.endedOn == Some(code) <==> EndsOn(Delivered(owed), code)
  }

  /** What a session that has ended with stdout intact has printed, and its code. */
  lemma SessionOutcome(stdin: Source, control: State, turns: seq<Turn>, cap: nat, owed: seq<Inbound>)
    requires Reachable(control, cap) && Owed(control, cap) == owed
    requires var r := Pump.Run(Begin(Start(Unread(stdin), EndingOf(stdin)), control), turns, cap);
      r.down.DownEnded? && !r.stdoutFailed
    ensures var r := Pump.Run(Begin(Start(Unread(stdin), EndingOf(stdin)), control), turns, cap);
      Drained(r, owed)
  {
    StartOwes(Unread(stdin), cap, EndingOf(stdin));
    PumpConfluence(Start(Unread(stdin), EndingOf(stdin)), control, turns, cap);
    var r := Pump.Run(Begin(Start(Unread(stdin), EndingOf(stdin)), control), turns, cap);
    forall code ensures r.endedOn == Some(code) <==> EndsOn(Delivered(owed), code) {
      PumpCodeIff(Start(Unread(stdin), EndingOf(stdin)), control, turns, cap, code);
    }
  }

  /** The pump over halves that have been in use: what they have carried so far stays as it is. */
  method Session(reader: FrameReader, writer: Sink, stdin: Source, stdout: Sink, turns: seq<Turn>, cut: Chunking)
    returns (ended: Option<Option<int>>, ghost pump: PumpState)
    requires reader.Valid() && reader.maxFrame > 0 && ValidSource(stdin) && writer != stdout
    modifies reader, writer, stdout
    ensures pump == Pump.Run(Begin(Start(Unread(stdin), EndingOf(stdin)), old(reader.View())), turns, reader.maxFrame)
    ensures writer.written == old(writer.written) + pump.controlOut
    ensures writer.shutdowns == old(writer.shutdowns) + pump.shutdowns
    ensures stdout.written == old(stdout.written) + pump.stdout
    ensures ended == if pump.down.DownEnded? then Some(pump.endedOn) else None
    ensures pump.down.DownEnded? && !pump.stdoutFailed ==> Drained(pump, old(Owed(reader.View(), reader.maxFrame)))
  {
    ghost var control, owed := reader.View(), Owed(reader.View(), reader.maxFrame);
    var session := new StdioPump(stdin, reader, writer, stdout);
    ended := session.PumpStdio(turns, cut);
    pump := session.View();
    Kept(session.sent, writer.written);
    Kept(session.printed, stdout.written);
    if ended.Some? && !pump.stdoutFailed { SessionOutcome(stdin, control, turns, reader.maxFrame, owed); }
  }

  /** One `connect`, up to where the schedule `turns` leaves it. `pump` is the pump's state at the end,
      from the reader state `control` on. The daemon has received the request for the named session and
      then stdin's frames. Once the pump has ended with stdout intact, stdout has received all frames
      behind the hello before the first violation, error or end, and there is a code exactly when the
      last of them refuses the session. */
  method Connect(source: Source, writer: Sink, stdin: Source, stdout: Sink, cap: nat,
                 peer: string, service: string, accept: nat, flushes: bool, turns: seq<Turn>, cut: Chunking)
    returns (r: Reply<Option<int>>, ghost hello: Reply<Hello>, ghost control: State, ghost pump: PumpState)
    requires ValidSource(source) && ValidSource(stdin) && cap > 0 && writer != stdout
    modifies writer, stdout
    ensures Welcomes(Outs(source, cap), EndingOf(source), hello)
    ensures hello.Err? ==> r == Err(hello.error)
    ensures hello.Waiting? ==> r == Waiting
    ensures r.Err? || hello.Waiting? ==> stdout.written == old(stdout.written)
    ensures r.Err? <==> hello.Err? || (hello.Ok? && (accept < |Sent(OpenSessionRequest(peer, service, None))| || !flushes))
    ensures hello.Ok? && r.Err? ==> r == Err(Io)
    ensures hello.Ok? && !r.Err? ==>
      && Reachable(control, cap) && Owed(control, cap) == Rest(Outs(source, cap))
      && pump == Pump.Run(Begin(Start(Unread(stdin), EndingOf(stdin)), control), turns, cap)
      && writer.shutdowns == old(writer.shutdowns) + pump.shutdowns
      && stdout.written == old(stdout.written) + pump.stdout
      && r == (if pump.down.DownEnded? then Ok(pump.endedOn) else Waiting)
      && (pump.down.DownEnded? && !pump.stdoutFailed ==> Drained(pump, Rest(Outs(source, cap))))
    ensures hello.Ok? && !r.Err? ==> exists f: Value ::
      AsksSession(f, peer, service, None) && WellFormed(f) && Depth(f) == 2
      && writer.written == old(writer.written) + Sent(f) + pump.controlOut
  {
    control, pump := QUIET, Begin(QUIET, QUIET);
    var upgraded;
    upgraded, hello := Upgrade(source, writer, cap, peer, service, accept, flushes, cut);
    match upgraded {
      case Err(e) => r := Err(e);
      case Waiting => r := Waiting;
      case Ok(reader) =>
        control := reader.View();
        var ended;
        ended, pump := Session(reader, writer, stdin, stdout, turns, cut);
        r := if ended.Some? then Ok(ended.value) else Waiting;
    }
  }
}
