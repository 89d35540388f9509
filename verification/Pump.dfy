/** The `connect` proxy's pump: two loops that share a `select!`. `to_control` relays stdin to the
    daemon, half-closes and parks forever; `to_stdout` relays the daemon to stdout, and only its end
    ends the pump. */
module Pump {
  import opened Utf8
  import opened Json
  import opened Codec
  import opened FrameIo

  // ---- What the returned code reads ---------------------------------------------------------

  const ERR_SERVICE := -32054
  const ERR_UNREACHABLE := -32055

  /** `Some(code)` for the two session-refusing errors the mesh itself synthesizes. */
  function MeshErrorCode(frame: Value): Option<int> {
    match Get(frame, "error")
    case None => None
    case Some(error) =>
      match Get(error, "data")
      case None => None
      case Some(data) =>
        if Get(data, "source") != Some(Str("mcpmesh")) then None else
        match Get(error, "code")
        case Some(Int(code)) => if code == ERR_UNREACHABLE || code == ERR_SERVICE then Some(code) else None
        case _ => None
  }

  /** A refusal of the session by the mesh itself, told member by member. */
  predicate Refuses(frame: Value, code: int) {
    && (code == -32055 || code == -32054)
    && frame.Obj? && var error := Lookup(frame.members, "error");
    && error.Some? && Has(error.value, "code", Int(code))
    && error.value.Obj? && var data := Lookup(error.value.members, "data");
    && data.Some? && Has(data.value, "source", Str("mcpmesh"))
  }

  /** A frame has a code exactly when it is such a refusal with that code: so an ordinary response, a
      backend's own error and every other platform code have none. */
  lemma MeshErrorIff(frame: Value, code: int)
    ensures MeshErrorCode(frame) == Some(code) <==> Refuses(frame, code)
  {
  }

  /** The error frame every synthesized refusal is (`extra` is what a rate limit adds to `data`). */
  function Synthesized(id: Value, code: int, message: string, extra: Members): Value {
    Obj(Member("error", Obj(
                 Member("code", Int(code),
                 Member("data", Obj(Normalize(Member("source", Str("mcpmesh"), extra))),
                 Member("message", Str(message), End)))),
        Member("id", id,
        Member("jsonrpc", Str("2.0"), End))))
  }

  /** The platform's own refusals are recognised, exactly the two session-refusing codes of them;
      `retry_after_ms` and the like beside the marker do not hide it. */
  lemma SynthesizedRecognised(id: Value, code: int, message: string, extra: Members)
    requires LastBinding(extra, "source").None?
    ensures MeshErrorCode(Synthesized(id, code, message, extra))
         == if code == ERR_UNREACHABLE || code == ERR_SERVICE then Some(code) else None
  {
    var marked := Member("source", Str("mcpmesh"), extra);
    NormalizeKeepsLast(marked, "source");
    var message := Member("message", Str(message), End);
    var data := Member("data", Obj(Normalize(marked)), message);
    var error := Obj(Member("code", Int(code), data));
    assert Get(Synthesized(id, code, message.value.s, extra), "error") == Some(error);
    assert Lookup(data, "data") == Some(data.value);
    assert Get(error, "data") == Some(data.value);
  }

  /** What such a frame says. */
  lemma SynthesizedSays(id: Value, code: int, message: string, extra: Members)
    requires LastBinding(extra, "source").None?
    ensures var f := Synthesized(id, code, message, extra);
      && Has(f, "jsonrpc", Str("2.0")) && Has(f, "id", id) && f.Obj?
      && var error := Lookup(f.members, "error");
      && error.Some? && Has(error.value, "code", Int(code)) && Has(error.value, "message", Str(message))
      && error.value.Obj? && var data := Lookup(error.value.members, "data");
      && data.Some? && Has(data.value, "source", Str("mcpmesh"))
  {
    var marked := Member("source", Str("mcpmesh"), extra);
    NormalizeKeepsLast(marked, "source");
    var text := Member("message", Str(message), End);
    var data := Member("data", Obj(Normalize(marked)), text);
    assert Lookup(text, "message") == Some(Str(message));
    assert Lookup(data, "message") == Some(Str(message)) && Lookup(data, "data") == Some(Obj(Normalize(marked)));
    var error := Member("code", Int(code), data);
    assert Lookup(error, "message") == Some(Str(message)) && Lookup(error, "data") == Some(Obj(Normalize(marked)));
    var version := Member("jsonrpc", Str("2.0"), End);
    assert Lookup(version, "jsonrpc") == Some(Str("2.0"));
    var rest := Member("id", id, version);
    assert Lookup(rest, "jsonrpc") == Some(Str("2.0")) && Lookup(rest, "id") == Some(id);
  }

  /** Without the marker no error is the mesh's, whatever its code. */
  lemma UnmarkedNeverRecognised(frame: Value, error: Value)
    requires Get(frame, "error") == Some(error)
    requires Get(error, "data").None? || Get(Get(error, "data").value, "source") != Some(Str("mcpmesh"))
    ensures MeshErrorCode(frame).None?
  {
  }

  // ---- The two loops as interleaved turns ---------------------------------------------------

  /** What one poll of a loop finds: `Avail(n)`: `n` bytes can be read, or written (one more than are
      left also flushes); `Fault`: the write, flush or shutdown under way fails. */
  datatype Io = Avail(n: nat) | Fault

  /** Which loop the scheduler polls. */
  datatype Turn = ToControl(io: Io) | ToStdout(io: Io)

  /** stdin to control: reading, part-way through a frame's bytes, half-closing, parked for good. */
  datatype Up = UpReading | UpWriting(left: Bytes) | UpClosing | UpParked

  /** control to stdout. */
  datatype Down = DownReading | DownWriting(left: Bytes) | DownEnded

  /** `controlOut` and `stdout` are what the pump has added to its two sinks, `shutdowns` how often it
      has shut the control writer down. `fromStdin`, `fromControl`, `controlFailed` and `stdoutFailed`
      are history: the frames read, and whether a write has failed. */
  datatype PumpState = PumpState(
    stdin: State, up: Up, controlOut: Bytes, shutdowns: nat, fromStdin: seq<Value>, controlFailed: bool,
    control: State, down: Down, stdout: Bytes, endedOn: Option<int>, fromControl: seq<Value>,
    stdoutFailed: bool)

  function Begin(stdin: State, control: State): PumpState {
    PumpState(stdin, UpReading, [], 0, [], false, control, DownReading, [], None, [], false)
  }

  function Budget(io: Io): nat { if io.Avail? then io.n else 0 }

  /** Bytes a write of `left` gets out this turn. */
  function Out(io: Io, left: Bytes): (k: nat)
    ensures k <= |left|
  {
    if Budget(io) < |left| then Budget(io) else |left|
  }

  function StepUp(s: PumpState, io: Io, cap: nat): PumpState {
    match s.up
    case UpReading =>
      var (stdin, p) := PollNext(s.stdin, cap, Budget(io));
      var t := s.(stdin := stdin);
      (match p
       case Pending => t
       case Ready(Some(Frame(v))) => t.(up := UpWriting(Sent(v)), fromStdin := s.fromStdin + [v])
       case _ => t.(up := UpClosing))
    case UpWriting(left) =>
      var k := Out(io, left);
      var t := s.(controlOut := s.controlOut + left[..k]);
      if io.Fault? then t.(up := UpClosing, controlFailed := true)
      else if io.n > |left| then t.(up := UpReading)
      else t.(up := UpWriting(left[k..]))
    case UpClosing =>
      if io == Avail(0) then s else s.(shutdowns := s.shutdowns + 1, up := UpParked)
    case UpParked => s
  }

  function StepDown(s: PumpState, io: Io, cap: nat): PumpState {
    match s.down
    case DownReading =>
      var (control, p) := PollNext(s.control, cap, Budget(io));
      var t := s.(control := control);
      (match p
       case Pending => t
       case Ready(Some(Frame(v))) =>
         t.(down := DownWriting(Sent(v)), endedOn := MeshErrorCode(v), fromControl := s.fromControl + [v])
       case _ => t.(down := DownEnded))
    case DownWriting(left) =>
      var k := Out(io, left);
      var t := s.(stdout := s.stdout + left[..k]);
      if io.Fault? then t.(down := DownEnded, stdoutFailed := true)
      else if io.n > |left| then t.(down := DownReading)
      else t.(down := DownWriting(left[k..]))
    case DownEnded => s
  }

  /** One turn of the `select!`; once `to_stdout` has ended there are no more. */
  function Step(s: PumpState, t: Turn, cap: nat): PumpState {
    if s.down.DownEnded? then s
    else match t
      case ToControl(io) => StepUp(s, io, cap)
      case ToStdout(io) => StepDown(s, io, cap)
  }

  function Run(s: PumpState, turns: seq<Turn>, cap: nat): PumpState
    decreases |turns|
  {
    if turns == [] then s else Run(Step(s, turns[0], cap), turns[1..], cap)
  }

  // ---- What a stream delivers ---------------------------------------------------------------

  /** The frames before the first violation. */
  function Delivered(outs: seq<Inbound>): seq<Value> {
    if outs == [] || !outs[0].Frame? then [] else [outs[0].value] + Delivered(outs[1..])
  }

  lemma DeliveredCons(x: Inbound, rest: seq<Inbound>)
    ensures Delivered([x] + rest) == if x.Frame? then [x.value] + Delivered(rest) else []
  {
    assert ([x] + rest)[1..] == rest;
  }

  lemma {:induction false} SendAllSnoc(vs: seq<Value>, v: Value)
    ensures SendAll(vs + [v]) == SendAll(vs) + Sent(v)
  {
    if vs == [] {
      assert SendAll([v]) == Sent(v) + [];
    } else {
      SendAllSnoc(vs[1..], v);
      assert (vs + [v])[1..] == vs[1..] + [v];
      Assoc(Sent(vs[0]), SendAll(vs[1..]), Sent(v));
    }
  }

  function CodeOfLast(vs: seq<Value>): Option<int> {
    if vs == [] then None else MeshErrorCode(vs[|vs| - 1])
  }

  // ---- Safety in every reachable state ------------------------------------------------------

  /** `out` is `whole` less its last part: every frame of `vs` but the last, and some of that one. */
  predicate CutShort(out: Bytes, vs: seq<Value>) {
    vs != [] && SendAll(vs[..|vs| - 1]) <= out <= SendAll(vs)
  }

  /** stdout, and what the control stream (whose deliverable frames are `all`) has still to give. */
  predicate DownSafe(s: PumpState, all: seq<Value>, cap: nat) {
    && Reachable(s.control, cap)
    && s.endedOn == CodeOfLast(s.fromControl)
    && (s.stdoutFailed ==> s.down.DownEnded?)
    && (match s.down
        case DownReading => s.stdout == SendAll(s.fromControl)
        case DownWriting(left) =>
          s.fromControl != [] && s.stdout + left == SendAll(s.fromControl) && CutShort(s.stdout, s.fromControl)
        case DownEnded =>
          if s.stdoutFailed then CutShort(s.stdout, s.fromControl) else s.stdout == SendAll(s.fromControl))
    && (if s.down.DownEnded? && !s.stdoutFailed then s.fromControl == all
        else all == s.fromControl + Delivered(Owed(s.control, cap)))
  }

  /** The same for the control connection, its half-close included. */
  predicate UpSafe(s: PumpState, all: seq<Value>, cap: nat) {
    && Reachable(s.stdin, cap)
    && s.fromStdin <= all
    && s.shutdowns == (if s.up.UpParked? then 1 else 0)
    && (s.up.UpReading? || s.up.UpWriting? ==> all == s.fromStdin + Delivered(Owed(s.stdin, cap)))
    && (s.controlFailed ==> s.up.UpClosing? || s.up.UpParked?)
    && (match s.up
        case UpReading => s.controlOut == SendAll(s.fromStdin)
        case UpWriting(left) =>
          s.fromStdin != [] && s.controlOut + left == SendAll(s.fromStdin) && CutShort(s.controlOut, s.fromStdin)
        case _ =>
          if s.controlFailed then CutShort(s.controlOut, s.fromStdin)
          else s.controlOut == SendAll(s.fromStdin) && s.fromStdin == all)
  }

  lemma WritePart(out: Bytes, left: Bytes, k: nat, vs: seq<Value>)
    requires k <= |left| && vs != [] && out + left == SendAll(vs) && CutShort(out, vs)
    ensures (out + left[..k]) + left[k..] == SendAll(vs) && CutShort(out + left[..k], vs)
  {
    assert left == left[..k] + left[k..];
    Assoc(out, left[..k], left[k..]);
  }

  lemma StartWrite(out: Bytes, vs: seq<Value>, v: Value)
    requires out == SendAll(vs)
    ensures out + Sent(v) == SendAll(vs + [v]) && CutShort(out, vs + [v])
  {
    SendAllSnoc(vs, v);
    assert (vs + [v])[..|vs|] == vs;
  }

  /** What one poll of a reader does to the frames it has still to deliver. */
  lemma PollDelivers(st: State, cap: nat, budget: nat)
    requires Reachable(st, cap)
    ensures var (s, p) := PollNext(st, cap, budget);
      && Reachable(s, cap) && s.ending == st.ending
      && Delivered(Owed(st, cap)) ==
         (match p
          case Pending => Delivered(Owed(s, cap))
          case Ready(Some(Frame(v))) => [v] + Delivered(Owed(s, cap))
          case _ => [])
      && (st.ending == Open && !p.Pending? ==> Owed(st, cap) != [])
  {
    PollKeepsOwed(st, cap, budget);
    var (s, p) := PollNext(st, cap, budget);
    if p.Ready? && p.item.Some? { DeliveredCons(p.item.value, Owed(s, cap)); }
  }

  lemma StepDownSafe(s: PumpState, io: Io, all: seq<Value>, cap: nat)
    requires DownSafe(s, all, cap)
    ensures DownSafe(StepDown(s, io, cap), all, cap)
  {
    match s.down
    case DownReading =>
      PollDelivers(s.control, cap, Budget(io));
      var (control, p) := PollNext(s.control, cap, Budget(io));
      if p.Ready? && p.item.Some? && p.item.value.Frame? {
        var v := p.item.value.value;
        StartWrite(s.stdout, s.fromControl, v);
        Assoc(s.fromControl, [v], Delivered(Owed(control, cap)));
      } else if !p.Pending? {
        assert s.fromControl + [] == s.fromControl;
      }
    case DownWriting(left) =>
      var k := Out(io, left);
      WritePart(s.stdout, left, k, s.fromControl);
      assert k == |left| ==> left[k..] == [] && s.stdout + left[..k] + [] == s.stdout + left[..k];
    case DownEnded =>
  }

  lemma ReadUpSafe(s: PumpState, io: Io, all: seq<Value>, cap: nat)
    requires UpSafe(s, all, cap) && s.up.UpReading?
    ensures UpSafe(StepUp(s, io, cap), all, cap)
  {
    PollDelivers(s.stdin, cap, Budget(io));
    var (stdin, p) := PollNext(s.stdin, cap, Budget(io));
    if p.Ready? && p.item.Some? && p.item.value.Frame? {
      var v := p.item.value.value;
      StartWrite(s.controlOut, s.fromStdin, v);
      Assoc(s.fromStdin, [v], Delivered(Owed(stdin, cap)));
    } else if !p.Pending? {
      assert s.fromStdin + [] == s.fromStdin;
    }
  }

  lemma WriteUpSafe(s: PumpState, io: Io, all: seq<Value>, cap: nat)
    requires UpSafe(s, all, cap) && s.up.UpWriting?
    ensures UpSafe(StepUp(s, io, cap), all, cap)
  {
    var left := s.up.left;
    var k := Out(io, left);
    WritePart(s.controlOut, left, k, s.fromStdin);
    assert k == |left| ==> left[k..] == [] && s.controlOut + left[..k] + [] == s.controlOut + left[..k];
  }

  lemma StepUpSafe(s: PumpState, io: Io, all: seq<Value>, cap: nat)
    requires UpSafe(s, all, cap)
    ensures UpSafe(StepUp(s, io, cap), all, cap)
  {
    match s.up
    case UpReading => ReadUpSafe(s, io, all, cap);
    case UpWriting(_) => WriteUpSafe(s, io, all, cap);
    case _ =>
  }

  /** A turn of one loop leaves everything of the other as it was: in particular nothing that
      happens on stdin or on the control writer ends the pump or touches stdout. */
  lemma UpApart(s: PumpState, io: Io, cap: nat)
    ensures var u := StepUp(s, io, cap);
      && u.control == s.control && u.down == s.down && u.stdout == s.stdout && u.endedOn == s.endedOn
      && u.fromControl == s.fromControl && u.stdoutFailed == s.stdoutFailed
  {
  }

  lemma DownApart(s: PumpState, io: Io, cap: nat)
    ensures var d := StepDown(s, io, cap);
      && d.stdin == s.stdin && d.up == s.up && d.controlOut == s.controlOut && d.shutdowns == s.shutdowns
      && d.fromStdin == s.fromStdin && d.controlFailed == s.controlFailed
  {
  }

  lemma {:induction false} RunSafe(s: PumpState, turns: seq<Turn>, stdinAll: seq<Value>, controlAll: seq<Value>, cap: nat)
    requires UpSafe(s, stdinAll, cap) && DownSafe(s, controlAll, cap)
    ensures var r := Run(s, turns, cap); UpSafe(r, stdinAll, cap) && DownSafe(r, controlAll, cap)
    decreases |turns|
  {
    if turns != [] {
      var io := turns[0].io;
      if turns[0].ToControl? {
        UpApart(s, io, cap);
        StepUpSafe(s, io, stdinAll, cap);
      } else {
        DownApart(s, io, cap);
        StepDownSafe(s, io, controlAll, cap);
      }
      RunSafe(Step(s, turns[0], cap), turns[1..], stdinAll, controlAll, cap);
    }
  }

  lemma BeginSafe(stdin: State, control: State, cap: nat)
    requires Reachable(stdin, cap) && Reachable(control, cap)
    ensures UpSafe(Begin(stdin, control), Delivered(Owed(stdin, cap)), cap)
    ensures DownSafe(Begin(stdin, control), Delivered(Owed(control, cap)), cap)
  {
    assert [] + Delivered(Owed(stdin, cap)) == Delivered(Owed(stdin, cap));
    assert [] + Delivered(Owed(control, cap)) == Delivered(Owed(control, cap));
  }

  /** Pump safety, for every interleaving, every chunking and every fault: the frames read are a
      prefix of what each stream delivers; each output is the encoding of the frames read, short of
      at most part of the last; the control writer is shut down once the stdin loop has parked, once and
      not before. */
  lemma PumpSafety(stdin: State, control: State, turns: seq<Turn>, cap: nat)
    requires Reachable(stdin, cap) && Reachable(control, cap)
    ensures var r := Run(Begin(stdin, control), turns, cap);
      && r.fromStdin <= Delivered(Owed(stdin, cap))
      && r.fromControl <= Delivered(Owed(control, cap))
      && (r.controlOut == SendAll(r.fromStdin) || CutShort(r.controlOut, r.fromStdin))
      && (r.stdout == SendAll(r.fromControl) || CutShort(r.stdout, r.fromControl))
      && r.shutdowns == (if r.up.UpParked? then 1 else 0)
  {
    BeginSafe(stdin, control, cap);
    RunSafe(Begin(stdin, control), turns, Delivered(Owed(stdin, cap)), Delivered(Owed(control, cap)), cap);
  }

  /** The stdin direction drains too: once it is parked, and unless a write to the control connection
      failed, that connection has been sent exactly the frames stdin delivered before its first
      violation, error or end. */
  lemma StdinRelayed(stdin: State, control: State, turns: seq<Turn>, cap: nat)
    requires Reachable(stdin, cap) && Reachable(control, cap)
    requires var r := Run(Begin(stdin, control), turns, cap); r.up.UpParked? && !r.controlFailed
    ensures Run(Begin(stdin, control), turns, cap).controlOut == SendAll(Delivered(Owed(stdin, cap)))
  {
    BeginSafe(stdin, control, cap);
    RunSafe(Begin(stdin, control), turns, Delivered(Owed(stdin, cap)), Delivered(Owed(control, cap)), cap);
  }

  /** After the half-close nothing is written to the control connection, and it is not shut down
      again. */
  lemma {:induction false} NothingAfterShutdown(stdin: State, control: State, before: seq<Turn>, after: seq<Turn>, cap: nat)
    requires Reachable(stdin, cap) && Reachable(control, cap)
    requires Run(Begin(stdin, control), before, cap).shutdowns > 0
    ensures var r := Run(Begin(stdin, control), before, cap);
      var last := Run(r, after, cap);
      last.controlOut == r.controlOut && last.shutdowns == 1 && last.stdin == r.stdin
  {
    BeginSafe(stdin, control, cap);
    RunSafe(Begin(stdin, control), before, Delivered(Owed(stdin, cap)), Delivered(Owed(control, cap)), cap);
    ParkedForever(Run(Begin(stdin, control), before, cap), after, cap);
  }

  lemma {:induction false} ParkedForever(s: PumpState, turns: seq<Turn>, cap: nat)
    requires s.up.UpParked?
    ensures var r := Run(s, turns, cap);
      r.up.UpParked? && r.controlOut == s.controlOut && r.shutdowns == s.shutdowns && r.stdin == s.stdin
    decreases |turns|
  {
    if turns != [] {
      DownApart(s, turns[0].io, cap);
      ParkedForever(Step(s, turns[0], cap), turns[1..], cap);
    }
  }

  // ---- Confluence and draining --------------------------------------------------------------

  /** Confluence and draining. However the two loops interleave, whatever stdin does and whenever the
      control writer fails, a pump that has ended without a stdout failure has handed stdout exactly
      the frames control delivered before its first violation, error or end, and returns the code of
      the last of them: a function of the control stream alone. It ends only because that stream did
      (or was violated): one still open and clean never ends it. */
  lemma PumpConfluence(stdin: State, control: State, turns: seq<Turn>, cap: nat)
    requires Reachable(stdin, cap) && Reachable(control, cap)
    requires var r := Run(Begin(stdin, control), turns, cap); r.down.DownEnded? && !r.stdoutFailed
    ensures var r := Run(Begin(stdin, control), turns, cap);
      var all := Delivered(Owed(control, cap));
      && r.stdout == SendAll(all)
      && r.endedOn == CodeOfLast(all)
      && (control.ending == Open ==> |all| < |Owed(control, cap)|)
  {
    BeginSafe(stdin, control, cap);
    RunSafe(Begin(stdin, control), turns, Delivered(Owed(stdin, cap)), Delivered(Owed(control, cap)), cap);
    if control.ending == Open { OpenEndsByViolation(Begin(stdin, control), turns, cap); }
  }

  /** The frames' last is a refusal with this code. */
  predicate EndsOn(frames: seq<Value>, code: int) {
    frames != [] && Refuses(frames[|frames| - 1], code)
  }

  lemma CodeOfLastIff(frames: seq<Value>, code: int)
    ensures CodeOfLast(frames) == Some(code) <==> EndsOn(frames, code)
  {
    if frames != [] { MeshErrorIff(frames[|frames| - 1], code); }
  }

  /** What the code returned by a pump whose stdout held means: with a code, the last frame control
      delivered was a refusal with that code; and `None` whenever that frame was anything else,
      whatever refusals came before it. */
  lemma PumpCodeIff(stdin: State, control: State, turns: seq<Turn>, cap: nat, code: int)
    requires Reachable(stdin, cap) && Reachable(control, cap)
    requires var r := Run(Begin(stdin, control), turns, cap); r.down.DownEnded? && !r.stdoutFailed
    ensures Run(Begin(stdin, control), turns, cap).endedOn == Some(code) <==> EndsOn(Delivered(Owed(control, cap)), code)
  {
    PumpConfluence(stdin, control, turns, cap);
    CodeOfLastIff(Delivered(Owed(control, cap)), code);
  }

  /** In particular a session that ends on a frame without an error returns no code. */
  lemma OrdinaryEnd(stdin: State, control: State, turns: seq<Turn>, cap: nat)
    requires Reachable(stdin, cap) && Reachable(control, cap)
    requires var r := Run(Begin(stdin, control), turns, cap); r.down.DownEnded? && !r.stdoutFailed
    requires var all := Delivered(Owed(control, cap)); all == [] || Lacks(all[|all| - 1], "error")
    ensures Run(Begin(stdin, control), turns, cap).endedOn.None?
  {
    var ended := Run(Begin(stdin, control), turns, cap).endedOn;
    if ended.Some? { PumpCodeIff(stdin, control, turns, cap, ended.value); }
  }

  lemma {:induction false} OpenEndsByViolation(s: PumpState, turns: seq<Turn>, cap: nat)
    requires Reachable(s.control, cap) && s.control.ending == Open && !s.down.DownEnded?
    requires var r := Run(s, turns, cap); r.down.DownEnded? && !r.stdoutFailed
    ensures |Delivered(Owed(s.control, cap))| < |Owed(s.control, cap)|
    decreases |turns|
  {
    UpApart(s, turns[0].io, cap);
    var t := Step(s, turns[0], cap);
    if turns[0].ToStdout? && s.down.DownReading? {
      PollKeepsOwed(s.control, cap, Budget(turns[0].io));
      PollDelivers(s.control, cap, Budget(turns[0].io));
    }
    if t.down.DownEnded? {
      EndedStays(t, turns[1..], cap);
    } else {
      OpenEndsByViolation(t, turns[1..], cap);
    }
  }

  lemma {:induction false} EndedStays(s: PumpState, turns: seq<Turn>, cap: nat)
    requires s.down.DownEnded?
    ensures Run(s, turns, cap) == s
    decreases |turns|
  {
    if turns != [] { EndedStays(s, turns[1..], cap); }
  }

  /** A stdout failure only cuts the same output short: part of the last frame read is missing, no
      frame is reordered or skipped, and the code is that frame's. */
  lemma StdoutFailureCutsShort(stdin: State, control: State, turns: seq<Turn>, cap: nat)
    requires Reachable(stdin, cap) && Reachable(control, cap)
    requires Run(Begin(stdin, control), turns, cap).stdoutFailed
    ensures var r := Run(Begin(stdin, control), turns, cap);
      && r.down.DownEnded?
      && r.fromControl <= Delivered(Owed(control, cap)) && r.fromControl != []
      && CutShort(r.stdout, r.fromControl)
      && r.endedOn == MeshErrorCode(r.fromControl[|r.fromControl| - 1])
  {
    BeginSafe(stdin, control, cap);
    RunSafe(Begin(stdin, control), turns, Delivered(Owed(stdin, cap)), Delivered(Owed(control, cap)), cap);
  }

  // ---- What the returned code is the code of ------------------------------------------------

  /** The frames of which every byte, terminator included, is on stdout. */
  function Relayed(s: PumpState): seq<Value> {
    var n := |SplitLines(s.stdout).lines|;
    if n <= |s.fromControl| then s.fromControl[..n] else s.fromControl
  }

  function AllButLast(vs: seq<Value>): seq<Value> { if vs == [] then [] else vs[..|vs| - 1] }

  lemma {:induction false} SentLines(vs: seq<Value>, tail: Bytes)
    requires AllWellFormed(vs) && OneLine(tail)
    ensures |SplitLines(SendAll(vs) + tail).lines| == |vs|
  {
    if vs == [] {
      assert [] + tail == tail;
      LineEndOf(tail, []);
    } else {
      SentLines(vs[1..], tail);
      ToVecOneLine(vs[0]);
      Assoc(Sent(vs[0]), SendAll(vs[1..]), tail);
      SplitOfLine(ToVec(vs[0]), SendAll(vs[1..]) + tail);
    }
  }

  /** Bytes that stop within a line: the part of the line they hold. */
  lemma CutWithin(out: Bytes, before: Bytes, line: Bytes) returns (tail: Bytes)
    requires before <= out <= before + Line(line) && out != before + Line(line)
    ensures out == before + tail && tail <= line
  {
    tail := out[|before|..];
    assert out == before + tail;
    assert tail == (before + Line(line))[|before|..][..|tail|];
    assert (before + Line(line))[|before|..] == Line(line);
  }

  lemma CutLines(out: Bytes, vs: seq<Value>)
    requires AllWellFormed(vs) && CutShort(out, vs) && out != SendAll(vs)
    ensures |SplitLines(out).lines| == |vs| - 1
  {
    var before, v := vs[..|vs| - 1], vs[|vs| - 1];
    assert vs == before + [v];
    SendAllSnoc(before, v);
    WellFormedFront(vs, |vs| - 1);
    WellFormedLast(vs);
    ToVecOneLine(v);
    var tail := CutWithin(out, SendAll(before), ToVec(v));
    SentLines(before, tail);
  }

  lemma {:induction false} WellFormedLast(vs: seq<Value>)
    requires AllWellFormed(vs) && vs != []
    ensures WellFormed(vs[|vs| - 1])
  {
    if |vs| > 1 { WellFormedLast(vs[1..]); }
  }

  lemma {:induction false} WellFormedFront(vs: seq<Value>, n: nat)
    requires AllWellFormed(vs) && n <= |vs|
    ensures AllWellFormed(vs[..n])
  {
    if n > 0 {
      assert vs[..n][1..] == vs[1..][..n - 1];
      WellFormedFront(vs[1..], n - 1);
    }
  }

  /** Every frame a reader delivers is a value that can be written again. */
  lemma {:induction false} DeliveredWellFormed(lines: seq<Bytes>, cap: nat, rest: seq<Inbound>)
    requires rest == [] || rest == [Rejected(TooLarge)]
    ensures AllWellFormed(Delivered(ClassifyAll(lines, cap) + rest))
  {
    if lines == [] {
      assert [] + rest == rest;
    } else {
      DeliveredWellFormed(lines[1..], cap, rest);
      var x := Classify(lines[0], cap);
      assert ClassifyAll(lines, cap) + rest == [x] + (ClassifyAll(lines[1..], cap) + rest);
      DeliveredCons(x, ClassifyAll(lines[1..], cap) + rest);
      if x.Frame? { FromSliceSound(lines[0]); }
    }
  }

  lemma OwedWellFormed(st: State, cap: nat)
    ensures AllWellFormed(Delivered(Owed(st, cap)))
  {
    var p := SplitLines(Carry(st, cap) + st.input);
    DeliveredWellFormed(p.lines, cap, TailOutcome(p.tail, cap, st.ending));
  }

  /** The returned code is meant to be that of the last frame relayed. It is that of the last frame
      read, which is the same exactly when no frame has been cut on stdout, or the cut one does not
      change the code. */
  lemma CodeOfRelayedIff(stdin: State, control: State, turns: seq<Turn>, cap: nat)
    requires Reachable(stdin, cap) && Reachable(control, cap)
    ensures var r := Run(Begin(stdin, control), turns, cap);
      r.endedOn == CodeOfLast(Relayed(r)) <==>
        r.stdout == SendAll(r.fromControl) || CodeOfLast(r.fromControl) == CodeOfLast(AllButLast(r.fromControl))
  {
    var all := Delivered(Owed(control, cap));
    BeginSafe(stdin, control, cap);
    RunSafe(Begin(stdin, control), turns, Delivered(Owed(stdin, cap)), all, cap);
    OwedWellFormed(control, cap);
    CodeIff(Run(Begin(stdin, control), turns, cap), all, cap);
  }

  lemma CodeIff(r: PumpState, all: seq<Value>, cap: nat)
    requires DownSafe(r, all, cap) && AllWellFormed(all)
    ensures r.endedOn == CodeOfLast(Relayed(r)) <==>
      r.stdout == SendAll(r.fromControl) || CodeOfLast(r.fromControl) == CodeOfLast(AllButLast(r.fromControl))
  {
    assert r.fromControl == all[..|r.fromControl|];
    WellFormedFront(all, |r.fromControl|);
    RelayedFrames(r);
  }

  lemma RelayedFrames(r: PumpState)
    requires AllWellFormed(r.fromControl)
    requires r.stdout == SendAll(r.fromControl) || CutShort(r.stdout, r.fromControl)
    ensures Relayed(r) == if r.stdout == SendAll(r.fromControl) then r.fromControl else AllButLast(r.fromControl)
  {
    if r.stdout == SendAll(r.fromControl) {
      SentLines(r.fromControl, []);
      assert SendAll(r.fromControl) + [] == SendAll(r.fromControl);
    } else {
      CutLines(r.stdout, r.fromControl);
    }
  }

  /** Where they differ: a refusal that was read but could not be written. Not a byte of it is on
      stdout, and its code is returned. */
  lemma RefusalLost(stdin: State, v: Value, cap: nat)
    requires WellFormed(v) && Fits(v, cap) && MeshErrorCode(v).Some?
    ensures var turns := [ToStdout(Avail(|Sent(v)| + 1)), ToStdout(Fault)];
      var r := Run(Begin(stdin, Start(Sent(v), Closed)), turns, cap);
      && r.down.DownEnded? && r.stdout == [] && Relayed(r) == []
      && r.endedOn == MeshErrorCode(v) != CodeOfLast(Relayed(r))
  {
    var begin := Begin(stdin, Start(Sent(v), Closed));
    ReadSent(v, cap);
    var s := Step(begin, ToStdout(Avail(|Sent(v)| + 1)), cap);
    WriteFaults(s, cap);
    TwoTurns(begin, ToStdout(Avail(|Sent(v)| + 1)), ToStdout(Fault), cap);
    RelayedNothing(Step(s, ToStdout(Fault), cap));
  }

  lemma WriteFaults(s: PumpState, cap: nat)
    requires s.down.DownWriting? && s.stdout == []
    ensures var r := Step(s, ToStdout(Fault), cap);
      r.down.DownEnded? && r.stdout == [] && r.endedOn == s.endedOn
  {
  }

  lemma TwoTurns(s: PumpState, t: Turn, u: Turn, cap: nat)
    ensures Run(s, [t, u], cap) == Step(Step(s, t, cap), u, cap)
  {
    assert [t, u][1..] == [u] && [u][1..] == [];
    assert Run(Step(s, t, cap), [u], cap) == Run(Step(Step(s, t, cap), u, cap), [], cap);
  }

  lemma RelayedNothing(r: PumpState)
    requires r.stdout == []
    ensures Relayed(r) == []
  {
  }

  /** A frame that has arrived whole is read in one poll. */
  lemma ReadSent(v: Value, cap: nat)
    requires WellFormed(v) && Fits(v, cap)
    ensures PollNext(Start(Sent(v), Closed), cap, |Sent(v)| + 1).1 == Ready(Some(Frame(v)))
  {
    AwaitFirst(Start(Sent(v), Closed), cap);
    StartOwes(Sent(v), cap, Closed);
    SentOutcome(v, [], cap, Closed);
    assert Sent(v) + [] == Sent(v);
    assert Outcomes([], cap, Closed) == [];
  }

  /** Every unreachable-peer refusal is such a frame. */
  lemma RefusalLostExample(stdin: State, message: string, cap: nat)
    requires |ToVec(Synthesized(Null, ERR_UNREACHABLE, message, End))| <= cap
    ensures var v := Synthesized(Null, ERR_UNREACHABLE, message, End);
      var turns := [ToStdout(Avail(|Sent(v)| + 1)), ToStdout(Fault)];
      var r := Run(Begin(stdin, Start(Sent(v), Closed)), turns, cap);
      r.down.DownEnded? && r.stdout == [] && Relayed(r) == [] && r.endedOn == Some(ERR_UNREACHABLE)
  {
    var v := Synthesized(Null, ERR_UNREACHABLE, message, End);
    SynthesizedRecognised(Null, ERR_UNREACHABLE, message, End);
    SynthesizedShape(message);
    RefusalLost(stdin, v, cap);
  }

  lemma SynthesizedShape(message: string)
    ensures var v := Synthesized(Null, ERR_UNREACHABLE, message, End); WellFormed(v) && Depth(v) <= MAX_DEPTH
  {
    assert Normalize(Member("source", Str("mcpmesh"), End)) == Member("source", Str("mcpmesh"), End);
    MemberShape("source", Str("mcpmesh"), End);
    var mark := Obj(Member("source", Str("mcpmesh"), End));
    MemberShape("message", Str(message), End);
    var text := Member("message", Str(message), End);
    assert Less("data", "message") && Less("code", "data") && Less("id", "jsonrpc") && Less("error", "id");
    MemberShape("data", mark, text);
    var data := Member("data", mark, text);
    MemberShape("code", Int(ERR_UNREACHABLE), data);
    var error := Obj(Member("code", Int(ERR_UNREACHABLE), data));
    MemberShape("jsonrpc", Str("2.0"), End);
    var version := Member("jsonrpc", Str("2.0"), End);
    MemberShape("id", Null, version);
    MemberShape("error", error, Member("id", Null, version));
  }

  // ---- Every fair run ends ------------------------------------------------------------------

  /** What an outcome costs at most: a frame is read, written and flushed. */
  function Price(x: Inbound): nat {
    if x.Frame? then |Sent(x.value)| + 2 else 1
  }

  function Cost(outs: seq<Inbound>): nat {
    if outs == [] then 0 else Price(outs[0]) + Cost(outs[1..])
  }

  lemma CostCons(x: Inbound, rest: seq<Inbound>)
    ensures Cost([x] + rest) == Price(x) + Cost(rest)
  {
    assert ([x] + rest)[1..] == rest;
  }

  /** What is left to read, bytes and frames. */
  function ToRead(st: State, cap: nat): nat { |st.input| + Cost(Owed(st, cap)) }

  /** How many more useful turns `to_stdout` can take. */
  function Rank(s: PumpState, cap: nat): nat {
    match s.down
    case DownEnded => 0
    case DownReading => 1 + ToRead(s.control, cap)
    case DownWriting(left) => 2 + |left| + ToRead(s.control, cap)
  }

  predicate Useful(t: Turn) { t.ToStdout? && t.io.Avail? && t.io.n > 0 }

  function UsefulTurns(turns: seq<Turn>): nat {
    if turns == [] then 0 else (if Useful(turns[0]) then 1 else 0) + UsefulTurns(turns[1..])
  }

  /** One poll of a stream that ends: bytes or frames are used up. */
  lemma PollCosts(st: State, cap: nat, n: nat)
    requires Reachable(st, cap) && st.ending != Open
    ensures var (s, p) := PollNext(st, cap, n);
      && Reachable(s, cap) && s.ending == st.ending
      && (p.Pending? ==> ToRead(s, cap) <= ToRead(st, cap) && (n > 0 ==> ToRead(s, cap) < ToRead(st, cap)))
      && (p.Ready? && p.item.Some? ==> ToRead(s, cap) + Price(p.item.value) <= ToRead(st, cap))
  {
    PollKeepsOwed(st, cap, n);
    PollReads(st, cap, n);
    var (s, p) := PollNext(st, cap, n);
    if p.Ready? && p.item.Some? { CostCons(p.item.value, Owed(s, cap)); }
  }

  lemma ReadRankFalls(s: PumpState, io: Io, cap: nat)
    requires s.down.DownReading? && Reachable(s.control, cap) && s.control.ending != Open
    ensures var r := StepDown(s, io, cap);
      && Reachable(r.control, cap) && r.control.ending == s.control.ending
      && Rank(r, cap) <= Rank(s, cap) && (Budget(io) > 0 ==> Rank(r, cap) < Rank(s, cap))
  {
    PollCosts(s.control, cap, Budget(io));
    var r := StepDown(s, io, cap);
    match PollNext(s.control, cap, Budget(io)).1
    case Ready(Some(Frame(v))) => assert r.down == DownWriting(Sent(v)) && Price(Frame(v)) == |Sent(v)| + 2;
    case Pending => assert r.down.DownReading?;
    case _ => assert r.down.DownEnded?;
  }

  lemma WriteRankFalls(s: PumpState, io: Io, cap: nat)
    requires s.down.DownWriting?
    ensures var r := StepDown(s, io, cap);
      && r.control == s.control
      && Rank(r, cap) <= Rank(s, cap) && (io.Avail? && io.n > 0 ==> Rank(r, cap) < Rank(s, cap))
  {
  }

  /** A turn never raises the rank, and a useful one lowers it. */
  lemma RankFalls(s: PumpState, t: Turn, cap: nat)
    requires Reachable(s.control, cap) && s.control.ending != Open
    ensures var r := Step(s, t, cap);
      && Reachable(r.control, cap) && r.control.ending == s.control.ending
      && Rank(r, cap) <= Rank(s, cap)
      && (Useful(t) && !s.down.DownEnded? ==> Rank(r, cap) < Rank(s, cap))
  {
    if t.ToControl? { UpApart(s, t.io, cap); }
    else if s.down.DownReading? { ReadRankFalls(s, t.io, cap); }
    else if s.down.DownWriting? { WriteRankFalls(s, t.io, cap); }
  }

  /** On a control stream that ends, every run that gives `to_stdout` enough useful turns has ended:
      no schedule of the other loop, and no fault, can keep it going. */
  lemma {:induction false} FairRunsEnd(s: PumpState, turns: seq<Turn>, cap: nat)
    requires Reachable(s.control, cap) && s.control.ending != Open
    requires UsefulTurns(turns) >= Rank(s, cap)
    ensures Run(s, turns, cap).down.DownEnded?
    decreases |turns|
  {
    if s.down.DownEnded? {
      EndedStays(s, turns, cap);
    } else if turns != [] {
      RankFalls(s, turns[0], cap);
      FairRunsEnd(Step(s, turns[0], cap), turns[1..], cap);
    }
  }

  // ---- The half-close comes ------------------------------------------------------------------

  /** How many more useful turns `to_control` can take. */
  function UpRank(s: PumpState, cap: nat): nat {
    match s.up
    case UpParked => 0
    case UpClosing => 1
    case UpReading => 2 + ToRead(s.stdin, cap)
    case UpWriting(left) => 3 + |left| + ToRead(s.stdin, cap)
  }

  predicate UsefulUp(t: Turn) { t.ToControl? && t.io.Avail? && t.io.n > 0 }

  function UsefulUpTurns(turns: seq<Turn>): nat {
    if turns == [] then 0 else (if UsefulUp(turns[0]) then 1 else 0) + UsefulUpTurns(turns[1..])
  }

  lemma ReadUpRankFalls(s: PumpState, io: Io, cap: nat)
    requires s.up.UpReading? && Reachable(s.stdin, cap) && s.stdin.ending != Open
    ensures var r := StepUp(s, io, cap);
      && Reachable(r.stdin, cap) && r.stdin.ending == s.stdin.ending
      && UpRank(r, cap) <= UpRank(s, cap) && (Budget(io) > 0 ==> UpRank(r, cap) < UpRank(s, cap))
  {
    PollCosts(s.stdin, cap, Budget(io));
    var r := StepUp(s, io, cap);
    match PollNext(s.stdin, cap, Budget(io)).1
    case Ready(Some(Frame(v))) => assert r.up == UpWriting(Sent(v)) && Price(Frame(v)) == |Sent(v)| + 2;
    case Pending => assert r.up.UpReading?;
    case _ => assert r.up.UpClosing?;
  }

  lemma WriteUpRankFalls(s: PumpState, io: Io, cap: nat)
    requires !s.up.UpReading?
    ensures var r := StepUp(s, io, cap);
      && r.stdin == s.stdin && UpRank(r, cap) <= UpRank(s, cap)
      && (io.Avail? && io.n > 0 && !s.up.UpParked? ==> UpRank(r, cap) < UpRank(s, cap))
  {
  }

  lemma UpRankFalls(s: PumpState, t: Turn, cap: nat)
    requires Reachable(s.stdin, cap) && s.stdin.ending != Open
    ensures var r := Step(s, t, cap);
      && Reachable(r.stdin, cap) && r.stdin.ending == s.stdin.ending
      && UpRank(r, cap) <= UpRank(s, cap)
      && (UsefulUp(t) && !s.up.UpParked? && !s.down.DownEnded? ==> UpRank(r, cap) < UpRank(s, cap))
  {
    if t.ToStdout? { DownApart(s, t.io, cap); }
    else if s.up.UpReading? { ReadUpRankFalls(s, t.io, cap); }
    else { WriteUpRankFalls(s, t.io, cap); }
  }

  /** On a stdin that ends (or is violated, or whose frames can no longer be written), every run that
      gives `to_control` enough useful turns has half-closed the control connection, unless the pump
      has ended first. */
  lemma {:induction false} HalfCloses(s: PumpState, turns: seq<Turn>, cap: nat)
    requires Reachable(s.stdin, cap) && s.stdin.ending != Open
    requires UsefulUpTurns(turns) >= UpRank(s, cap)
    ensures var r := Run(s, turns, cap); r.down.DownEnded? || r.up.UpParked?
    decreases |turns|
  {
    if s.down.DownEnded? {
      EndedStays(s, turns, cap);
    } else if s.up.UpParked? {
      ParkedForever(s, turns, cap);
    } else if turns != [] {
      UpRankFalls(s, turns[0], cap);
      HalfCloses(Step(s, turns[0], cap), turns[1..], cap);
    }
  }

  // ---- The pump itself ----------------------------------------------------------------------

  lemma DropAppend(a: Bytes, b: Bytes, n: nat)
    requires n <= |a|
    ensures (a + b)[n..] == a[n..] + b && a[..n] == (a + b)[..n]
  {
  }

  lemma RunFrom(s: PumpState, turns: seq<Turn>, i: nat, cap: nat)
    requires i < |turns|
    ensures Run(s, turns[i..], cap) == Run(Step(s, turns[i], cap), turns[i + 1..], cap)
  {
    assert turns[i..][0] == turns[i] && turns[i..][1..] == turns[i + 1..];
  }

  /** `pump_stdio` with its four byte substrates; each method is the loop body it names. */
  class StdioPump {
    const stdin: FrameReader
    const control: FrameReader
    const controlWriter: Sink
    const stdout: Sink
    var up: Up
    var down: Down
    var endedOn: Option<int>
    ghost var fromStdin: seq<Value>
    ghost var fromControl: seq<Value>
    ghost var controlFailed: bool
    ghost var stdoutFailed: bool
    // what the two sinks had seen before
    ghost const sent: Bytes
    ghost const closed: nat
    ghost const printed: Bytes

    ghost predicate Valid()
      reads this, stdin, control, controlWriter, stdout
    {
      && stdin.Valid() && control.Valid() && stdin != control && controlWriter != stdout
      && stdin.maxFrame == control.maxFrame
      && sent <= controlWriter.written && closed <= controlWriter.shutdowns && printed <= stdout.written
    }

    ghost function View(): PumpState
      requires Valid()
      reads this, stdin, control, controlWriter, stdout
    {
      PumpState(stdin.View(), up, controlWriter.written[|sent|..], controlWriter.shutdowns - closed,
                fromStdin, controlFailed,
                control.View(), down, stdout.written[|printed|..], endedOn, fromControl, stdoutFailed)
    }

    constructor (stdinBytes: Source, control: FrameReader, controlWriter: Sink, stdout: Sink)
      requires ValidSource(stdinBytes) && control.Valid() && control.maxFrame > 0
      requires controlWriter != stdout
      ensures Valid() && fresh(this) && fresh(stdin)
      ensures this.control == control && this.controlWriter == controlWriter && this.stdout == stdout
      ensures sent == controlWriter.written && closed == controlWriter.shutdowns && printed == stdout.written
      ensures View() == Begin(Start(Unread(stdinBytes), EndingOf(stdinBytes)), control.View())
    {
      var stdinReader := new FrameReader(Buffered([], BUF_CAPACITY, stdinBytes), control.maxFrame);
      this.stdin := stdinReader;
      this.control := control;
      this.controlWriter := controlWriter;
      this.stdout := stdout;
      up, down, endedOn := UpReading, DownReading, None;
      fromStdin, fromControl, controlFailed, stdoutFailed := [], [], false, false;
      sent, closed, printed := controlWriter.written, controlWriter.shutdowns, stdout.written;
      new;
      assert [] + Unread(stdinBytes) == Unread(stdinBytes);
    }

    method WriteToControl(io: Io, left: Bytes)
      requires Valid() && up == UpWriting(left)
      modifies this, controlWriter
      ensures Valid() && View() == StepUp(old(View()), io, stdin.maxFrame)
    {
      var k := Out(io, left);
      DropAppend(controlWriter.written, left[..k], |sent|);
      controlWriter.written := controlWriter.written + left[..k];
      controlFailed := controlFailed || io.Fault?;
      up := if io.Fault? then UpClosing else if io.n > |left| then UpReading else UpWriting(left[k..]);
    }

    method WriteToStdout(io: Io, left: Bytes)
      requires Valid() && down == DownWriting(left)
      modifies this, stdout
      ensures Valid() && View() == StepDown(old(View()), io, control.maxFrame)
    {
      var k := Out(io, left);
      DropAppend(stdout.written, left[..k], |printed|);
      stdout.written := stdout.written + left[..k];
      if io.Fault? {
        down := DownEnded;
        stdoutFailed := true;
      } else {
        down := if io.n > |left| then DownReading else DownWriting(left[k..]);
      }
    }

    method ToControlTurn(io: Io, cut: Chunking)
      requires Valid()
      modifies this, stdin, controlWriter
      ensures Valid() && View() == StepUp(old(View()), io, stdin.maxFrame)
    {
      match up
      case UpReading =>
        var p := stdin.Next(Budget(io), cut);
        match p {
          case Pending =>
          case Ready(Some(Frame(frame))) =>
            up := UpWriting(Sent(frame));
            fromStdin := fromStdin + [frame];
          case _ => up := UpClosing;
        }
      case UpWriting(left) => WriteToControl(io, left);
      case UpClosing =>
        if io != Avail(0) {
          controlWriter.shutdowns := controlWriter.shutdowns + 1;
          up := UpParked;
        }
      case UpParked =>
    }

    method ToStdoutTurn(io: Io, cut: Chunking)
      requires Valid()
      modifies this, control, stdout
      ensures Valid() && View() == StepDown(old(View()), io, control.maxFrame)
    {
      match down
      case DownReading =>
        var p := control.Next(Budget(io), cut);
        match p {
          case Pending =>
          case Ready(Some(Frame(frame))) =>
            endedOn := MeshErrorCode(frame);
            down := DownWriting(Sent(frame));
            fromControl := fromControl + [frame];
          case _ => down := DownEnded;
        }
      case DownWriting(left) => WriteToStdout(io, left);
      case DownEnded =>
    }

    /** The `select!`: polls whichever loop the scheduler names until `to_stdout` ends or the schedule
        does. `ended` is the return value, once there is one. */
    method PumpStdio(turns: seq<Turn>, cut: Chunking) returns (ended: Option<Option<int>>)
      requires Valid()
      modifies this, stdin, control, controlWriter, stdout
      ensures Valid() && View() == Run(old(View()), turns, control.maxFrame)
      ensures ended == if down.DownEnded? then Some(endedOn) else None
    {
      var i := 0;
      while i < |turns| && !down.DownEnded?
        invariant 0 <= i <= |turns| && Valid()
        decreases |turns| - i
        invariant Run(View(), turns[i..], control.maxFrame) == Run(old(View()), turns, control.maxFrame)
      {
        RunFrom(View(), turns, i, control.maxFrame);
        match turns[i] {
          case ToControl(io) => ToControlTurn(io, cut);
          case ToStdout(io) => ToStdoutTurn(io, cut);
        }
        i := i + 1;
      }
      if down.DownEnded? { EndedStays(View(), turns[i..], control.maxFrame); }
      ended := if down.DownEnded? then Some(endedOn) else None;
    }
  }

  // ---- Hops ---------------------------------------------------------------------------------

  /** What a pump makes of a control stream that closes after `bytes`. */
  function Relay(bytes: Bytes, cap: nat): Bytes {
    SendAll(Delivered(Outcomes(bytes, cap, Closed)))
  }

  lemma PumpRelays(stdin: State, bytes: Bytes, turns: seq<Turn>, cap: nat)
    requires Reachable(stdin, cap)
    requires var r := Run(Begin(stdin, Start(bytes, Closed)), turns, cap); r.down.DownEnded? && !r.stdoutFailed
    ensures Run(Begin(stdin, Start(bytes, Closed)), turns, cap).stdout == Relay(bytes, cap)
  {
    StartOwes(bytes, cap, Closed);
    PumpConfluence(stdin, Start(bytes, Closed), turns, cap);
  }

  function Hops(n: nat, bytes: Bytes, cap: nat): Bytes {
    if n == 0 then bytes else Hops(n - 1, Relay(bytes, cap), cap)
  }

  /** The frames before the first one no receiver takes. */
  function FitPrefix(vs: seq<Value>, cap: nat): seq<Value> {
    if vs == [] || !Fits(vs[0], cap) then [] else [vs[0]] + FitPrefix(vs[1..], cap)
  }

  lemma {:induction false} DeliveredFits(vs: seq<Value>, cap: nat)
    ensures Delivered(ReceivedAll(vs, cap)) == FitPrefix(vs, cap)
    ensures AllFit(FitPrefix(vs, cap), cap)
    ensures FitPrefix(vs, cap) == vs <==> AllFit(vs, cap)
    ensures AllWellFormed(vs) ==> AllWellFormed(FitPrefix(vs, cap))
  {
    if vs != [] {
      DeliveredFits(vs[1..], cap);
      DeliveredCons(Received(vs[0], cap), ReceivedAll(vs[1..], cap));
      assert [vs[0]] + vs[1..] == vs;
      assert ([vs[0]] + FitPrefix(vs[1..], cap))[1..] == FitPrefix(vs[1..], cap);
    }
  }

  lemma RelayExact(vs: seq<Value>, cap: nat)
    requires AllWellFormed(vs)
    ensures Relay(SendAll(vs), cap) == SendAll(FitPrefix(vs, cap))
  {
    WireDelivers(vs, [], cap, Closed);
    assert SendAll(vs) + [] == SendAll(vs);
    assert Outcomes([], cap, Closed) == [];
    assert ReceivedAll(vs, cap) + [] == ReceivedAll(vs, cap);
    DeliveredFits(vs, cap);
  }

  /** Through any number of writer, reader and pump stages a frame list arrives as its longest prefix
      every stage can take: the first stage decides, the others are the identity. */
  lemma {:induction false} HopsExact(n: nat, vs: seq<Value>, cap: nat)
    requires n > 0 && AllWellFormed(vs)
    ensures Hops(n, SendAll(vs), cap) == SendAll(FitPrefix(vs, cap))
    ensures Outcomes(Hops(n, SendAll(vs), cap), cap, Closed) == Frames(FitPrefix(vs, cap))
    ensures AllFit(vs, cap) ==> Hops(n, SendAll(vs), cap) == SendAll(vs)
  {
    var fit := FitPrefix(vs, cap);
    RelayExact(vs, cap);
    DeliveredFits(vs, cap);
    if n > 1 {
      DeliveredFits(fit, cap);
      HopsExact(n - 1, fit, cap);
    }
    WireRoundTrip(fit, cap);
  }
}
