/** The codec's two ends as the objects that do the work: the buffered reader and the frame writer. */
module FrameIo {
  import opened Utf8
  import opened Json
  import opened Codec

  // ---- Byte sources: any nesting of buffered readers ----------------------------------------

  /** A byte source: the raw stream, or a `BufReader` around another source. `pending` is what the
      stream will still deliver; `filled` is what a `BufReader` has read ahead. */
  datatype Source =
    | Raw(pending: Bytes, ending: Ending)
    | Buffered(filled: Bytes, capacity: nat, inner: Source)

  /** Every byte the source still holds, in order. */
  function Unread(s: Source): Bytes {
    match s
    case Raw(pending, _) => pending
    case Buffered(filled, _, inner) => filled + Unread(inner)
  }

  function EndingOf(s: Source): Ending {
    match s
    case Raw(_, ending) => ending
    case Buffered(_, _, inner) => EndingOf(inner)
  }

  /** A `BufReader` has room for at least one byte. */
  predicate ValidSource(s: Source) {
    s.Buffered? ==> s.capacity > 0 && ValidSource(s.inner)
  }

  /** How the raw stream cuts what it delivers: given the bytes it holds and the bytes asked for, how
      many it hands over at once. */
  type Chunking = (Bytes, nat) -> nat

  /** The first `want` bytes read ahead (all of them, when there are fewer) and the rest. */
  function Take(filled: Bytes, want: nat, behind: Bytes): (r: (Bytes, Bytes))
    ensures |r.0| <= want && (filled != [] && want > 0 ==> r.0 != [])
    ensures filled + behind == r.0 + (r.1 + behind)
  {
    var k := if want < |filled| then want else |filled|;
    assert filled == filled[..k] + filled[k..];
    Assoc(filled[..k], filled[k..], behind);
    (filled[..k], filled[k..])
  }

  /** One read of at most `want` bytes. A `BufReader` with nothing read ahead fills itself from its
      source first, unless the caller's own buffer is at least as large, which it then bypasses. An
      empty chunk means the source has no byte to give. */
  function Read(s: Source, want: nat, cut: Chunking): (r: (Bytes, Source))
    requires want > 0 && ValidSource(s)
    ensures |r.0| <= want && ValidSource(r.1)
    ensures Unread(s) == r.0 + Unread(r.1) && EndingOf(r.1) == EndingOf(s)
    ensures r.0 == [] <==> Unread(s) == []
  {
    match s
    case Raw(pending, ending) =>
      var most := if want < |pending| then want else |pending|;
      var n := cut(pending, want);
      var k := if n == 0 && most > 0 then 1 else if n < most then n else most;
      (pending[..k], Raw(pending[k..], ending))
    case Buffered(filled, capacity, inner) =>
      if filled == [] && want >= capacity then
        var (chunk, rest) := Read(inner, want, cut);
        (chunk, Buffered([], capacity, rest))
      else if filled == [] then
        var (chunk, rest) := Read(inner, capacity, cut);
        var (got, ahead) := Take(chunk, want, Unread(rest));
        (got, Buffered(ahead, capacity, rest))
      else
        var (got, ahead) := Take(filled, want, Unread(inner));
        (got, Buffered(ahead, capacity, inner))
  }

  function ReadByte(s: Source, cut: Chunking): (r: (Bytes, Source))
    requires ValidSource(s)
    ensures ValidSource(r.1) && EndingOf(r.1) == EndingOf(s)
    ensures if Unread(s) == [] then r.0 == [] && Unread(r.1) == []
            else r.0 == [Unread(s)[0]] && Unread(r.1) == Unread(s)[1..]
  {
    var r := Read(s, 1, cut);
    assert (r.0 + Unread(r.1))[|r.0|..] == Unread(r.1);
    r
  }

  /** tokio's default `BufReader` capacity. */
  const BUF_CAPACITY: nat := 8192

  // ---- FrameReader --------------------------------------------------------------------------

  class FrameReader {
    var reader: Source
    const maxFrame: nat
    var buf: Bytes
    var discarding: bool

    ghost predicate Valid()
      reads this
    {
      ValidSource(reader) && Reachable(View(), maxFrame)
    }

    /** The reader as the state machine sees it. */
    ghost function View(): State
      reads this
    {
      State(buf, discarding, Unread(reader), EndingOf(reader))
    }

    constructor (source: Source, cap: nat)
      requires cap > 0 && ValidSource(source)
      ensures Valid() && fresh(this) && maxFrame == cap
      ensures View() == Start(Unread(source), EndingOf(source))
    {
      reader := Buffered([], BUF_CAPACITY, source);
      maxFrame := cap;
      buf := [];
      discarding := false;
      new;
      assert [] + Unread(source) == Unread(source);
    }

    /** The buffered read half, read-ahead included. */
    function IntoInner(): (r: Source)
      requires Valid()
      reads this
      ensures ValidSource(r) && Unread(r) == View().input && EndingOf(r) == View().ending
    {
      reader
    }

    /** What `next` does with one byte: `Pending` means it goes on to read another. */
    method Accept(b: byte) returns (p: Poll)
      modifies this`buf, this`discarding
      ensures (State(buf, discarding, [], Open), p)
           == Feed(State(old(buf), old(discarding), [b], Open), maxFrame)
      ensures b == NEWLINE && !old(discarding) && |old(buf)| <= maxFrame ==>
        p.Ready? && p.item.Some? && Judges(old(buf), maxFrame, p.item.value)
    {
      assert [b][1..] == [];
      if b == NEWLINE {
        if discarding {
          discarding := false;
          return Ready(Some(Rejected(TooLarge)));
        }
        var line := buf;
        buf := [];
        JudgesIff(line, maxFrame, Deserialized(line));
        return Ready(Some(Deserialized(line)));
      }
      if !discarding {
        if |buf| >= maxFrame {
          discarding := true;
          buf := [];
        } else {
          buf := buf + [b];
        }
      }
      return Pending;
    }

    /** What `next` does when a read finds nothing. */
    method AtNothing() returns (p: Poll)
      requires Unread(reader) == []
      modifies this`discarding
      ensures (View(), p) == AtEnd(old(View()))
    {
      match EndingOf(reader)
      case Open => return Pending;
      case Broken => return Failed;
      case Closed =>
        if discarding {
          discarding := false;
          return Ready(Some(Rejected(TooLarge)));
        }
        return Ready(None);
    }

    /** One poll of `next` that finds at most `budget` bytes ready. However the bytes are cut into
        chunks and however the source is buffered, the result is the state machine's; so a line that
        arrives whole is judged by its bytes, and the reader is left right behind it. */
    method Next(budget: nat, cut: Chunking) returns (p: Poll)
      requires Valid()
      modifies this
      ensures Valid()
      ensures (View(), p) == PollNext(old(View()), maxFrame, budget)
      ensures forall line: Bytes, rest: Bytes ::
        !old(discarding) && OneLine(line) && old(buf) + old(Unread(reader)) == Line(line) + rest
        && |old(buf)| + budget > |line| ==>
          p.Ready? && p.item.Some? && Judges(line, maxFrame, p.item.value) && Unread(reader) == rest && Fresh(View())
    {
      forall line: Bytes, rest: Bytes | !discarding && OneLine(line) && buf + Unread(reader) == Line(line) + rest
        && |buf| + budget > |line|
        ensures var (s, q) := PollNext(View(), maxFrame, budget);
          q.Ready? && q.item.Some? && Judges(line, maxFrame, q.item.value) && s.input == rest && Fresh(s)
      {
        NextLine(View(), maxFrame, budget, buf, line, rest);
      }
      PollReachable(View(), maxFrame, budget);
      var left: nat := budget;
      while left > 0
        invariant ValidSource(reader) && left <= budget
        invariant PollNext(View(), maxFrame, left) == PollNext(old(View()), maxFrame, budget)
      {
        ghost var st := View();
        var (got, rest) := ReadByte(reader, cut);
        reader := rest;
        if got == [] {
          p := AtNothing();
          return;
        }
        p := Accept(got[0]);
        FeedOneByte(st, maxFrame);
        assert (View(), p) == Feed(st, maxFrame);
        if !p.Pending? { return; }
        left := left - 1;
      }
      assert PollNext(View(), maxFrame, 0) == (View(), Pending);
      return Pending;
    }
  }

  lemma PollReachable(st: State, cap: nat, budget: nat)
    requires Reachable(st, cap)
    ensures Reachable(PollNext(st, cap, budget).0, cap)
  {
    PollKeepsOwed(st, cap, budget);
  }

  /** A byte is handled the same whatever follows it. */
  lemma FeedOneByte(st: State, cap: nat)
    requires st.input != []
    ensures var (s, p) := Feed(State(st.buf, st.discarding, [st.input[0]], Open), cap);
      && s.input == [] && s.ending == Open
      && Feed(st, cap) == (State(s.buf, s.discarding, st.input[1..], st.ending), p)
  {
  }

  // ---- The writer ---------------------------------------------------------------------------

  /** The receiving side of a write half: every byte it has accepted, and whether it is shut down. */
  class Sink {
    var written: Bytes
    var shutdowns: nat

    constructor ()
      ensures written == [] && shutdowns == 0 && fresh(this)
    {
      written, shutdowns := [], 0;
    }

    /** `write_all`: the sink takes the first `accept` bytes and then fails, unless that is all. */
    method WriteAll(bytes: Bytes, accept: nat) returns (ok: bool)
      modifies this`written
      ensures ok == (accept >= |bytes|)
      ensures written == old(written) + if ok then bytes else bytes[..accept]
    {
      ok := accept >= |bytes|;
      written := written + if ok then bytes else bytes[..accept];
    }
  }

  /** Serialize, terminate, write, flush. The frame is written whole exactly when the call succeeds
      or only the flush failed. */
  method WriteFrame(w: Sink, frame: Value, accept: nat, flushes: bool) returns (ok: bool)
    requires WellFormed(frame)
    modifies w`written
    ensures ok == (accept >= |Sent(frame)| && flushes)
    ensures w.written == old(w.written) + if accept < |Sent(frame)| then Sent(frame)[..accept] else Sent(frame)
  {
    var line := ToVec(frame);
    line := line + [NEWLINE];
    ok := w.WriteAll(line, accept);
    ok := ok && flushes;
  }
}
