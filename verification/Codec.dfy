/** The NDJSON codec: one compact JSON frame per line, a hard cap per line, a reader that survives
    cancellation and resynchronises after every violation. */
module Codec {
  import opened Utf8
  import opened Json
  import Grammar

  datatype Violation = TooLarge | InvalidJson

  datatype Inbound = Frame(value: Value) | Rejected(why: Violation)

  // ---- The reference: split into lines, classify each ---------------------------------------

  /** How a byte stream stands after the bytes that have arrived. */
  datatype Ending = Open | Closed | Broken

  /** An empty line is `InvalidJson` too. */
  function Deserialized(line: Bytes): Inbound {
    match FromSlice(line)
    case Some(v) => Frame(v)
    case None => Rejected(InvalidJson)
  }

  /** What one line (without its terminator) is to the receiver. */
  function Classify(line: Bytes, cap: nat): Inbound {
    if |line| > cap then Rejected(TooLarge) else Deserialized(line)
  }

  /** The same told by the grammar alone: a line is the frame it denotes, exactly when it is within the
      cap and denotes one; `InvalidJson` exactly when it is within the cap and denotes none; `TooLarge`
      exactly when it is over the cap. */
  ghost predicate Judges(line: Bytes, cap: nat, x: Inbound) {
    match x
    case Frame(v) => |line| <= cap && Grammar.LineDenotes(line, v)
    case Rejected(InvalidJson) => |line| <= cap && !Grammar.IsFrame(line)
    case Rejected(TooLarge) => |line| > cap
  }

  lemma JudgesIff(line: Bytes, cap: nat, x: Inbound)
    ensures Judges(line, cap, x) <==> x == Classify(line, cap)
  {
    if x.Frame? { Grammar.LineDenotesIff(line, x.value); }
    if FromSlice(line).Some? { Grammar.LineDenotesIff(line, FromSlice(line).value); }
    forall v | Grammar.LineDenotes(line, v) ensures FromSlice(line) == Some(v) { Grammar.LineDenotesIff(line, v); }
  }

  /** What an unterminated last line is once the stream closes: reported when it is oversized,
      dropped otherwise. */
  function TailOutcome(tail: Bytes, cap: nat, ending: Ending): seq<Inbound> {
    if ending == Closed && |tail| > cap then [Rejected(TooLarge)] else []
  }

  /** The index of the first terminator, or the length when there is none. */
  function LineEnd(s: Bytes): (i: nat)
    ensures i <= |s| && NEWLINE !in s[..i]
    ensures i < |s| ==> s[i] == NEWLINE
  {
    if s == [] || s[0] == NEWLINE then 0
    else
      var i := LineEnd(s[1..]);
      assert s[..i + 1] == [s[0]] + s[1..][..i];
      i + 1
  }

  /** A stream cut into its terminated lines and the unterminated rest. */
  datatype Split = Split(lines: seq<Bytes>, tail: Bytes)

  function SplitLines(s: Bytes): Split
    decreases |s|
  {
    var i := LineEnd(s);
    if i == |s| then Split([], s)
    else
      var more := SplitLines(s[i + 1..]);
      Split([s[..i]] + more.lines, more.tail)
  }

  function ClassifyAll(lines: seq<Bytes>, cap: nat): (r: seq<Inbound>)
    ensures |r| == |lines|
  {
    seq(|lines|, k requires 0 <= k < |lines| => Classify(lines[k], cap))
  }

  /** The outcomes a whole stream owes its receiver. */
  function Outcomes(s: Bytes, cap: nat, ending: Ending): seq<Inbound> {
    var p := SplitLines(s);
    ClassifyAll(p.lines, cap) + TailOutcome(p.tail, cap, ending)
  }

  function Line(body: Bytes): Bytes { body + [NEWLINE] }

  function Join(lines: seq<Bytes>): Bytes {
    if lines == [] then [] else Line(lines[0]) + Join(lines[1..])
  }

  predicate OneLine(s: Bytes) { NEWLINE !in s }

  predicate AllOneLine(lines: seq<Bytes>) {
    lines != [] ==> OneLine(lines[0]) && AllOneLine(lines[1..])
  }

  lemma {:induction false} LineEndOf(line: Bytes, rest: Bytes)
    requires OneLine(line)
    ensures LineEnd(line) == |line| && LineEnd(Line(line) + rest) == |line|
  {
    var t := Line(line) + rest;
    if line != [] {
      LineEndOf(line[1..], rest);
      assert t[1..] == Line(line[1..]) + rest;
      assert t[0] == line[0];
    }
  }

  /** A stream has one first line. */
  lemma FirstLineUnique(a: Bytes, x: Bytes, b: Bytes, y: Bytes)
    requires OneLine(a) && OneLine(b) && Line(a) + x == Line(b) + y
    ensures a == b && x == y
  {
    LineEndOf(a, x);
    LineEndOf(b, y);
    assert (Line(a) + x)[..|a|] == a && (Line(b) + y)[..|b|] == b;
    FrontBack(Line(a), x);
    FrontBack(Line(b), y);
  }

  lemma SplitOfLine(line: Bytes, rest: Bytes)
    requires OneLine(line)
    ensures var p := SplitLines(rest);
      SplitLines(Line(line) + rest) == Split([line] + p.lines, p.tail)
  {
    var t := Line(line) + rest;
    LineEndOf(line, rest);
    assert t[..|line|] == line && t[|line| + 1..] == rest;
  }

  lemma JoinCons(line: Bytes, lines: seq<Bytes>)
    ensures Join([line] + lines) == Line(line) + Join(lines)
    ensures AllOneLine([line] + lines) == (OneLine(line) && AllOneLine(lines))
  {
    assert ([line] + lines)[1..] == lines;
  }

  lemma FrontLine(s: Bytes) returns (line: Bytes, rest: Bytes)
    requires LineEnd(s) < |s|
    ensures OneLine(line) && s == Line(line) + rest && |rest| < |s|
    ensures SplitLines(s) == Split([line] + SplitLines(rest).lines, SplitLines(rest).tail)
  {
    line, rest := s[..LineEnd(s)], s[LineEnd(s) + 1..];
  }

  /** Every stream is some newline-free lines, each terminated, and a newline-free tail ... */
  lemma {:induction false} SplitIsPartition(s: Bytes)
    ensures var p := SplitLines(s);
      && AllOneLine(p.lines) && OneLine(p.tail) && s == Join(p.lines) + p.tail
    decreases |s|
  {
    if LineEnd(s) == |s| {
      assert s[..|s|] == s;
      assert Join([]) + s == s;
    } else {
      var line, rest := FrontLine(s);
      SplitIsPartition(rest);
      JoinCons(line, SplitLines(rest).lines);
      Assoc(Line(line), Join(SplitLines(rest).lines), SplitLines(rest).tail);
    }
  }

  /** ... in exactly one way. */
  lemma {:induction false} PartitionIsSplit(lines: seq<Bytes>, tail: Bytes)
    requires AllOneLine(lines) && OneLine(tail)
    ensures SplitLines(Join(lines) + tail) == Split(lines, tail)
  {
    if lines == [] {
      LineEndOf(tail, []);
      assert Join(lines) + tail == tail;
    } else {
      var rest := Join(lines[1..]) + tail;
      PartitionIsSplit(lines[1..], tail);
      SplitOfLine(lines[0], rest);
      Assoc(Line(lines[0]), Join(lines[1..]), tail);
      assert [lines[0]] + lines[1..] == lines;
    }
  }

  lemma {:induction false} EndsTerminated(g: Bytes)
    requires g != [] && g[|g| - 1] == NEWLINE
    ensures LineEnd(g) < |g|
  {
    if g[0] != NEWLINE { EndsTerminated(g[1..]); }
  }

  predicate Terminated(g: Bytes) { g == [] || g[|g| - 1] == NEWLINE }

  lemma RestTerminated(g: Bytes, line: Bytes, rest: Bytes)
    requires Terminated(g) && g == Line(line) + rest
    ensures Terminated(rest)
  {
    if rest != [] { assert g[|g| - 1] == rest[|rest| - 1]; }
  }

  lemma {:induction false} SplitConcat(g: Bytes, s: Bytes)
    requires Terminated(g)
    ensures SplitLines(g).tail == []
    ensures SplitLines(g + s) == Split(SplitLines(g).lines + SplitLines(s).lines, SplitLines(s).tail)
    decreases |g|
  {
    if g == [] {
      assert g + s == s;
    } else {
      EndsTerminated(g);
      var line, rest := FrontLine(g);
      RestTerminated(g, line, rest);
      SplitConcat(rest, s);
      SplitOfLine(line, rest + s);
      Assoc(Line(line), rest, s);
      Assoc([line], SplitLines(rest).lines, SplitLines(s).lines);
    }
  }

  lemma ClassifyAllConcat(a: seq<Bytes>, b: seq<Bytes>, cap: nat)
    ensures ClassifyAll(a + b, cap) == ClassifyAll(a, cap) + ClassifyAll(b, cap)
  {
  }

  /** One outcome per line, in order, and it is the one the line's bytes deserve. After them, one
      `TooLarge` exactly when the stream closed on an oversized tail. */
  lemma OutcomePerLine(lines: seq<Bytes>, tail: Bytes, cap: nat, ending: Ending)
    requires AllOneLine(lines) && OneLine(tail)
    ensures var r := Outcomes(Join(lines) + tail, cap, ending);
      && |r| == |lines| + (if ending == Closed && |tail| > cap then 1 else 0)
      && (forall k, x {:trigger Judges(lines[k], cap, x)} :: 0 <= k < |lines| ==> (r[k] == x <==> Judges(lines[k], cap, x)))
      && (|r| > |lines| ==> r[|lines|] == Rejected(TooLarge))
  {
    PartitionIsSplit(lines, tail);
    var r := Outcomes(Join(lines) + tail, cap, ending);
    forall k, x | 0 <= k < |lines| ensures r[k] == x <==> Judges(lines[k], cap, x) {
      assert r[k] == Classify(lines[k], cap);
      JudgesIff(lines[k], cap, x);
    }
  }

  /** Whatever the bytes up to a terminator are, oversized lines back to back included, what follows
      is read as if they had not been there. */
  lemma Resynchronises(g: Bytes, s: Bytes, cap: nat, ending: Ending)
    requires Terminated(g)
    ensures Outcomes(g + s, cap, ending) == Outcomes(g, cap, ending) + Outcomes(s, cap, ending)
    ensures Outcomes(g, cap, ending) == Outcomes(g, cap, Open)
  {
    var a, b := SplitLines(g).lines, SplitLines(s).lines;
    SplitConcat(g, s);
    ClassifyAllConcat(a, b, cap);
    assert ClassifyAll(a, cap) + [] == ClassifyAll(a, cap);
    assert TailOutcome([], cap, ending) == [];
    Assoc(ClassifyAll(a, cap), ClassifyAll(b, cap), TailOutcome(SplitLines(s).tail, cap, ending));
  }

  /** A terminated line is one outcome; the rest is read on its own. */
  lemma OutcomesOfLine(line: Bytes, rest: Bytes, cap: nat, ending: Ending)
    requires OneLine(line)
    ensures Outcomes(Line(line) + rest, cap, ending) == [Classify(line, cap)] + Outcomes(rest, cap, ending)
  {
    SplitOfLine(line, rest);
    ClassifyAllConcat([line], SplitLines(rest).lines, cap);
    assert ClassifyAll([line], cap) == [Classify(line, cap)];
  }

  /** A line alone on a stream. */
  lemma LineOutcome(line: Bytes, cap: nat, ending: Ending, x: Inbound)
    requires OneLine(line)
    ensures Outcomes(Line(line), cap, ending) == [x] <==> Judges(line, cap, x)
  {
    JudgesIff(line, cap, x);
    OutcomesOfLine(line, [], cap, ending);
    assert Line(line) + [] == Line(line);
    assert Outcomes([], cap, ending) == [];
    assert Outcomes(Line(line), cap, ending)[0] == Classify(line, cap) && [x][0] == x;
  }

  /** The terminator is byte 0x0A, and a line of nothing else is no frame. */
  lemma EmptyLine(cap: nat, ending: Ending)
    ensures Outcomes([0x0A], cap, ending) == [Rejected(InvalidJson)]
  {
    forall v ensures !Grammar.LineDenotes([], v) { Grammar.EmptyDenotesNothing(v); }
    LineOutcome([], cap, ending, Rejected(InvalidJson));
    assert Line([]) == [NEWLINE];
  }

  // ---- The reader as a state machine --------------------------------------------------------

  /** A reader between two byte reads: its own fields and the bytes it has not read yet. */
  datatype State = State(buf: Bytes, discarding: bool, input: Bytes, ending: Ending)

  /** One poll of `next`: an outcome (`None` is clean end of stream), an I/O error, or not ready. */
  datatype Poll = Ready(item: Option<Inbound>) | Failed | Pending

  /** One byte read by `next`, up to the point where it returns or reads again. */
  function Feed(st: State, cap: nat): (State, Poll)
    requires st.input != []
  {
    var b, s := st.input[0], st.(input := st.input[1..]);
    if b == NEWLINE then
      if st.discarding then (s.(discarding := false), Ready(Some(Rejected(TooLarge))))
      else (s.(buf := []), Ready(Some(Deserialized(st.buf))))
    else if st.discarding then (s, Pending)
    else if |st.buf| >= cap then (s.(discarding := true, buf := []), Pending)
    else (s.(buf := st.buf + [b]), Pending)
  }

  /** What `next` does when no byte is left to read. */
  function AtEnd(st: State): (State, Poll) {
    match st.ending
    case Open => (st, Pending)
    case Broken => (st, Failed)
    case Closed =>
      if st.discarding then (st.(discarding := false), Ready(Some(Rejected(TooLarge))))
      else (st, Ready(None))
  }

  /** One poll of `next` that finds at most `budget` bytes ready before the source blocks. A dropped
      future is a poll that returned `Pending`: nothing but the state survives it. */
  function PollNext(st: State, cap: nat, budget: nat): (State, Poll)
    decreases budget
  {
    if budget == 0 then (st, Pending)
    else if st.input == [] then AtEnd(st)
    else
      var (s, p) := Feed(st, cap);
      if p.Pending? then PollNext(s, cap, budget - 1) else (s, p)
  }

  /** `carry` is the part of the current line already read. */
  predicate Carries(st: State, cap: nat, carry: Bytes) {
    && OneLine(carry)
    && st.discarding == (|carry| > cap)
    && st.buf == if st.discarding then [] else carry
  }

  /** Reachable reader states: the buffer never exceeds the cap, never holds a terminator, and is
      empty while an oversized line is being skipped. */
  predicate Reachable(st: State, cap: nat) {
    && |st.buf| <= cap
    && OneLine(st.buf)
    && (st.discarding ==> st.buf == [])
  }

  /** The carried part of the line; any newline-free bytes over the cap stand for a skipped one. */
  function Carry(st: State, cap: nat): (c: Bytes)
    ensures Reachable(st, cap) ==> Carries(st, cap, c)
  {
    if st.discarding then seq(cap + 1, i => 0) else st.buf
  }

  /** What the reader still owes. */
  function Owed(st: State, cap: nat): seq<Inbound> {
    Outcomes(Carry(st, cap) + st.input, cap, st.ending)
  }

  /** Only whether the carried part is oversized matters, not its bytes. */
  lemma CarryInterchangeable(a: Bytes, b: Bytes, s: Bytes, cap: nat, ending: Ending)
    requires OneLine(a) && OneLine(b) && |a| > cap && |b| > cap
    ensures Outcomes(a + s, cap, ending) == Outcomes(b + s, cap, ending)
  {
    var i := LineEnd(s);
    if i == |s| {
      assert s[..|s|] == s;
      LineEndOf(a + s, []);
      LineEndOf(b + s, []);
    } else {
      var line, rest := s[..i], s[i + 1..];
      assert a + s == Line(a + line) + rest && b + s == Line(b + line) + rest;
      OutcomesOfLine(a + line, rest, cap, ending);
      OutcomesOfLine(b + line, rest, cap, ending);
    }
  }

  lemma CarryOwed(st: State, cap: nat, carry: Bytes)
    requires Carries(st, cap, carry)
    ensures Reachable(st, cap) && Owed(st, cap) == Outcomes(carry + st.input, cap, st.ending)
  {
    if st.discarding { CarryInterchangeable(carry, Carry(st, cap), st.input, cap, st.ending); }
  }

  /** Between frames: nothing of a line has been read. */
  predicate Fresh(st: State) { st.buf == [] && !st.discarding }

  /** A poll that left state `s`, told in terms of `whole`, the bytes of the current line onwards. A
      poll that is not ready has only moved bytes from the input to the carried part `line`; a poll
      that yields an outcome has read exactly one line, or reports an oversized last one. */
  predicate Told(whole: Bytes, cap: nat, s: State, p: Poll, line: Bytes) {
    match p
    case Pending => Carries(s, cap, line) && whole == line + s.input
    case Failed => Carries(s, cap, line) && whole == line && s.input == [] && s.ending == Broken
    case Ready(None) => Carries(s, cap, line) && whole == line && s.input == [] && s.ending == Closed
                        && |whole| <= cap
    case Ready(Some(x)) =>
      && Fresh(s) && OneLine(line)
      && if s.input == [] && s.ending == Closed && whole == line
         then |line| > cap && x == Rejected(TooLarge)
         else whole == Line(line) + s.input && x == Classify(line, cap)
  }

  lemma FeedTold(st: State, cap: nat, carry: Bytes)
    requires st.input != [] && Carries(st, cap, carry)
    ensures var (s, p) := Feed(st, cap);
      && s.ending == st.ending && s.input == st.input[1..]
      && Told(carry + st.input, cap, s, p, if p.Pending? then carry + [st.input[0]] else carry)
  {
    assert st.input == [st.input[0]] + st.input[1..];
    if st.input[0] == NEWLINE { assert carry + st.input == Line(carry) + st.input[1..]; }
  }

  lemma {:induction false} PollTold(st: State, cap: nat, budget: nat, carry: Bytes) returns (line: Bytes)
    requires Carries(st, cap, carry)
    ensures var (s, p) := PollNext(st, cap, budget);
      && s.ending == st.ending
      && Told(carry + st.input, cap, s, p, line)
      && (p.Pending? ==> |s.input| + budget == |st.input| || (s.input == [] && s.ending == Open))
      && |s.input| <= |st.input| && (p.Ready? && st.input != [] ==> |s.input| < |st.input|)
    decreases budget
  {
    line := carry;
    if budget > 0 && st.input == [] {
      assert carry + st.input == carry;
    } else if budget > 0 {
      FeedTold(st, cap, carry);
      var (s, p) := Feed(st, cap);
      if p.Pending? {
        assert carry + st.input == (carry + [st.input[0]]) + s.input;
        line := PollTold(s, cap, budget - 1, carry + [st.input[0]]);
      }
    }
  }

  lemma ToldOwed(whole: Bytes, cap: nat, s: State, p: Poll, line: Bytes)
    requires Told(whole, cap, s, p, line)
    ensures Reachable(s, cap)
    ensures var before := Outcomes(whole, cap, s.ending);
      match p
      case Pending => Owed(s, cap) == before
      case Failed => before == [] == Owed(s, cap)
      case Ready(None) => before == [] == Owed(s, cap)
      case Ready(Some(x)) => before == [x] + Owed(s, cap)
  {
    if !p.Ready? || p.item.None? {
      CarryOwed(s, cap, line);
      assert line + [] == line;
      LineEndOf(line, []);
    } else if whole == Line(line) + s.input {
      OutcomesOfLine(line, s.input, cap, s.ending);
      assert [] + s.input == s.input;
    } else {
      LineEndOf(line, []);
      assert [] + s.input == [];
    }
  }

  /** Every poll keeps the account: what was owed before is what the poll returned followed by what
      is owed after. A poll that was not ready changes nothing that is owed, so a dropped future
      loses nothing; `None` and I/O errors come only when nothing is owed. */
  lemma PollKeepsOwed(st: State, cap: nat, budget: nat)
    requires Reachable(st, cap)
    ensures var (s, p) := PollNext(st, cap, budget);
      && Reachable(s, cap) && s.ending == st.ending
      && match p
         case Pending => Owed(s, cap) == Owed(st, cap)
         case Failed => Owed(st, cap) == [] == Owed(s, cap) && s.ending == Broken
         case Ready(None) => Owed(st, cap) == [] == Owed(s, cap) && s.ending == Closed
         case Ready(Some(x)) => Owed(st, cap) == [x] + Owed(s, cap) && Fresh(s)
  {
    var carry := Carry(st, cap);
    var line := PollTold(st, cap, budget, carry);
    var (s, p) := PollNext(st, cap, budget);
    ToldOwed(carry + st.input, cap, s, p, line);
  }

  /** How far a poll reads: one that is not ready has used its whole budget (or all that has arrived
      so far), one that yields an outcome has read at least a byte unless none was left. */
  lemma PollReads(st: State, cap: nat, budget: nat)
    requires Reachable(st, cap)
    ensures var (s, p) := PollNext(st, cap, budget);
      && |s.input| <= |st.input|
      && (p.Pending? ==> |s.input| + budget == |st.input| || (s.input == [] && s.ending == Open))
  {
    var line := PollTold(st, cap, budget, Carry(st, cap));
  }

  // ---- Every schedule of polls --------------------------------------------------------------

  /** The outcomes a sequence of polls delivers, and the state it leaves. `budgets[i]` is how many
      bytes the i-th poll finds ready; a poll that is not ready is a future dropped. */
  function RunPolls(st: State, cap: nat, budgets: seq<nat>): (seq<Inbound>, State)
    decreases |budgets|
  {
    if budgets == [] then ([], st) else
    var (s, p) := PollNext(st, cap, budgets[0]);
    var (out, last) := RunPolls(s, cap, budgets[1..]);
    (if p.Ready? && p.item.Some? then [p.item.value] + out else out, last)
  }

  /** Polls that find at least one byte, or the end of the stream. */
  function Effective(budgets: seq<nat>): nat {
    if budgets == [] then 0 else (if budgets[0] > 0 then 1 else 0) + Effective(budgets[1..])
  }

  lemma NothingLeft(st: State, cap: nat)
    requires Reachable(st, cap) && st.input == [] && (st.discarding ==> st.ending != Closed)
    ensures Owed(st, cap) == []
  {
    var c := Carry(st, cap);
    assert c + [] == c;
    LineEndOf(c, []);
  }

  /** Whatever the schedule of polls, dropped futures included, the outcomes delivered so far
      followed by those still owed are what one uninterrupted read yields; and a schedule with more
      effective polls than bytes delivers them all. */
  lemma {:induction false} ScheduleIndependent(st: State, cap: nat, budgets: seq<nat>)
    requires Reachable(st, cap)
    ensures var (out, last) := RunPolls(st, cap, budgets);
      && Reachable(last, cap)
      && Owed(st, cap) == out + Owed(last, cap)
      && (Effective(budgets) > |st.input| ==> out == Owed(st, cap))
    decreases |budgets|
  {
    if budgets == [] {
      assert Owed(st, cap) == [] + Owed(st, cap);
    } else {
      var (s, p) := PollNext(st, cap, budgets[0]);
      var (out, last) := RunPolls(s, cap, budgets[1..]);
      PollKeepsOwed(st, cap, budgets[0]);
      var line := PollTold(st, cap, budgets[0], Carry(st, cap));
      ScheduleIndependent(s, cap, budgets[1..]);
      if p.Ready? && p.item.Some? { Assoc([p.item.value], out, Owed(last, cap)); }
      if st.input == [] && budgets[0] > 0 {
        LastPoll(st, cap, budgets[0]);
        assert Owed(s, cap) == [];
      }
    }
  }

  /** With no byte left, one effective poll settles the account. */
  lemma LastPoll(st: State, cap: nat, budget: nat)
    requires Reachable(st, cap) && st.input == [] && budget > 0
    ensures var s := PollNext(st, cap, budget).0; Reachable(s, cap) && Owed(s, cap) == []
  {
    var s := PollNext(st, cap, budget).0;
    assert s.input == [] && (s.discarding ==> s.ending != Closed);
    NothingLeft(s, cap);
  }

  /** After a clean end of stream every later poll reports it again. */
  lemma EndIsFinal(st: State, cap: nat, budget: nat, again: nat)
    requires PollNext(st, cap, budget).1 == Ready(None) && again > 0
    ensures var s := PollNext(st, cap, budget).0; PollNext(s, cap, again) == (s, Ready(None))
    decreases budget
  {
    if st.input != [] { EndIsFinal(Feed(st, cap).0, cap, budget - 1, again); }
  }

  /** `FrameReader::new` over a source that has delivered (and will deliver) `input`. */
  function Start(input: Bytes, ending: Ending): State {
    State([], false, input, ending)
  }

  /** A new reader owes exactly the reference outcomes of its stream. */
  lemma StartOwes(input: Bytes, cap: nat, ending: Ending)
    ensures Reachable(Start(input, ending), cap)
    ensures Owed(Start(input, ending), cap) == Outcomes(input, cap, ending)
  {
    assert [] + input == input;
  }

  /** Re-boxing the read half between frames loses nothing: after any outcome, a new reader with the
      same cap over the unread bytes owes what the old one still did. */
  lemma HandOff(st: State, cap: nat, budget: nat)
    requires Reachable(st, cap)
    requires var p := PollNext(st, cap, budget).1; p.Ready? && p.item.Some?
    ensures var (s, p) := PollNext(st, cap, budget);
      Owed(st, cap) == [p.item.value] + Owed(Start(s.input, s.ending), cap)
  {
    PollKeepsOwed(st, cap, budget);
  }

  /** What `next` returns from anywhere within a line (`carry` has been read), once it finds the rest of
      the line ready: judged by the bytes of the whole line alone, and what follows is left unread. */
  lemma NextLine(st: State, cap: nat, budget: nat, carry: Bytes, line: Bytes, rest: Bytes)
    requires Carries(st, cap, carry) && OneLine(line) && carry + st.input == Line(line) + rest
    requires |carry| + budget > |line|
    ensures var (s, p) := PollNext(st, cap, budget);
      s.input == rest && Fresh(s) && p.Ready? && p.item.Some? && Judges(line, cap, p.item.value)
  {
    PollWholeLine(st, cap, budget, carry, line, rest);
    JudgesIff(line, cap, Classify(line, cap));
  }

  lemma PollWholeLine(st: State, cap: nat, budget: nat, carry: Bytes, line: Bytes, rest: Bytes)
    requires Carries(st, cap, carry) && OneLine(line) && carry + st.input == Line(line) + rest
    requires |carry| + budget > |line|
    ensures var (s, p) := PollNext(st, cap, budget);
      s.input == rest && Fresh(s) && p == Ready(Some(Classify(line, cap)))
  {
    var read := PollTold(st, cap, budget, carry);
    var (s, p) := PollNext(st, cap, budget);
    if p.Ready? && p.item.Some? && !(s.input == [] && s.ending == Closed && Line(line) + rest == read) {
      FirstLineUnique(line, rest, read, s.input);
    } else {
      assert Line(line) + rest == read + s.input;
      ReadWithin(read, s.input, line, rest);
    }
  }

  /** Bytes read without a newline do not go beyond the line. */
  lemma ReadWithin(read: Bytes, more: Bytes, line: Bytes, rest: Bytes)
    requires OneLine(read) && Line(line) + rest == read + more
    ensures |read| <= |line|
  {
    assert (Line(line) + rest)[|line|] == NEWLINE;
    assert read == (Line(line) + rest)[..|read|];
  }

  // ---- What a clean end leaves in the buffer -------------------------------------------------

  /** The unterminated rest of a stream, unless it is oversized (and then reported and dropped). */
  function Leftover(whole: Bytes, cap: nat): Bytes {
    var tail := SplitLines(whole).tail;
    if |tail| > cap then [] else tail
  }

  lemma LeftoverOfLine(line: Bytes, rest: Bytes, cap: nat)
    requires OneLine(line)
    ensures Leftover(Line(line) + rest, cap) == Leftover(rest, cap)
  {
    SplitOfLine(line, rest);
  }

  lemma LeftoverOfTail(tail: Bytes, cap: nat)
    requires OneLine(tail)
    ensures Leftover(tail, cap) == if |tail| > cap then [] else tail
  {
    LineEndOf(tail, []);
  }

  lemma LeftoverInterchangeable(a: Bytes, b: Bytes, s: Bytes, cap: nat)
    requires OneLine(a) && OneLine(b) && |a| > cap && |b| > cap
    ensures Leftover(a + s, cap) == Leftover(b + s, cap)
  {
    var i := LineEnd(s);
    if i == |s| {
      assert s[..|s|] == s;
      LeftoverOfTail(a + s, cap);
      LeftoverOfTail(b + s, cap);
    } else {
      var line, rest := s[..i], s[i + 1..];
      assert a + s == Line(a + line) + rest && b + s == Line(b + line) + rest;
      LeftoverOfLine(a + line, rest, cap);
      LeftoverOfLine(b + line, rest, cap);
    }
  }

  lemma ToldLeftover(whole: Bytes, cap: nat, s: State, p: Poll, line: Bytes)
    requires Told(whole, cap, s, p, line) && s.ending == Closed
    ensures Leftover(Carry(s, cap) + s.input, cap) == Leftover(whole, cap)
    ensures p == Ready(None) ==> s.buf == Leftover(whole, cap)
  {
    if p.Ready? && p.item.Some? {
      assert [] + s.input == s.input;
      if s.input == [] && whole == line {
        LeftoverOfTail(whole, cap);
        LeftoverOfTail([], cap);
      } else {
        LeftoverOfLine(line, s.input, cap);
      }
    } else {
      assert whole == line + s.input;
      if s.discarding { LeftoverInterchangeable(line, Carry(s, cap), s.input, cap); }
      if p == Ready(None) { LeftoverOfTail(whole, cap); }
    }
  }

  /** After a clean end the buffer holds what the poll had of the last line: part carried, part read. */
  lemma EndKeepsTail(st: State, cap: nat, budget: nat)
    requires Reachable(st, cap) && PollNext(st, cap, budget).1 == Ready(None)
    ensures PollNext(st, cap, budget).0.buf == Carry(st, cap) + st.input
  {
    var line := PollTold(st, cap, budget, Carry(st, cap));
  }

  lemma {:induction false} LeftBehind(st: State, cap: nat, budgets: seq<nat>, budget: nat)
    requires Reachable(st, cap) && st.ending == Closed
    requires PollNext(RunPolls(st, cap, budgets).1, cap, budget).1 == Ready(None)
    ensures PollNext(RunPolls(st, cap, budgets).1, cap, budget).0.buf == Leftover(Carry(st, cap) + st.input, cap)
    decreases |budgets|
  {
    var n := if budgets == [] then budget else budgets[0];
    var (s, p) := PollNext(st, cap, n);
    var line := PollTold(st, cap, n, Carry(st, cap));
    ToldOwed(Carry(st, cap) + st.input, cap, s, p, line);
    ToldLeftover(Carry(st, cap) + st.input, cap, s, p, line);
    if budgets != [] { LeftBehind(s, cap, budgets[1..], budget); }
  }

  /** Over a whole stream, whatever the schedule: a clean end leaves the buffer empty exactly when the
      stream ended with a terminator or in an oversized line; otherwise it holds the unterminated rest,
      which an `into_inner` then drops. */
  lemma EndLeavesTail(input: Bytes, cap: nat, budgets: seq<nat>, budget: nat)
    requires PollNext(RunPolls(Start(input, Closed), cap, budgets).1, cap, budget).1 == Ready(None)
    ensures var tail := SplitLines(input).tail;
      var buf := PollNext(RunPolls(Start(input, Closed), cap, budgets).1, cap, budget).0.buf;
      && (buf == [] <==> tail == [] || |tail| > cap)
      && (buf != [] ==> buf == tail)
  {
    assert [] + input == input;
    LeftBehind(Start(input, Closed), cap, budgets, budget);
  }

  /** One byte and then the end, under any cap. */
  lemma EndKeepsTailExample(b: byte, cap: nat)
    requires b != NEWLINE && cap > 0
    ensures PollNext(Start([b], Closed), cap, 2) == (State([b], false, [], Closed), Ready(None))
  {
    assert [b][1..] == [] && [] + [b] == [b];
    assert Feed(Start([b], Closed), cap) == (State([b], false, [], Closed), Pending);
  }

  // ---- Awaiting one outcome -----------------------------------------------------------------

  /** `next().await` on everything that will arrive. */
  function AwaitPoll(st: State, cap: nat): (State, Poll) {
    PollNext(st, cap, |st.input| + 1)
  }

  /** What an await comes back with when nothing more is owed. */
  function NothingOwed(ending: Ending): Poll {
    match ending
    case Open => Pending
    case Closed => Ready(None)
    case Broken => Failed
  }

  /** An awaited `next` returns the first outcome owed, and leaves exactly the rest owed, between
      frames. */
  lemma AwaitFirst(st: State, cap: nat)
    requires Reachable(st, cap)
    ensures var (s, p) := AwaitPoll(st, cap);
      && Reachable(s, cap) && s.ending == st.ending
      && (Owed(st, cap) != [] ==>
            p == Ready(Some(Owed(st, cap)[0])) && Owed(s, cap) == Owed(st, cap)[1..] && Fresh(s))
      && (Owed(st, cap) == [] ==> p == NothingOwed(st.ending) && Owed(s, cap) == [])
  {
    var n := |st.input| + 1;
    PollKeepsOwed(st, cap, n);
    PollReads(st, cap, n);
    var (s, p) := PollNext(st, cap, n);
    match p
    case Pending => NothingLeft(s, cap);
    case Ready(Some(x)) => assert ([x] + Owed(s, cap))[1..] == Owed(s, cap);
    case _ =>
  }

  // ---- The printer's side and the wire round trip -------------------------------------------

  /** The bytes `write_frame` sends. */
  function Sent(v: Value): Bytes { Line(ToVec(v)) }

  function SendAll(vs: seq<Value>): Bytes {
    if vs == [] then [] else Sent(vs[0]) + SendAll(vs[1..])
  }

  /** What a frame is to a receiver with this cap. */
  function Received(v: Value, cap: nat): Inbound {
    if |ToVec(v)| > cap then Rejected(TooLarge)
    else if Depth(v) > MAX_DEPTH then Rejected(InvalidJson)
    else Frame(v)
  }

  function ReceivedAll(vs: seq<Value>, cap: nat): (r: seq<Inbound>)
    ensures |r| == |vs|
  {
    if vs == [] then [] else [Received(vs[0], cap)] + ReceivedAll(vs[1..], cap)
  }

  predicate AllWellFormed(vs: seq<Value>) {
    vs != [] ==> WellFormed(vs[0]) && AllWellFormed(vs[1..])
  }

  /** The frames a receiver accepts: within the cap and nested no deeper than its parser goes. */
  predicate Fits(v: Value, cap: nat) { |ToVec(v)| <= cap && Depth(v) <= MAX_DEPTH }

  predicate AllFit(vs: seq<Value>, cap: nat) {
    vs != [] ==> Fits(vs[0], cap) && AllFit(vs[1..], cap)
  }

  function Frames(vs: seq<Value>): (r: seq<Inbound>)
    ensures |r| == |vs|
  {
    if vs == [] then [] else [Frame(vs[0])] + Frames(vs[1..])
  }

  lemma SentOutcome(v: Value, rest: Bytes, cap: nat, ending: Ending)
    requires WellFormed(v)
    ensures Outcomes(Sent(v) + rest, cap, ending) == [Received(v, cap)] + Outcomes(rest, cap, ending)
  {
    ToVecOneLine(v);
    FromSliceToVec(v);
    OutcomesOfLine(ToVec(v), rest, cap, ending);
  }

  /** What a receiver makes of any frames written back to back, whatever follows them. */
  lemma {:induction false} WireDelivers(vs: seq<Value>, rest: Bytes, cap: nat, ending: Ending)
    requires AllWellFormed(vs)
    ensures Outcomes(SendAll(vs) + rest, cap, ending)
         == ReceivedAll(vs, cap) + Outcomes(rest, cap, ending)
  {
    if vs == [] {
      assert [] + rest == rest;
    } else {
      WireDelivers(vs[1..], rest, cap, ending);
      SentOutcome(vs[0], SendAll(vs[1..]) + rest, cap, ending);
      Assoc(Sent(vs[0]), SendAll(vs[1..]), rest);
      Assoc([Received(vs[0], cap)], ReceivedAll(vs[1..], cap), Outcomes(rest, cap, ending));
    }
  }

  lemma {:induction false} ReceivedIffFits(vs: seq<Value>, cap: nat)
    ensures ReceivedAll(vs, cap) == Frames(vs) <==> AllFit(vs, cap)
  {
    if vs != [] {
      ReceivedIffFits(vs[1..], cap);
      assert ReceivedAll(vs, cap)[0] == Received(vs[0], cap) && Frames(vs)[0] == Frame(vs[0]);
      assert ReceivedAll(vs, cap)[1..] == ReceivedAll(vs[1..], cap);
      assert Frames(vs)[1..] == Frames(vs[1..]);
    }
  }

  /** The full wire round trip: the reader yields exactly the frames written, and then nothing,
      exactly when every one fits the cap and nests at most 127 deep. */
  lemma WireRoundTrip(vs: seq<Value>, cap: nat)
    requires AllWellFormed(vs)
    ensures Outcomes(SendAll(vs), cap, Closed) == Frames(vs) <==> AllFit(vs, cap)
  {
    WireDelivers(vs, [], cap, Closed);
    assert SendAll(vs) + [] == SendAll(vs);
    assert ReceivedAll(vs, cap) + [] == ReceivedAll(vs, cap);
    assert Outcomes([], cap, Closed) == [];
    ReceivedIffFits(vs, cap);
  }

  /** `n` arrays around nothing. */
  function Nest(n: nat): Value {
    if n == 0 then Arr(Nil) else Arr(Cons(Nest(n - 1), Nil))
  }

  lemma {:induction false} NestShape(n: nat)
    ensures WellFormed(Nest(n)) && Depth(Nest(n)) == n + 1 && |Print(Nest(n))| == 2 * n + 2
    ensures var t := Print(Nest(n)); forall k :: 0 <= k < |t| ==> t[k] == '[' || t[k] == ']'
  {
    if n > 0 { NestShape(n - 1); }
  }

  /** Frames the writer sends and no reader accepts, however generous the cap: `n + 1` nested
      arrays, `2n + 2` bytes, for any `n` of at least 127. */
  lemma DeepFrameRefused(n: nat, cap: nat)
    requires n >= MAX_DEPTH && cap >= 2 * n + 2
    ensures WellFormed(Nest(n)) && |ToVec(Nest(n))| == 2 * n + 2
    ensures Outcomes(SendAll([Nest(n)]), cap, Closed) == [Rejected(InvalidJson)]
  {
    NestShape(n);
    AsciiLength(Print(Nest(n)));
    OneFrame(Nest(n), cap);
  }

  lemma OneFrame(v: Value, cap: nat)
    requires WellFormed(v)
    ensures Outcomes(SendAll([v]), cap, Closed) == [Received(v, cap)]
  {
    SentOutcome(v, [], cap, Closed);
    assert SendAll([v]) == Sent(v) + [];
    assert Outcomes([], cap, Closed) == [];
  }
}
