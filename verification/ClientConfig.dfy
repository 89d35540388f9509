/** The `mcpServers` entries a human pastes into a client's configuration, and the `<peer>/<service>`
    argument they hand back to `connect`. */
module ClientConfig {
  import opened Utf8
  import opened Number
  import opened Json

  // ---- The target argument ------------------------------------------------------------------

  /** The index of the first slash, or the length when there is none. */
  function SlashAt(s: string): (i: nat)
    ensures i <= |s| && '/' !in s[..i]
    ensures i < |s| ==> s[i] == '/'
  {
    if s == "" || s[0] == '/' then 0
    else
      var i := SlashAt(s[1..]);
      assert s[..i + 1] == [s[0]] + s[1..][..i];
      i + 1
  }

  /** `split_target`: both halves around the first slash must be non-empty. */
  function SplitTarget(target: string): Option<(string, string)> {
    var i := SlashAt(target);
    if i == |target| || i == 0 || i + 1 == |target| then None
    else Some((target[..i], target[i + 1..]))
  }

  lemma {:induction false} SlashAfter(peer: string, rest: string)
    requires '/' !in peer
    ensures SlashAt(peer + "/" + rest) == |peer|
  {
    var t := peer + "/" + rest;
    if peer != "" {
      assert t[0] == peer[0];
      assert t[1..] == peer[1..] + "/" + rest;
      SlashAfter(peer[1..], rest);
    }
  }

  /** The argument gives the pair back exactly when the peer has no slash and neither half is empty;
      whatever else the names hold. */
  lemma SplitTargetIff(peer: string, service: string)
    ensures SplitTarget(peer + "/" + service) == Some((peer, service))
      <==> peer != "" && '/' !in peer && service != ""
  {
    var t := peer + "/" + service;
    if '/' !in peer {
      SlashAfter(peer, service);
      assert t[..|peer|] == peer && t[|peer| + 1..] == service;
    } else if SplitTarget(t).Some? {
      assert '/' !in SplitTarget(t).value.0;
    }
  }

  /** In general: the pair it gives is the split at the first slash, both halves there; and there is none
      for any other argument. */
  lemma SplitTargetExact(target: string, peer: string, service: string)
    ensures SplitTarget(target) == Some((peer, service))
      <==> target == peer + "/" + service && peer != "" && '/' !in peer && service != ""
  {
    if SplitTarget(target) == Some((peer, service)) {
      assert target == peer + "/" + service;
    }
    if target == peer + "/" + service { SplitTargetIff(peer, service); }
  }

  // ---- The entry ----------------------------------------------------------------------------

  function Name(peer: string, service: string): string { peer + "-" + service }

  function Target(peer: string, service: string): string { peer + "/" + service }

  /** `mcp_servers_entry`: only the two names go through the JSON string printer. */
  function McpServersEntry(peer: string, service: string): string {
    Quote(Name(peer, service)) + ": {\"command\": \"mcpmesh\", \"args\": [\"connect\", "
    + Quote(Target(peer, service)) + "]}"
  }

  /** An object of the entry's shape: `first` bound to a string, then `second` to a pair of strings. */
  datatype Shape = Shape(first: string, command: string, second: string, verb: string)

  function EntryShape(): Shape { Shape("command", "mcpmesh", "args", "connect") }

  function Pair(verb: string, target: string): Value {
    Arr(Cons(Str(verb), Cons(Str(target), Nil)))
  }

  /** The command the entry mounts. */
  function Command(target: string): Value {
    Obj(Member("args", Pair("connect", target), Member("command", Str("mcpmesh"), End)))
  }

  // Reading the entry, piece by piece. The texts are nested to the right so that each piece's
  // remainder is the next one.

  function SecondText(verb: string, target: string, rest: string): string {
    Quote(verb) + (", " + (Quote(target) + ("]" + rest)))
  }

  function ArgsText(f: Shape, target: string, rest: string): string {
    Quote(f.second) + (": " + ("[" + SecondText(f.verb, target, "}" + rest)))
  }

  function BodyText(f: Shape, target: string, rest: string): string {
    "{" + (Quote(f.first) + (": " + (Quote(f.command) + (", " + ArgsText(f, target, rest)))))
  }

  lemma Spaced(t: string)
    requires t != "" && !IsWs(t[0])
    ensures SkipWs(t) == t && SkipWs(" " + t) == t
  {
    assert (" " + t)[1..] == t;
  }

  lemma ReadString(s: string, rest: string, depth: nat)
    ensures ParseValue(Quote(s) + rest, depth) == Done(Str(s), rest)
    ensures ParseValue(" " + (Quote(s) + rest), depth) == Done(Str(s), rest)
  {
    ParsePrintedWord(Str(s), rest);
    assert (Quote(s) + rest)[0] == '"';
    Spaced(Quote(s) + rest);
  }

  lemma ReadKey(k: string, rest: string)
    ensures ParseKey(Quote(k) + (": " + rest)) == Done(k, " " + rest)
    ensures ParseKey(" " + (Quote(k) + (": " + rest))) == Done(k, " " + rest)
  {
    ParsePrintedKey(k, " " + rest);
    var t := Quote(k) + (": " + rest);
    assert ": " + rest == ":" + (" " + rest);
    Assoc(Quote(k), ":", " " + rest);
    assert t[0] == '"';
    Spaced(t);
  }

  lemma ReadSecondTail(target: string, rest: string, depth: nat)
    ensures ParseTail(", " + (Quote(target) + ("]" + rest)), depth) == Done(Cons(Str(target), Nil), rest)
  {
    var t := ", " + (Quote(target) + ("]" + rest));
    assert t[1..] == " " + (Quote(target) + ("]" + rest));
    ReadString(target, "]" + rest, depth);
    assert ("]" + rest)[1..] == rest;
  }

  lemma ReadPair(verb: string, target: string, rest: string, depth: nat)
    requires depth > 0
    ensures ParseValue(" " + ("[" + SecondText(verb, target, rest)), depth) == Done(Pair(verb, target), rest)
  {
    var inner := SecondText(verb, target, rest);
    Spaced("[" + inner);
    assert ("[" + inner)[1..] == inner;
    assert inner[0] == '"';
    ReadString(verb, ", " + (Quote(target) + ("]" + rest)), depth - 1);
    ReadSecondTail(target, rest, depth - 1);
  }

  lemma ReadArgs(f: Shape, target: string, rest: string, depth: nat)
    requires depth > 0
    ensures ParseMember(" " + ArgsText(f, target, rest), depth)
         == Done(Member(f.second, Pair(f.verb, target), End), rest)
  {
    ReadKey(f.second, "[" + SecondText(f.verb, target, "}" + rest));
    ReadPair(f.verb, target, "}" + rest, depth);
    assert ("}" + rest)[1..] == rest;
  }

  /** One string member, and then whatever follows its comma. */
  lemma ReadFirst(key: string, word: string, tail: string, depth: nat)
    requires ParseMember(" " + tail, depth).Done?
    ensures var more := ParseMember(" " + tail, depth);
      ParseMember(Quote(key) + (": " + (Quote(word) + (", " + tail))), depth)
        == Done(Member(key, Str(word), more.value), more.rest)
  {
    ReadKey(key, Quote(word) + (", " + tail));
    ReadString(word, ", " + tail, depth);
    NextMember(tail, depth);
  }

  lemma NextMember(tail: string, depth: nat)
    ensures ParseMemberTail(", " + tail, depth) == ParseMember(" " + tail, depth)
  {
    assert (", " + tail)[1..] == " " + tail;
  }

  lemma ReadMembers(f: Shape, target: string, rest: string, depth: nat)
    requires depth > 0
    ensures ParseMember(Quote(f.first) + (": " + (Quote(f.command) + (", " + ArgsText(f, target, rest)))), depth)
         == Done(Member(f.first, Str(f.command), Member(f.second, Pair(f.verb, target), End)), rest)
  {
    var tail := ArgsText(f, target, rest);
    ReadArgs(f, target, rest, depth);
    ReadFirst(f.first, f.command, tail, depth);
  }

  lemma ReadBody(f: Shape, target: string, rest: string, depth: nat)
    requires depth > 1
    ensures ParseValue(" " + BodyText(f, target, rest), depth)
         == Done(Obj(Normalize(Member(f.first, Str(f.command), Member(f.second, Pair(f.verb, target), End)))), rest)
  {
    var inner := Quote(f.first) + (": " + (Quote(f.command) + (", " + ArgsText(f, target, rest))));
    Spaced("{" + inner);
    assert ("{" + inner)[1..] == inner;
    assert inner[0] == '"';
    ReadMembers(f, target, rest, depth - 1);
  }

  lemma TwoSorted(k: string, v: Value, k': string, v': Value)
    requires k != k' && !Less(k, k')
    ensures Normalize(Member(k, v, Member(k', v', End))) == Member(k', v', Member(k, v, End))
  {
    assert Normalize(Member(k', v', End)) == Member(k', v', End);
    assert Insert(k, v, End) == Member(k, v, End);
  }

  /** The members arrive in the conventional order and are kept in key order. */
  lemma CommandSorted(target: string)
    ensures Normalize(Member("command", Str("mcpmesh"), Member("args", Pair("connect", target), End)))
         == Command(target).members
  {
    TwoSorted("command", Str("mcpmesh"), "args", Pair("connect", target));
  }

  lemma {:induction false} EscapePlain(s: string)
    requires forall i :: 0 <= i < |s| ==> 'a' <= s[i] <= 'z'
    ensures Escape(s) == s
  {
    if s != "" {
      EscapePlain(s[1..]);
      assert s == [s[0]] + s[1..];
    }
  }

  predicate Plain(f: Shape) {
    && (forall i :: 0 <= i < |f.first| ==> 'a' <= f.first[i] <= 'z')
    && (forall i :: 0 <= i < |f.command| ==> 'a' <= f.command[i] <= 'z')
    && (forall i :: 0 <= i < |f.second| ==> 'a' <= f.second[i] <= 'z')
    && (forall i :: 0 <= i < |f.verb| ==> 'a' <= f.verb[i] <= 'z')
  }

  /** The fixed text between the two interpolated names. */
  function FixedText(f: Shape): string {
    ": {" + ("\"" + f.first + "\"") + ": " + ("\"" + f.command + "\"") + ", "
    + ("\"" + f.second + "\"") + ": [" + ("\"" + f.verb + "\"") + ", "
  }

  lemma FixedTextLiteral()
    ensures FixedText(EntryShape()) == ": {\"command\": \"mcpmesh\", \"args\": [\"connect\", "
  {
    FixedHalves();
    Assoc(": {\"command\": \"mcpmesh\", ", "\"args\": [\"connect\"", ", ");
  }

  lemma FixedHalves()
    ensures ": {" + ("\"" + "command" + "\"") + ": " + ("\"" + "mcpmesh" + "\"") + ", " == ": {\"command\": \"mcpmesh\", "
    ensures ("\"" + "args" + "\"") + ": [" + ("\"" + "connect" + "\"") == "\"args\": [\"connect\""
  {
  }

  lemma FixedTextReads(f: Shape, target: string, rest: string)
    requires Plain(f)
    ensures FixedText(f) + (Quote(target) + ("]}" + rest)) == ": " + BodyText(f, target, rest)
  {
    EscapePlain(f.first);
    EscapePlain(f.command);
    EscapePlain(f.second);
    EscapePlain(f.verb);
    var q := Quote(target) + ("]" + ("}" + rest));
    assert "]}" + rest == "]" + ("}" + rest);
    FlattenFixed(Quote(f.first), Quote(f.command), Quote(f.second), Quote(f.verb), q);
  }

  lemma FlattenFixed(a: string, b: string, c: string, d: string, q: string)
    ensures (": {" + a + ": " + b + ", " + c + ": [" + d + ", ") + q
         == ": " + ("{" + (a + (": " + (b + (", " + (c + (": " + ("[" + (d + (", " + q))))))))))
  {
    var e := ": [" + (d + (", " + q));
    assert e == ": " + ("[" + (d + (", " + q)));
    var s0 := ": {" + a;
    var s1 := s0 + ": " + b;
    var s2 := s1 + ", " + c;
    Assoc(s2 + ": [" + d, ", ", q);
    Assoc(s2 + ": [", d, ", " + q);
    Assoc(s2, ": [", d + (", " + q));
    FlattenFront(a, b, c, e);
  }

  lemma FlattenFront(a: string, b: string, c: string, e: string)
    ensures (": {" + a + ": " + b + ", " + c) + e
         == ": " + ("{" + (a + (": " + (b + (", " + (c + e))))))
  {
    var s0 := ": {" + a;
    var s1 := s0 + ": " + b;
    Assoc(s1 + ", ", c, e);
    Assoc(s1, ", ", c + e);
    var x := ", " + (c + e);
    Assoc(s0 + ": ", b, x);
    Assoc(s0, ": ", b + x);
    var y := ": " + (b + x);
    Assoc(": {", a, y);
    assert ": {" == ": " + "{";
    Assoc(": ", "{", a + y);
  }

  /** The entry's text, and what it goes on with. */
  lemma EntryText(peer: string, service: string, rest: string)
    ensures McpServersEntry(peer, service) + rest
         == Quote(Name(peer, service)) + (": " + BodyText(EntryShape(), Target(peer, service), rest))
  {
    FixedTextLiteral();
    FixedTextReads(EntryShape(), Target(peer, service), rest);
    var n, q := Quote(Name(peer, service)), Quote(Target(peer, service));
    EntryAssoc(n, FixedText(EntryShape()), q, rest);
  }

  lemma EntryAssoc(n: string, fixedText: string, q: string, rest: string)
    ensures (n + fixedText + q + "]}") + rest == n + (fixedText + (q + ("]}" + rest)))
  {
    Assoc(n + fixedText + q, "]}", rest);
    Assoc(n + fixedText, q, "]}" + rest);
    Assoc(n, fixedText, q + ("]}" + rest));
  }

  // ---- The block ----------------------------------------------------------------------------

  /** The configuration lines: one entry each, every one but the last comma-terminated. */
  function ConfigLines(peer: string, services: seq<string>): seq<string> {
    if services == [] then []
    else ["  " + McpServersEntry(peer, services[0]) + (if |services| > 1 then "," else "")]
         + ConfigLines(peer, services[1..])
  }

  /** Lines as they are printed. */
  function Printed(lines: seq<string>): string {
    if lines == [] then "" else lines[0] + "\n" + Printed(lines[1..])
  }

  /** What the block's members are, in source order. */
  function Mounts(peer: string, services: seq<string>): Members {
    if services == [] then End
    else Member(Name(peer, services[0]), Command(Target(peer, services[0])), Mounts(peer, services[1..]))
  }

  lemma SkipIndent(t: string)
    ensures SkipWs("\n" + t) == SkipWs(t) && SkipWs("  " + t) == SkipWs(t)
  {
    assert ("\n" + t)[1..] == t;
    assert ("  " + t)[1..] == " " + t && (" " + t)[1..] == t;
  }

  lemma ReadEntry(peer: string, service: string, more: string, depth: nat)
    requires depth > 1
    ensures var text := "  " + (McpServersEntry(peer, service) + more);
      var k := ParseKey(text);
      && k.Done? && k.value == Name(peer, service)
      && ParseValue(k.rest, depth) == Done(Command(Target(peer, service)), more)
  {
    var body := BodyText(EntryShape(), Target(peer, service), more);
    EntryText(peer, service, more);
    SkipIndent(McpServersEntry(peer, service) + more);
    ReadKey(Name(peer, service), body);
    ReadBody(EntryShape(), Target(peer, service), more, depth);
    CommandSorted(Target(peer, service));
  }

  /** A block opens with its first entry's line. */
  lemma BlockOpens(peer: string, services: seq<string>, rest: string)
    requires services != []
    ensures var below := Printed(ConfigLines(peer, services[1..])) + ("}" + rest);
      var comma := if |services| > 1 then "," else "";
      Printed(ConfigLines(peer, services)) + ("}" + rest)
        == "  " + (McpServersEntry(peer, services[0]) + (comma + ("\n" + below)))
  {
    var lines := ConfigLines(peer, services);
    var entry := McpServersEntry(peer, services[0]);
    var comma := if |services| > 1 then "," else "";
    assert lines[1..] == ConfigLines(peer, services[1..]);
    var more := Printed(ConfigLines(peer, services[1..]));
    Assoc("  " + entry + comma + "\n", more, "}" + rest);
    var below := more + ("}" + rest);
    Assoc("  " + entry + comma, "\n", below);
    Assoc("  " + entry, comma, "\n" + below);
    Assoc("  ", entry, comma + ("\n" + below));
  }

  lemma {:induction false} ReadBlock(peer: string, services: seq<string>, rest: string, depth: nat)
    requires services != [] && depth > 1
    ensures ParseMember(Printed(ConfigLines(peer, services)) + ("}" + rest), depth)
         == Done(Mounts(peer, services), rest)
    decreases |services|
  {
    var below := Printed(ConfigLines(peer, services[1..])) + ("}" + rest);
    var more := (if |services| > 1 then "," else "") + ("\n" + below);
    BlockOpens(peer, services, rest);
    ReadEntry(peer, services[0], more, depth);
    if |services| > 1 {
      ReadBlock(peer, services[1..], rest, depth);
      CommaBelow(below, depth);
    } else {
      LastBelow(rest, depth);
      assert below == "}" + rest;
      assert more == "\n" + below;
    }
  }

  lemma CommaBelow(below: string, depth: nat)
    ensures ParseMemberTail("," + ("\n" + below), depth) == ParseMember(below, depth)
  {
    assert ("," + ("\n" + below))[1..] == "\n" + below;
    SkipIndent(below);
  }

  lemma LastBelow(rest: string, depth: nat)
    ensures ParseMemberTail("\n" + ("}" + rest), depth) == Done(End, rest)
  {
    SkipIndent("}" + rest);
    assert ("}" + rest)[1..] == rest;
  }

  lemma {:induction false} MountsBind(peer: string, services: seq<string>, k: string)
    ensures LastBinding(Mounts(peer, services), k) ==
      if exists s :: s in services && k == Name(peer, s)
      then Some(Command(Target(peer, ServiceOf(peer, k)))) else None
  {
    if services != [] {
      var rest := services[1..];
      MountsBind(peer, rest, k);
      NameServiceOf(peer, services[0]);
      forall s | s in rest ensures ServiceOf(peer, Name(peer, s)) == s { NameServiceOf(peer, s); }
      assert forall s :: s in services <==> s == services[0] || s in rest;
    }
  }

  /** The service a mount's name was made from. */
  function ServiceOf(peer: string, k: string): string {
    if |k| > |peer| then k[|peer| + 1..] else ""
  }

  lemma NameServiceOf(peer: string, service: string)
    ensures ServiceOf(peer, Name(peer, service)) == service
  {
  }

  function Pasted(peer: string, services: seq<string>): string {
    "{\n" + (Printed(ConfigLines(peer, services)) + "}")
  }

  /** An object whose first key opens on the line below the brace. */
  lemma ObjectBelow(inner: string, ms: Members, depth: nat)
    requires depth > 0 && ParseMember(inner, depth - 1) == Done(ms, "")
    requires SkipWs(inner) != "" && SkipWs(inner)[0] == '"'
    ensures ParseValue("{\n" + inner, depth) == Done(Obj(Normalize(ms)), "")
  {
    var s := SkipWs(inner);
    assert SkipWs(s) == s;
    assert ParseMember(s, depth - 1) == ParseMember(inner, depth - 1);
    SkipIndent(inner);
    assert ("{\n" + inner)[1..] == "\n" + inner;
    assert ParseObject("\n" + inner, depth - 1) == Done(Obj(Normalize(ms)), "");
  }

  /** Between braces the block is one JSON object: the mounts, normalized. */
  lemma PastedParses(peer: string, services: seq<string>)
    requires services != []
    ensures FromText(Pasted(peer, services)) == Some(Obj(Normalize(Mounts(peer, services))))
  {
    assert "}" + "" == "}";
    ReadBlock(peer, services, "", MAX_DEPTH - 1);
    OpensWithQuote(peer, services);
    ObjectBelow(Printed(ConfigLines(peer, services)) + "}", Mounts(peer, services), MAX_DEPTH);
    WholeText(Pasted(peer, services), Obj(Normalize(Mounts(peer, services))));
  }

  lemma WholeText(t: string, v: Value)
    requires ParseValue(t, MAX_DEPTH) == Done(v, "")
    ensures FromText(t) == Some(v)
  {
  }

  lemma OpensWithQuote(peer: string, services: seq<string>)
    requires services != []
    ensures var inner := SkipWs(Printed(ConfigLines(peer, services)) + "}");
      inner != "" && inner[0] == '"' && SkipWs(inner) == inner
  {
    assert "}" + "" == "}";
    BlockOpens(peer, services, "");
    var more := (if |services| > 1 then "," else "") + ("\n" + (Printed(ConfigLines(peer, services[1..])) + "}"));
    EntryOpens(peer, services[0]);
    IndentedQuote(McpServersEntry(peer, services[0]), more);
  }

  lemma EntryOpens(peer: string, service: string)
    ensures var entry := McpServersEntry(peer, service); entry != "" && entry[0] == '"'
  {
  }

  lemma IndentedQuote(entry: string, more: string)
    requires entry != "" && entry[0] == '"'
    ensures var inner := SkipWs("  " + (entry + more));
      inner != "" && inner[0] == '"' && SkipWs(inner) == inner
  {
    SkipIndent(entry + more);
    assert (entry + more)[0] == '"';
  }

  /** The pasted block is valid JSON, whatever the names hold: between braces it parses to an object
      that maps each `peer-service` to the command connecting to that service, and nothing else. */
  lemma BlockParses(peer: string, services: seq<string>)
    requires services != []
    ensures var doc := FromText(Pasted(peer, services));
      && doc.Some? && doc.value.Obj? && Sorted(doc.value.members)
      && (forall s <- services :: Get(doc.value, Name(peer, s)) == Some(Command(Target(peer, s))))
      && (forall k :: Get(doc.value, k).Some? ==> exists s :: s in services && k == Name(peer, s))
  {
    var raw := Mounts(peer, services);
    PastedParses(peer, services);
    NormalizeKeepsLast(raw, "");
    forall s | s in services ensures Lookup(Normalize(raw), Name(peer, s)) == Some(Command(Target(peer, s))) {
      NormalizeKeepsLast(raw, Name(peer, s));
      MountsBind(peer, services, Name(peer, s));
      NameServiceOf(peer, s);
    }
    forall k | Lookup(Normalize(raw), k).Some? ensures exists s :: s in services && k == Name(peer, s) {
      NormalizeKeepsLast(raw, k);
      MountsBind(peer, services, k);
    }
  }

  /** What `connect` makes of the second argument of the entry called `name`. */
  function PairMounted(doc: Option<Value>, name: string): Option<(string, string)> {
    if doc.None? then None else
    match Get(doc.value, name)
    case None => None
    case Some(entry) =>
      match Get(entry, "args")
      case Some(Arr(Cons(_, Cons(Str(target), _)))) => SplitTarget(target)
      case _ => None
  }

  /** The whole chain: what a client passes back from the pasted block splits into the very pair the
      block was printed for, exactly when the peer has no slash and neither name is empty. */
  lemma BlockRoundTrip(peer: string, services: seq<string>, service: string)
    requires service in services
    ensures PairMounted(FromText(Pasted(peer, services)), Name(peer, service)) == Some((peer, service))
      <==> peer != "" && '/' !in peer && service != ""
  {
    BlockParses(peer, services);
    SplitTargetIff(peer, service);
    CommandReads(Target(peer, service));
  }

  lemma CommandReads(target: string)
    ensures Get(Command(target), "command") == Some(Str("mcpmesh"))
    ensures Get(Command(target), "args") == Some(Pair("connect", target))
  {
    var command := Member("command", Str("mcpmesh"), End);
    assert Lookup(command, "command") == Some(Str("mcpmesh"));
    assert |"args"| != |"command"|;
    assert Command(target).members == Member("args", Pair("connect", target), command);
  }

  // ---- The instruction block ----------------------------------------------------------------

  function TrustLine(peer: string): string {
    "Tools from " + peer + " run on " + peer + "'s machine. Treat their output as you would anything else "
    + peer + " sends you."
  }

  function CodeLine(peer: string, service: string): string {
    "  claude mcp add " + Name(peer, service) + " -- mcpmesh connect " + Target(peer, service)
  }

  function CodeLines(peer: string, services: seq<string>): (r: seq<string>)
    ensures |r| == |services|
  {
    if services == [] then [] else [CodeLine(peer, services[0])] + CodeLines(peer, services[1..])
  }

  function OtherLine(peer: string, service: string): string {
    "Any other MCP client: add a stdio server with the command `mcpmesh connect " + Target(peer, service) + "`."
  }

  const CODE_HEADING := "To use in Claude Code, run:"
  const DESKTOP_HEADING := "To use in Claude Desktop, add this under \"mcpServers\" in"
  const RESTART := "then quit and restart Claude Desktop:"

  /** The whole block for a non-empty list of services. */
  function InstructionLines(peer: string, services: seq<string>, configPath: string): seq<string>
    requires services != []
  {
    [TrustLine(peer), "", CODE_HEADING] + CodeLines(peer, services)
    + ["", DESKTOP_HEADING, "  " + configPath, RESTART] + ConfigLines(peer, services)
    + ["", OtherLine(peer, services[0])]
  }

  predicate EndsWith(s: string, t: string) { |t| <= |s| && s[|s| - |t|..] == t }

  lemma EndOf(front: string, t: string)
    ensures EndsWith(front + t, t)
  {
    FrontBack(front, t);
  }

  lemma {:induction false} CodeLineAt(peer: string, services: seq<string>, i: nat)
    requires i < |services|
    ensures CodeLines(peer, services)[i] == CodeLine(peer, services[i])
  {
    if i > 0 { CodeLineAt(peer, services[1..], i - 1); }
  }

  lemma {:induction false} OneConfigLineEach(peer: string, services: seq<string>)
    ensures |ConfigLines(peer, services)| == |services|
  {
    if services != [] { OneConfigLineEach(peer, services[1..]); }
  }

  /** Behind the trust sentence, an empty line and a heading there is one command a service; it ends in
      a target that `connect` takes back to the very pair, exactly when the peer has no slash and neither
      name is empty; and the generic command on the last line is for the first service. */
  lemma ShownCommands(peer: string, services: seq<string>, configPath: string, i: nat)
    requires i < |services|
    ensures var lines := InstructionLines(peer, services, configPath);
      && |lines| == 2 * |services| + 9
      && EndsWith(lines[3 + i], " -- mcpmesh connect " + (peer + "/" + services[i]))
      && EndsWith(lines[|lines| - 1], " `mcpmesh connect " + (peer + "/" + services[0]) + "`.")
    ensures SplitTarget(peer + "/" + services[i]) == Some((peer, services[i]))
      <==> peer != "" && '/' !in peer && services[i] != ""
  {
    CodeLineAt(peer, services, i);
    OneConfigLineEach(peer, services);
    SplitTargetIff(peer, services[i]);
    var t := peer + "/" + services[i];
    Assoc("  claude mcp add " + Name(peer, services[i]), " -- mcpmesh connect ", t);
    EndOf("  claude mcp add " + Name(peer, services[i]), " -- mcpmesh connect " + t);
    OtherLineEnds(peer, services[0]);
  }

  lemma OtherLineEnds(peer: string, service: string)
    ensures EndsWith(OtherLine(peer, service), " `mcpmesh connect " + (peer + "/" + service) + "`.")
  {
    var front := "Any other MCP client: add a stdio server with the command";
    var t := Target(peer, service);
    OtherLineText();
    Assoc(front, " `mcpmesh connect ", t);
    Assoc(front, " `mcpmesh connect " + t, "`.");
    EndOf(front, " `mcpmesh connect " + t + "`.");
  }

  lemma OtherLineText()
    ensures "Any other MCP client: add a stdio server with the command `mcpmesh connect "
         == "Any other MCP client: add a stdio server with the command" + " `mcpmesh connect "
  {
  }

  /** The lines between the restart sentence and the last two are the block to paste. */
  lemma ShownBlock(peer: string, services: seq<string>, configPath: string, service: string)
    requires service in services
    ensures var n, lines := |services|, InstructionLines(peer, services, configPath);
      && |lines| == 2 * n + 9
      && (PairMounted(FromText("{\n" + (Printed(lines[n + 7..2 * n + 7]) + "}")), Name(peer, service)) == Some((peer, service))
          <==> peer != "" && '/' !in peer && service != "")
  {
    var n, lines := |services|, InstructionLines(peer, services, configPath);
    OneConfigLineEach(peer, services);
    assert lines[n + 7..2 * n + 7] == ConfigLines(peer, services);
    BlockRoundTrip(peer, services, service);
  }

  /** `client_instruction_lines`; `configPath` is where the client keeps its configuration. */
  method ClientInstructionLines(peer: string, services: seq<string>, configPath: string)
    returns (lines: seq<string>)
    ensures services == [] ==> lines == []
    ensures services != [] ==> lines == InstructionLines(peer, services, configPath)
  {
    if services == [] { return []; }
    lines := [TrustLine(peer), "", CODE_HEADING];
    ghost var head := lines;
    for i := 0 to |services|
      invariant lines + CodeLines(peer, services[i..]) == head + CodeLines(peer, services)
    {
      assert services[i..][0] == services[i] && services[i..][1..] == services[i + 1..];
      Assoc(lines, [CodeLine(peer, services[i])], CodeLines(peer, services[i + 1..]));
      lines := lines + [CodeLine(peer, services[i])];
    }
    assert lines == head + CodeLines(peer, services);
    lines := lines + ["", DESKTOP_HEADING, "  " + configPath, RESTART];
    head := lines;
    for i := 0 to |services|
      invariant lines + ConfigLines(peer, services[i..]) == head + ConfigLines(peer, services)
    {
      assert services[i..][0] == services[i] && services[i..][1..] == services[i + 1..];
      var comma := if i + 1 < |services| then "," else "";
      var line := "  " + McpServersEntry(peer, services[i]) + comma;
      Assoc(lines, [line], ConfigLines(peer, services[i + 1..]));
      lines := lines + [line];
    }
    assert lines == head + ConfigLines(peer, services);
    lines := lines + ["", OtherLine(peer, services[0])];
  }
}
