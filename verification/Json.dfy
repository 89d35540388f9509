/** The JSON values the wire carries, with the compact printer (`serde_json::to_vec`) and the
    whitespace-tolerant parser (`serde_json::from_slice`) both wire ends use. RFC 8259 sections 2
    to 7 give the grammar. Wire bytes are the UTF-8 encoding of the text. */
module Json {
  import opened Utf8
  import opened Number

  /** A number is an integer in the `i64`/`u64` range or an opaque lexeme. An object is the
      key-sorted list a `serde_json::Value` keeps. */
  datatype Value =
    | Null
    | Bool(b: bool)
    | Int(n: int)
    | Float(lexeme: string)
    | Str(s: string)
    | Arr(items: Values)
    | Obj(members: Members)

  datatype Values = Nil | Cons(head: Value, tail: Values)

  datatype Members = End | Member(key: string, value: Value, rest: Members)

  // ---- Well-formed values -------------------------------------------------------------------

  const I64_MIN := -0x8000_0000_0000_0000
  const U64_LIMIT := 0x1_0000_0000_0000_0000

  /** Rust's `Ord` on strings: by UTF-8 bytes, which is by code point. */
  predicate Less(a: string, b: string) {
    if b == "" then false
    else if a == "" then true
    else a[0] < b[0] || (a[0] == b[0] && Less(a[1..], b[1..]))
  }

  predicate Below(k: string, ms: Members) {
    ms.Member? ==> Less(k, ms.key)
  }

  predicate Sorted(ms: Members) {
    ms.Member? ==> Below(ms.key, ms.rest) && Sorted(ms.rest)
  }

  /** What a `serde_json::Value` can hold. */
  predicate WellFormed(v: Value) {
    match v
    case Int(n) => I64_MIN <= n < U64_LIMIT
    case Float(l) => LexNumber(l) == Some(|l|) && NumberOf(l) == v
    case Arr(items) => WellFormedItems(items)
    case Obj(members) => Sorted(members) && WellFormedMembers(members)
    case _ => true
  }

  predicate WellFormedItems(xs: Values) {
    xs.Cons? ==> WellFormed(xs.head) && WellFormedItems(xs.tail)
  }

  predicate WellFormedMembers(ms: Members) {
    ms.Member? ==> WellFormed(ms.value) && WellFormedMembers(ms.rest)
  }

  /** How many containers deep the value nests. */
  function Depth(v: Value): nat {
    match v
    case Arr(items) => 1 + DepthItems(items)
    case Obj(members) => 1 + DepthMembers(members)
    case _ => 0
  }

  function Max(a: nat, b: nat): nat { if a < b then b else a }

  function DepthItems(xs: Values): nat {
    if xs.Nil? then 0 else Max(Depth(xs.head), DepthItems(xs.tail))
  }

  function DepthMembers(ms: Members): nat {
    if ms.End? then 0 else Max(Depth(ms.value), DepthMembers(ms.rest))
  }

  // ---- Objects ------------------------------------------------------------------------------

  function Insert(k: string, v: Value, ms: Members): Members {
    if ms.End? || Less(k, ms.key) then Member(k, v, ms)
    else if k == ms.key then ms
    else Member(ms.key, ms.value, Insert(k, v, ms.rest))
  }

  /** The object a list of members in source order denotes: keys sorted, the last binding of a
      repeated key wins (so an earlier one never replaces it). */
  function Normalize(ms: Members): Members {
    if ms.End? then End else Insert(ms.key, ms.value, Normalize(ms.rest))
  }

  /** The first binding of `k`. */
  function Lookup(ms: Members, k: string): Option<Value> {
    if ms.End? then None else if ms.key == k then Some(ms.value) else Lookup(ms.rest, k)
  }

  /** The last binding of `k`. */
  function LastBinding(ms: Members, k: string): Option<Value> {
    if ms.End? then None
    else var later := LastBinding(ms.rest, k);
      if later.Some? then later else if ms.key == k then Some(ms.value) else None
  }

  /** `Value::get` with a string key: `None` on anything but an object. */
  function Get(v: Value, k: string): Option<Value> {
    if v.Obj? then Lookup(v.members, k) else None
  }

  /** `v` is an object whose member `k` is `x`. */
  predicate Has(v: Value, k: string, x: Value) { v.Obj? && Lookup(v.members, k) == Some(x) }

  /** `v` is no object, or has no member `k`. */
  predicate Lacks(v: Value, k: string) { v.Obj? ==> Lookup(v.members, k).None? }

  /** `k: x` stands among the members. */
  predicate Among(ms: Members, k: string, x: Value) {
    ms.Member? && ((ms.key == k && ms.value == x) || Among(ms.rest, k, x))
  }

  lemma {:induction false} AmongAbove(ms: Members, k: string, x: Value)
    requires Sorted(ms) && Below(k, ms)
    ensures !Among(ms, k, x)
  {
    if ms.Member? {
      LessStrict(k, ms.key);
      if ms.rest.Member? { LessTransitive(k, ms.key, ms.rest.key); }
      AmongAbove(ms.rest, k, x);
    }
  }

  /** In an object's sorted members a lookup finds exactly what stands among them. */
  lemma {:induction false} LookupIff(ms: Members, k: string, x: Value)
    requires Sorted(ms)
    ensures Lookup(ms, k) == Some(x) <==> Among(ms, k, x)
  {
    if ms.Member? {
      LookupIff(ms.rest, k, x);
      if ms.key == k { AmongAbove(ms.rest, k, x); }
    }
  }

  lemma {:induction false} LessStrict(a: string, b: string)
    ensures !(Less(a, b) && Less(b, a))
    ensures a != b ==> Less(a, b) || Less(b, a)
    ensures !Less(a, a)
  {
    if a != "" && b != "" {
      LessStrict(a[1..], b[1..]);
      assert a == [a[0]] + a[1..] && b == [b[0]] + b[1..];
    }
    if a != "" { LessStrict(a[1..], a[1..]); }
  }

  lemma {:induction false} LessTransitive(a: string, b: string, c: string)
    requires Less(a, b) && Less(b, c)
    ensures Less(a, c)
  {
    if a != "" && a[0] == b[0] == c[0] { LessTransitive(a[1..], b[1..], c[1..]); }
  }

  lemma {:induction false} BelowMissing(ms: Members, k: string)
    requires Sorted(ms) && Below(k, ms)
    ensures Lookup(ms, k).None?
  {
    if ms.Member? {
      LessStrict(k, ms.key);
      if ms.rest.Member? { LessTransitive(k, ms.key, ms.rest.key); }
      BelowMissing(ms.rest, k);
    }
  }

  lemma {:induction false} InsertLookup(k: string, v: Value, ms: Members, q: string)
    requires Sorted(ms)
    ensures Sorted(Insert(k, v, ms))
    ensures forall low :: Less(low, k) && Below(low, ms) ==> Below(low, Insert(k, v, ms))
    ensures Lookup(Insert(k, v, ms), q)
         == if q == k && Lookup(ms, k).None? then Some(v) else Lookup(ms, q)
  {
    if ms.Member? {
      LessStrict(k, ms.key);
      if Less(k, ms.key) {
        BelowMissing(ms, k);
      } else if k != ms.key {
        InsertLookup(k, v, ms.rest, q);
      }
    }
  }

  /** Reading an object keeps its keys sorted and, of a repeated key, the last binding. */
  lemma {:induction false} NormalizeKeepsLast(ms: Members, k: string)
    ensures Sorted(Normalize(ms))
    ensures Lookup(Normalize(ms), k) == LastBinding(ms, k)
  {
    if ms.Member? {
      NormalizeKeepsLast(ms.rest, k);
      InsertLookup(ms.key, ms.value, Normalize(ms.rest), k);
    }
  }

  lemma {:induction false} NormalizeSorted(ms: Members)
    requires Sorted(ms)
    ensures Normalize(ms) == ms
  {
    if ms.Member? { NormalizeSorted(ms.rest); }
  }

  lemma MemberShape(k: string, v: Value, rest: Members)
    requires WellFormed(v) && Sorted(rest) && WellFormedMembers(rest) && Below(k, rest)
    ensures var ms := Member(k, v, rest);
      && WellFormed(Obj(ms)) && DepthMembers(ms) == Max(Depth(v), DepthMembers(rest))
      && Depth(Obj(ms)) == 1 + DepthMembers(ms)
  {
  }

  lemma {:induction false} InsertWellFormed(k: string, v: Value, ms: Members)
    requires WellFormed(v) && WellFormedMembers(ms)
    ensures WellFormedMembers(Insert(k, v, ms))
    ensures DepthMembers(Insert(k, v, ms)) <= Max(Depth(v), DepthMembers(ms))
  {
    if ms.Member? { InsertWellFormed(k, v, ms.rest); }
  }

  lemma {:induction false} NormalizeWellFormed(ms: Members)
    requires WellFormedMembers(ms)
    ensures WellFormed(Obj(Normalize(ms)))
    ensures DepthMembers(Normalize(ms)) <= DepthMembers(ms)
  {
    NormalizeKeepsLast(ms, "");
    if ms.Member? {
      NormalizeWellFormed(ms.rest);
      InsertWellFormed(ms.key, ms.value, Normalize(ms.rest));
    }
  }

  // ---- The compact printer ------------------------------------------------------------------

  function Digit(d: nat): (c: char)
    requires d < 16
    ensures HexValue(c) == Some(d)
    ensures d < 10 ==> IsDigit(c)
  {
    if d < 10 then (d + '0' as int) as char else (d - 10 + 'a' as int) as char
  }

  function NatDigits(n: nat): string {
    if n < 10 then [Digit(n)] else NatDigits(n / 10) + [Digit(n % 10)]
  }

  function Decimal(n: int): string {
    if n < 0 then "-" + NatDigits(-n) else NatDigits(n)
  }

  function EscapeChar(c: char): (r: string)
    ensures r != "" && r[0] != '"' && forall x <- r :: x >= ' '
  {
    if c == '"' then "\\\""
    else if c == '\\' then "\\\\"
    else if c == '\U{8}' then "\\b"
    else if c == '\t' then "\\t"
    else if c == '\n' then "\\n"
    else if c == '\U{c}' then "\\f"
    else if c == '\r' then "\\r"
    else if c < ' ' then "\\u00" + [Digit(c as int / 16), Digit(c as int % 16)]
    else [c]
  }

  function Escape(s: string): string {
    if s == "" then "" else EscapeChar(s[0]) + Escape(s[1..])
  }

  function Quote(s: string): string {
    "\"" + Escape(s) + "\""
  }

  function Print(v: Value): string {
    match v
    case Null => "null"
    case Bool(b) => if b then "true" else "false"
    case Int(n) => Decimal(n)
    case Float(l) => l
    case Str(s) => Quote(s)
    case Arr(items) => "[" + (if items.Nil? then "]" else PrintItem(items))
    case Obj(members) => "{" + (if members.End? then "}" else PrintMember(members))
  }

  /** An item and everything up to the array's closing bracket. */
  function PrintItem(xs: Values): string
    requires xs.Cons?
  {
    Print(xs.head) + (if xs.tail.Nil? then "]" else "," + PrintItem(xs.tail))
  }

  /** A member and everything up to the object's closing brace. */
  function PrintMember(ms: Members): string
    requires ms.Member?
  {
    Quote(ms.key) + ":" + Print(ms.value) + (if ms.rest.End? then "}" else "," + PrintMember(ms.rest))
  }

  // ---- The parser ---------------------------------------------------------------------------

  datatype Parsed<+T> = Fail | Done(value: T, rest: string)

  function SkipWs(s: string): (r: string)
    ensures |r| <= |s|
    ensures r == "" || !IsWs(r[0])
  {
    if s != "" && IsWs(s[0]) then SkipWs(s[1..]) else s
  }

  function HexValue(c: char): (r: Option<nat>)
    ensures r.Some? ==> r.value < 16
  {
    if IsDigit(c) then Some(c as int - '0' as int)
    else if 'a' <= c <= 'f' then Some(c as int - 'a' as int + 10)
    else if 'A' <= c <= 'F' then Some(c as int - 'A' as int + 10)
    else None
  }

  /** Four hex digits. */
  function Hex4(s: string): (r: Option<nat>)
    ensures r.Some? ==> |s| >= 4 && r.value < 0x1_0000
  {
    if |s| < 4 then None else
    match (HexValue(s[0]), HexValue(s[1]), HexValue(s[2]), HexValue(s[3]))
    case (Some(a), Some(b), Some(c), Some(d)) => Some(((a * 16 + b) * 16 + c) * 16 + d)
    case _ => None
  }

  /** The character a `\u` escape names: `s` follows the `u`. A high surrogate needs a second
      escape holding a low one; a lone surrogate of either kind is refused. */
  function UnicodeEscape(s: string): (r: Parsed<char>)
    ensures r.Done? ==> |r.rest| < |s|
  {
    match Hex4(s)
    case None => Fail
    case Some(n) =>
      if IsScalar(n) then Done(n as char, s[4..])
      else if n >= 0xDC00 || |s| < 6 || s[4..6] != "\\u" then Fail
      else match Hex4(s[6..])
        case Some(m) =>
          if 0xDC00 <= m < 0xE000
          then Done((0x1_0000 + (n - 0xD800) * 0x400 + (m - 0xDC00)) as char, s[10..]) else Fail
        case None => Fail
  }

  /** The character an escape names: `s` follows the backslash. */
  function Unescape(s: string): (r: Parsed<char>)
    ensures r.Done? ==> |r.rest| < |s|
  {
    if s == "" then Fail
    else if s[0] == '"' || s[0] == '\\' || s[0] == '/' then Done(s[0], s[1..])
    else if s[0] == 'b' then Done('\U{8}', s[1..])
    else if s[0] == 'f' then Done('\U{c}', s[1..])
    else if s[0] == 'n' then Done('\n', s[1..])
    else if s[0] == 'r' then Done('\r', s[1..])
    else if s[0] == 't' then Done('\t', s[1..])
    else if s[0] == 'u' then UnicodeEscape(s[1..])
    else Fail
  }

  function Prepend(c: char, r: Parsed<string>): Parsed<string> {
    if r.Fail? then Fail else Done([c] + r.value, r.rest)
  }

  /** The rest of a string literal: `s` follows the opening quote (or an earlier character). */
  function ParseChars(s: string): (r: Parsed<string>)
    ensures r.Done? ==> |r.rest| < |s|
    decreases |s|
  {
    if s == "" then Fail
    else if s[0] == '"' then Done("", s[1..])
    else if s[0] == '\\' then
      var e := Unescape(s[1..]);
      if e.Fail? then Fail else Prepend(e.value, ParseChars(e.rest))
    else if s[0] < ' ' then Fail
    else Prepend(s[0], ParseChars(s[1..]))
  }

  /** The number a run of digits denotes. */
  function NatOf(s: string): nat {
    if s == "" || !IsDigit(s[|s| - 1]) then 0
    else NatOf(s[..|s| - 1]) * 10 + (s[|s| - 1] as int - '0' as int)
  }

  /** The value a number lexeme denotes: an integer lexeme in the `i64`/`u64` range is exact; every
      other number (and `-0`) is a float. */
  function NumberOf(l: string): Value
    requires LexNumber(l) == Some(|l|)
  {
    var sign := Sign(l);
    if DigitRun(l[sign..]) < |l| - sign then Float(l)
    else
      var m: int := NatOf(l[sign..]);
      if sign == 0 && m < U64_LIMIT then Int(m)
      else if sign == 1 && 0 < m <= -I64_MIN then Int(-m)
      else Float(l)
  }

  /** The deepest nesting `serde_json` 1.0 reads: its parser starts with a depth budget of 128 and
      refuses the container that exhausts it. */
  const MAX_DEPTH: nat := 127

  function Ident(s: string, word: string, v: Value): (r: Parsed<Value>)
    ensures r.Done? && word != "" ==> |r.rest| < |s|
  {
    if word <= s then Done(v, s[|word|..]) else Fail
  }

  function ParseNumber(s: string): (r: Parsed<Value>)
    ensures r.Done? ==> |r.rest| < |s|
  {
    match LexNumber(s)
    case None => Fail
    case Some(k) => LexPrefix(s, k); Done(NumberOf(s[..k]), s[k..])
  }

  /** A value that is not a container; `s` opens with it. */
  function ParseScalar(s: string): (r: Parsed<Value>)
    requires s != ""
    ensures r.Done? ==> |r.rest| < |s|
    ensures r.Done? ==> r.value.Null? || r.value.Bool? || r.value.Str? || r == ParseNumber(s)
  {
    if s[0] == 'n' then Ident(s, "null", Null)
    else if s[0] == 't' then Ident(s, "true", Bool(true))
    else if s[0] == 'f' then Ident(s, "false", Bool(false))
    else if s[0] == '"' then
      var r := ParseChars(s[1..]);
      if r.Fail? then Fail else Done(Str(r.value), r.rest)
    else ParseNumber(s)
  }

  /** One value, after optional whitespace, opening at most `depth` nested containers. */
  function ParseValue(text: string, depth: nat): (r: Parsed<Value>)
    ensures r.Done? ==> |r.rest| < |text|
    decreases |text|, 1
  {
    var s := SkipWs(text);
    if s == "" then Fail
    else if s[0] == '[' then if depth == 0 then Fail else ParseArray(s[1..], depth - 1)
    else if s[0] == '{' then if depth == 0 then Fail else ParseObject(s[1..], depth - 1)
    else ParseScalar(s)
  }

  function ParseArray(text: string, depth: nat): (r: Parsed<Value>)
    ensures r.Done? ==> |r.rest| < |text|
    decreases |text|, 2
  {
    var s := SkipWs(text);
    if s != "" && s[0] == ']' then Done(Arr(Nil), s[1..])
    else
      var x := ParseValue(s, depth);
      if x.Fail? then Fail else
      var xs := ParseTail(x.rest, depth);
      if xs.Fail? then Fail else Done(Arr(Cons(x.value, xs.value)), xs.rest)
  }

  function ParseTail(text: string, depth: nat): (r: Parsed<Values>)
    ensures r.Done? ==> |r.rest| < |text|
    decreases |text|, 0
  {
    var s := SkipWs(text);
    if s == "" then Fail
    else if s[0] == ']' then Done(Nil, s[1..])
    else if s[0] != ',' then Fail
    else
      var x := ParseValue(s[1..], depth);
      if x.Fail? then Fail else
      var xs := ParseTail(x.rest, depth);
      if xs.Fail? then Fail else Done(Cons(x.value, xs.value), xs.rest)
  }

  function ParseObject(text: string, depth: nat): (r: Parsed<Value>)
    ensures r.Done? ==> |r.rest| < |text|
    decreases |text|, 2
  {
    var s := SkipWs(text);
    if s != "" && s[0] == '}' then Done(Obj(End), s[1..])
    else
      var ms := ParseMember(s, depth);
      if ms.Fail? then Fail else Done(Obj(Normalize(ms.value)), ms.rest)
  }

  /** `"key":`. */
  function ParseKey(text: string): (r: Parsed<string>)
    ensures r.Done? ==> |r.rest| < |text|
  {
    var s := SkipWs(text);
    if s == "" || s[0] != '"' then Fail else
    var k := ParseChars(s[1..]);
    if k.Fail? then Fail else
    var c := SkipWs(k.rest);
    if c == "" || c[0] != ':' then Fail else Done(k.value, c[1..])
  }

  /** `"key": value` and then the rest of the object, in source order. */
  function ParseMember(text: string, depth: nat): (r: Parsed<Members>)
    ensures r.Done? ==> |r.rest| < |text|
    decreases |text|, 1
  {
    var k := ParseKey(text);
    if k.Fail? then Fail else
    var x := ParseValue(k.rest, depth);
    if x.Fail? then Fail else
    var ms := ParseMemberTail(x.rest, depth);
    if ms.Fail? then Fail else Done(Member(k.value, x.value, ms.value), ms.rest)
  }

  function ParseMemberTail(text: string, depth: nat): (r: Parsed<Members>)
    ensures r.Done? ==> |r.rest| < |text|
    decreases |text|, 0
  {
    var s := SkipWs(text);
    if s == "" then Fail
    else if s[0] == '}' then Done(End, s[1..])
    else if s[0] != ',' then Fail
    else ParseMember(s[1..], depth)
  }

  /** `serde_json::from_str`: one value and nothing but whitespace after it. */
  function FromText(s: string): Option<Value> {
    match ParseValue(s, MAX_DEPTH)
    case Fail => None
    case Done(v, rest) => if SkipWs(rest) == "" then Some(v) else None
  }

  /** `serde_json::from_slice`. */
  function FromSlice(b: Bytes): Option<Value> {
    match Decode(b)
    case None => None
    case Some(t) => FromText(t)
  }

  /** `serde_json::to_vec`. */
  function ToVec(v: Value): Bytes {
    Encode(Print(v))
  }

  // ---- Numbers round trip -------------------------------------------------------------------

  lemma {:induction false} NatDigitsRead(n: nat)
    ensures NatDigits(n) != "" && NatOf(NatDigits(n)) == n
    ensures DigitRun(NatDigits(n)) == |NatDigits(n)|
    ensures NatDigits(n)[0] == '0' <==> n == 0
    ensures forall c <- NatDigits(n) :: IsDigit(c)
  {
    var d := NatDigits(n);
    if n >= 10 {
      var front := NatDigits(n / 10);
      NatDigitsRead(n / 10);
      assert d[..|d| - 1] == front;
      DigitsAreRun(d);
    } else {
      assert d[1..] == "";
      assert d[..0] == "";
    }
  }

  lemma NegativeRead(d: string, m: int)
    requires d != "" && DigitRun(d) == |d| && NatOf(d) == m && 0 < m <= -I64_MIN && LexNumber("-" + d) == Some(|d| + 1)
    ensures NumberOf("-" + d) == Int(-m)
  {
    FrontBack("-", d);
  }

  lemma PositiveRead(d: string, m: nat)
    requires d != "" && DigitRun(d) == |d| && NatOf(d) == m < U64_LIMIT && LexNumber(d) == Some(|d|)
    ensures NumberOf(d) == Int(m)
  {
    assert IsDigit(d[0]) && Sign(d) == 0;
    assert d[0..] == d;
  }

  /** An integer in range prints as a number that reads back as itself. */
  lemma DecimalRead(n: int)
    requires I64_MIN <= n < U64_LIMIT
    ensures LexNumber(Decimal(n)) == Some(|Decimal(n)|) && NumberOf(Decimal(n)) == Int(n)
  {
    var m := if n < 0 then -n else n;
    NatDigitsRead(m);
    var d := NatDigits(m);
    DigitsLex(d);
    if n < 0 { NegativeRead(d, m); } else { PositiveRead(d, m); }
  }

  // ---- Strings round trip -------------------------------------------------------------------

  lemma UnescapeEscaped(c: char, rest: string)
    requires EscapeChar(c) != [c]
    ensures EscapeChar(c)[0] == '\\'
    ensures Unescape(EscapeChar(c)[1..] + rest) == Done(c, rest)
  {
    var t := EscapeChar(c)[1..] + rest;
    if |EscapeChar(c)| == 6 {
      var a, b := Digit(c as int / 16), Digit(c as int % 16);
      assert t == "u00" + [a, b] + rest;
      assert t[1..] == "00" + [a, b] + rest;
      assert Hex4(t[1..]) == Some(c as int);
      assert t[1..][4..] == rest;
    } else {
      assert t[1..] == rest;
    }
  }

  lemma ParseEscapedChar(c: char, more: string)
    ensures ParseChars(EscapeChar(c) + more) == Prepend(c, ParseChars(more))
  {
    var t := EscapeChar(c) + more;
    assert t[1..] == EscapeChar(c)[1..] + more;
    if EscapeChar(c) == [c] {
      assert EscapeChar(c)[1..] + more == more;
    } else {
      UnescapeEscaped(c, more);
    }
  }

  /** A quoted string reads back as itself, wherever the text goes on. */
  lemma {:induction false} ParseQuoted(s: string, rest: string)
    ensures ParseChars(Escape(s) + "\"" + rest) == Done(s, rest)
  {
    if s == "" {
      assert Escape(s) + "\"" + rest == "\"" + rest;
      assert ("\"" + rest)[1..] == rest;
    } else {
      var more := Escape(s[1..]) + "\"" + rest;
      assert Escape(s) + "\"" + rest == EscapeChar(s[0]) + more;
      ParseQuoted(s[1..], rest);
      ParseEscapedChar(s[0], more);
      assert s == [s[0]] + s[1..];
    }
  }

  // ---- Values round trip --------------------------------------------------------------------

  /** What a printed value opens with: never whitespace, a comma or a closing bracket. */
  lemma PrintOpens(v: Value)
    requires WellFormed(v)
    ensures Print(v) != ""
    ensures !IsWs(Print(v)[0]) && Print(v)[0] != ']'
    ensures Print(v)[0] == '[' <==> v.Arr?
    ensures Print(v)[0] == '{' <==> v.Obj?
  {
    match v
    case Int(n) => DecimalRead(n); LexOpens(Decimal(n));
    case Float(l) => LexOpens(l);
    case _ =>
  }

  lemma ParsePrintedNumber(p: string, rest: string)
    requires p != "" && LexNumber(p) == Some(|p|) && Stop(rest)
    ensures ParseNumber(p + rest) == Done(NumberOf(p), rest)
  {
    LexExtends(p, rest);
    FrontBack(p, rest);
  }

  lemma ParseScalarQuoted(s: string, rest: string)
    ensures ParseScalar(Quote(s) + rest) == Done(Str(s), rest)
  {
    var t := Quote(s) + rest;
    QuotedTail(Escape(s), rest);
    ParseQuoted(s, rest);
    assert t[0] == '"';
  }

  lemma QuotedTail(e: string, rest: string)
    ensures ("\"" + e + "\"" + rest)[1..] == e + "\"" + rest
  {
  }

  lemma ReadIdent(word: string, v: Value, rest: string)
    ensures Ident(word + rest, word, v) == Done(v, rest)
  {
    FrontBack(word, rest);
  }

  lemma ParsePrintedWord(v: Value, rest: string)
    requires v.Null? || v.Bool? || v.Str?
    ensures Print(v) != "" && ParseScalar(Print(v) + rest) == Done(v, rest)
  {
    if v.Str? {
      ParseScalarQuoted(v.s, rest);
    } else {
      ReadIdent(Print(v), v, rest);
      assert (Print(v) + rest)[0] == Print(v)[0];
    }
  }

  lemma ParseScalarNumber(p: string, rest: string)
    requires p != "" && LexNumber(p) == Some(|p|) && Stop(rest)
    ensures ParseScalar(p + rest) == Done(NumberOf(p), rest)
  {
    var t := p + rest;
    assert ParseScalar(t) == ParseNumber(t) by {
      LexOpens(p);
      assert t[0] == p[0];
    }
    ParsePrintedNumber(p, rest);
  }

  lemma ParsePrintedScalar(v: Value, rest: string)
    requires WellFormed(v) && Stop(rest) && !v.Arr? && !v.Obj?
    ensures Print(v) != "" && ParseScalar(Print(v) + rest) == Done(v, rest)
  {
    match v
    case Int(n) => DecimalRead(n); ParseScalarNumber(Decimal(n), rest);
    case Float(l) => ParseScalarNumber(l, rest);
    case _ => ParsePrintedWord(v, rest);
  }

  lemma ParsePrintedLeaf(v: Value, rest: string, depth: nat)
    requires WellFormed(v) && Stop(rest) && !v.Arr? && !v.Obj?
    ensures ParseValue(Print(v) + rest, depth) == Done(v, rest)
  {
    PrintOpens(v);
    assert (Print(v) + rest)[0] == Print(v)[0];
    ParsePrintedScalar(v, rest);
  }

  /** A printed value reads back as itself wherever the text goes on, exactly when its nesting is
      within the budget. */
  lemma {:induction false} ParsePrinted(v: Value, rest: string, depth: nat)
    requires WellFormed(v) && Stop(rest)
    ensures ParseValue(Print(v) + rest, depth) == if Depth(v) <= depth then Done(v, rest) else Fail
    decreases v, 1
  {
    match v
    case Arr(items) =>
      if depth > 0 { ParsePrintedArray(items, rest, depth - 1); }
      ParseOpenBracket(items, rest, depth);
    case Obj(members) =>
      if depth > 0 { ParsePrintedObject(members, rest, depth - 1); }
      ParseOpenBrace(members, rest, depth);
    case _ => ParsePrintedLeaf(v, rest, depth);
  }

  lemma ParseOpenBracket(items: Values, rest: string, depth: nat)
    ensures var t := Print(Arr(items)) + rest;
      t != "" && ParseValue(t, depth) == if depth == 0 then Fail else ParseArray(t[1..], depth - 1)
  {
    assert (Print(Arr(items)) + rest)[0] == '[';
  }

  lemma ParseOpenBrace(members: Members, rest: string, depth: nat)
    ensures var t := Print(Obj(members)) + rest;
      t != "" && ParseValue(t, depth) == if depth == 0 then Fail else ParseObject(t[1..], depth - 1)
  {
    assert (Print(Obj(members)) + rest)[0] == '{';
  }

  lemma {:induction false} ParsePrintedArray(xs: Values, rest: string, depth: nat)
    requires WellFormedItems(xs)
    ensures ParseArray((Print(Arr(xs)) + rest)[1..], depth)
         == if DepthItems(xs) <= depth then Done(Arr(xs), rest) else Fail
    decreases xs, 2
  {
    if xs.Nil? {
      assert ("[]" + rest)[1..] == "]" + rest;
    } else {
      AssocDrop('[', PrintItem(xs), rest);
      ParsePrintedItem(xs, rest, depth);
      PrintOpens(xs.head);
      assert (PrintItem(xs) + rest)[0] == Print(xs.head)[0];
    }
  }

  /** An item is read as a value and then the rest of the array. */
  lemma {:induction false} ParsePrintedItem(xs: Values, rest: string, depth: nat)
    requires xs.Cons? && WellFormedItems(xs)
    ensures var x := ParseValue(PrintItem(xs) + rest, depth);
      var tail := if DepthItems(xs.tail) <= depth then Done(xs.tail, rest) else Fail;
      && x.Done? == (Depth(xs.head) <= depth)
      && (x.Done? ==> x.value == xs.head && ParseTail(x.rest, depth) == tail)
    decreases xs, 1
  {
    var more := (if xs.tail.Nil? then "]" else "," + PrintItem(xs.tail)) + rest;
    Assoc(Print(xs.head), if xs.tail.Nil? then "]" else "," + PrintItem(xs.tail), rest);
    ParsePrinted(xs.head, more, depth);
    if xs.tail.Nil? {
      assert more[1..] == rest;
    } else {
      AssocDrop(',', PrintItem(xs.tail), rest);
      ParsePrintedItem(xs.tail, rest, depth);
    }
  }

  lemma {:induction false} ParsePrintedObject(ms: Members, rest: string, depth: nat)
    requires Sorted(ms) && WellFormedMembers(ms)
    ensures ParseObject((Print(Obj(ms)) + rest)[1..], depth)
         == if DepthMembers(ms) <= depth then Done(Obj(ms), rest) else Fail
    decreases ms, 2
  {
    if ms.End? {
      assert ("{}" + rest)[1..] == "}" + rest;
    } else {
      AssocDrop('{', PrintMember(ms), rest);
      ParsePrintedMember(ms, rest, depth);
      NormalizeSorted(ms);
      assert (PrintMember(ms) + rest)[0] == '"';
    }
  }

  lemma ParsePrintedKey(k: string, rest: string)
    ensures ParseKey(Quote(k) + ":" + rest) == Done(k, rest)
  {
    var t := Quote(k) + ":" + rest;
    Assoc(Quote(k), ":", rest);
    QuotedTail(Escape(k), ":" + rest);
    ParseQuoted(k, ":" + rest);
    FrontBack(":", rest);
    assert t[0] == '"';
  }

  lemma {:induction false} ParsePrintedMember(ms: Members, rest: string, depth: nat)
    requires ms.Member? && WellFormedMembers(ms)
    ensures ParseMember(PrintMember(ms) + rest, depth)
         == if DepthMembers(ms) <= depth then Done(ms, rest) else Fail
    decreases ms, 1
  {
    var more := AfterMember(ms) + rest;
    MemberText(ms, rest);
    ParsePrintedKey(ms.key, Print(ms.value) + more);
    ParsePrinted(ms.value, more, depth);
    if !ms.rest.End? { ParsePrintedMember(ms.rest, rest, depth); }
    ParseAfterMember(ms, rest, depth);
  }

  /** What follows a member's value. */
  function AfterMember(ms: Members): string
    requires ms.Member?
  {
    if ms.rest.End? then "}" else "," + PrintMember(ms.rest)
  }

  lemma MemberText(ms: Members, rest: string)
    requires ms.Member?
    ensures PrintMember(ms) + rest == Quote(ms.key) + ":" + (Print(ms.value) + (AfterMember(ms) + rest))
  {
    var tail := AfterMember(ms);
    Assoc(Quote(ms.key) + ":", Print(ms.value), tail);
    Assoc(Quote(ms.key) + ":", Print(ms.value) + tail, rest);
    Assoc(Print(ms.value), tail, rest);
  }

  lemma ParseAfterMember(ms: Members, rest: string, depth: nat)
    requires ms.Member?
    ensures ParseMemberTail(AfterMember(ms) + rest, depth)
         == if ms.rest.End? then Done(End, rest) else ParseMember(PrintMember(ms.rest) + rest, depth)
  {
    if ms.rest.End? { FrontBack("}", rest); } else { AssocDrop(',', PrintMember(ms.rest), rest); }
  }

  /** `from_slice` inverts `to_vec` on every value nested at most 127 deep and refuses what `to_vec`
      makes of any deeper one. */
  lemma FromSliceToVec(v: Value)
    requires WellFormed(v)
    ensures FromSlice(ToVec(v)) == if Depth(v) <= MAX_DEPTH then Some(v) else None
  {
    DecodeEncode(Print(v));
    assert Print(v) + "" == Print(v);
    ParsePrinted(v, "", MAX_DEPTH);
  }

  // ---- Compact output stays on one line -----------------------------------------------------

  lemma {:induction false} EscapeOneLine(s: string)
    ensures '\n' !in Escape(s)
  {
    if s != "" { EscapeOneLine(s[1..]); }
  }

  /** Compact text never holds a line break. */
  lemma {:induction false} PrintOneLine(v: Value)
    requires WellFormed(v)
    ensures '\n' !in Print(v)
    decreases v, 0
  {
    match v
    case Int(n) => DecimalRead(n); NumberOneLine(Decimal(n));
    case Float(l) => NumberOneLine(l);
    case Str(s) => EscapeOneLine(s);
    case Arr(items) => if items.Cons? { PrintItemOneLine(items); }
    case Obj(members) => if members.Member? { PrintMemberOneLine(members); }
    case _ =>
  }

  lemma {:induction false} PrintItemOneLine(xs: Values)
    requires xs.Cons? && WellFormedItems(xs)
    ensures '\n' !in PrintItem(xs)
    decreases xs, 1
  {
    PrintOneLine(xs.head);
    if xs.tail.Cons? { PrintItemOneLine(xs.tail); }
  }

  lemma {:induction false} PrintMemberOneLine(ms: Members)
    requires ms.Member? && WellFormedMembers(ms)
    ensures '\n' !in PrintMember(ms)
    decreases ms, 1
  {
    EscapeOneLine(ms.key);
    PrintOneLine(ms.value);
    if ms.rest.Member? { PrintMemberOneLine(ms.rest); }
  }

  const NEWLINE: byte := 10

  /** ... and no wire encoding of a value holds the frame terminator. */
  lemma ToVecOneLine(v: Value)
    requires WellFormed(v)
    ensures NEWLINE !in ToVec(v)
  {
    PrintOneLine(v);
    AsciiByte(Print(v), '\n');
  }

  // ---- The parser yields only what a `Value` can hold -----------------------------------------

  lemma {:induction false} ParseValueSound(text: string, depth: nat)
    ensures var r := ParseValue(text, depth);
      r.Done? ==> WellFormed(r.value) && Depth(r.value) <= depth
    decreases |text|, 1
  {
    var s := SkipWs(text);
    if s != "" && depth > 0 && s[0] == '[' {
      ParseArraySound(s[1..], depth - 1);
    } else if s != "" && depth > 0 && s[0] == '{' {
      ParseObjectSound(s[1..], depth - 1);
    } else if s != "" {
      ParseScalarSound(s);
    }
  }

  lemma ParseScalarSound(s: string)
    requires s != ""
    ensures var r := ParseScalar(s); r.Done? ==> WellFormed(r.value) && Depth(r.value) == 0
  {
    if ParseNumber(s).Done? { NumberOfSound(s, LexNumber(s).value); }
  }

  lemma NumberOfSound(s: string, k: nat)
    requires LexNumber(s) == Some(k)
    ensures LexNumber(s[..k]) == Some(k) && WellFormed(NumberOf(s[..k])) && Depth(NumberOf(s[..k])) == 0
  {
    LexPrefix(s, k);
  }

  lemma {:induction false} ParseArraySound(text: string, depth: nat)
    ensures var r := ParseArray(text, depth);
      r.Done? ==> r.value.Arr? && WellFormedItems(r.value.items) && DepthItems(r.value.items) <= depth
    decreases |text|, 2
  {
    var s := SkipWs(text);
    ParseValueSound(s, depth);
    if ParseValue(s, depth).Done? { ParseTailSound(ParseValue(s, depth).rest, depth); }
  }

  lemma {:induction false} ParseTailSound(text: string, depth: nat)
    ensures var r := ParseTail(text, depth);
      r.Done? ==> WellFormedItems(r.value) && DepthItems(r.value) <= depth
    decreases |text|, 0
  {
    var s := SkipWs(text);
    if s != "" {
      ParseValueSound(s[1..], depth);
      if ParseValue(s[1..], depth).Done? { ParseTailSound(ParseValue(s[1..], depth).rest, depth); }
    }
  }

  lemma {:induction false} ParseObjectSound(text: string, depth: nat)
    ensures var r := ParseObject(text, depth);
      r.Done? ==> r.value.Obj? && WellFormed(r.value) && DepthMembers(r.value.members) <= depth
    decreases |text|, 2
  {
    var s := SkipWs(text);
    ParseMemberSound(s, depth);
    if ParseMember(s, depth).Done? { NormalizeWellFormed(ParseMember(s, depth).value); }
  }

  lemma {:induction false} ParseMemberSound(text: string, depth: nat)
    ensures var r := ParseMember(text, depth);
      r.Done? ==> WellFormedMembers(r.value) && DepthMembers(r.value) <= depth
    decreases |text|, 1
  {
    var k := ParseKey(text);
    if k.Done? {
      ParseValueSound(k.rest, depth);
      var x := ParseValue(k.rest, depth);
      if x.Done? { ParseMemberTailSound(x.rest, depth); }
    }
  }

  lemma {:induction false} ParseMemberTailSound(text: string, depth: nat)
    ensures var r := ParseMemberTail(text, depth);
      r.Done? ==> WellFormedMembers(r.value) && DepthMembers(r.value) <= depth
    decreases |text|, 0
  {
    var s := SkipWs(text);
    if s != "" { ParseMemberSound(s[1..], depth); }
  }

  /** Whatever bytes arrive, an accepted frame is a value both wire ends can write and read again. */
  lemma FromSliceSound(b: Bytes)
    requires FromSlice(b).Some?
    ensures WellFormed(FromSlice(b).value) && Depth(FromSlice(b).value) <= MAX_DEPTH
    ensures FromSlice(ToVec(FromSlice(b).value)) == FromSlice(b)
  {
    ParseValueSound(Decode(b).value, MAX_DEPTH);
    FromSliceToVec(FromSlice(b).value);
  }
}
