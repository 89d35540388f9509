/** The grammar of JSON texts (RFC 8259, sections 2 to 7) as syntax trees, apart from any parser: what a
    text spells out, and what value it denotes. The parser accepts exactly these texts, with exactly
    these values, up to its nesting limit. */
module Grammar {
  import opened Utf8
  import opened Number
  import opened Json

  // ---- Strings ------------------------------------------------------------------------------

  /** What a hex digit, of either case, counts. */
  function HexDigit(c: char): Option<nat> {
    if '0' <= c <= '9' then Some(c as int - '0' as int)
    else if 'A' <= c <= 'F' then Some(10 + (c as int - 'A' as int))
    else if 'a' <= c <= 'f' then Some(10 + (c as int - 'a' as int))
    else None
  }

  predicate FourHex(s: string) {
    |s| == 4 && forall i :: 0 <= i < 4 ==> HexDigit(s[i]).Some?
  }

  /** The number four hex digits spell. */
  function CodePoint(s: string): nat
    requires FourHex(s)
  {
    0x1000 * HexDigit(s[0]).value + 0x100 * HexDigit(s[1]).value + 0x10 * HexDigit(s[2]).value + HexDigit(s[3]).value
  }

  lemma Hex4Is(s: string)
    requires |s| == 4
    ensures Hex4(s).Some? <==> FourHex(s)
    ensures FourHex(s) ==> Hex4(s) == Some(CodePoint(s))
  {
    assert forall i :: 0 <= i < 4 ==> HexValue(s[i]) == HexDigit(s[i]);
  }

  /** One character of a string: as itself, by a one-letter escape, by its code point, or by two. */
  datatype Unit = Plain(c: char) | Short(letter: char) | Code(digits: string) | Pair(high: string, low: string)

  predicate UnitOk(u: Unit) {
    match u
    case Plain(c) => c != '"' && c != '\\' && c >= ' '
    case Short(x) => x == '"' || x == '\\' || x == '/' || x == 'b' || x == 'f' || x == 'n' || x == 'r' || x == 't'
    case Code(digits) => FourHex(digits) && !(0xD800 <= CodePoint(digits) < 0xE000)
    case Pair(high, low) =>
      && FourHex(high) && 0xD800 <= CodePoint(high) < 0xDC00
      && FourHex(low) && 0xDC00 <= CodePoint(low) < 0xE000
  }

  function UnitText(u: Unit): string {
    match u
    case Plain(c) => [c]
    case Short(x) => "\\" + [x]
    case Code(digits) => "\\" + ("u" + digits)
    case Pair(high, low) => "\\" + ("u" + (high + ("\\u" + low)))
  }

  function UnitMeans(u: Unit): char
    requires UnitOk(u)
  {
    match u
    case Plain(c) => c
    case Short(x) =>
      if x == 'b' then '\U{8}' else if x == 'f' then '\U{c}' else if x == 'n' then '\n'
      else if x == 'r' then '\r' else if x == 't' then '\t' else x
    case Code(digits) => CodePoint(digits) as char
    case Pair(high, low) =>
      (0x1_0000 + (CodePoint(high) - 0xD800) * 0x400 + (CodePoint(low) - 0xDC00)) as char
  }

  predicate UnitsOk(us: seq<Unit>) {
    us != [] ==> UnitOk(us[0]) && UnitsOk(us[1..])
  }

  /** The units, the closing quote, and then `rest`. */
  function UnitsText(us: seq<Unit>, rest: string): string {
    if us == [] then "\"" + rest else UnitText(us[0]) + UnitsText(us[1..], rest)
  }

  function UnitsMean(us: seq<Unit>): string
    requires UnitsOk(us)
  {
    if us == [] then "" else [UnitMeans(us[0])] + UnitsMean(us[1..])
  }

  // ---- Numbers ------------------------------------------------------------------------------

  predicate Digits(s: string) {
    s != "" && forall i :: 0 <= i < |s| ==> '0' <= s[i] <= '9'
  }

  predicate WholeOk(s: string) { Digits(s) && (s[0] == '0' ==> |s| == 1) }

  predicate FracOk(s: string) { s == "" || (s[0] == '.' && Digits(s[1..])) }

  /** The number decimal digits spell. */
  function DigitsValue(s: string): int {
    if s == "" then 0 else 10 * DigitsValue(s[..|s| - 1]) + (s[|s| - 1] as int - '0' as int)
  }

  predicate ExpOk(s: string) {
    s == "" || ((s[0] == 'e' || s[0] == 'E')
                && (Digits(s[1..]) || (|s| > 1 && (s[1] == '+' || s[1] == '-') && Digits(s[2..]))))
  }

  // ---- Values -------------------------------------------------------------------------------

  predicate Blank(w: string) {
    forall i :: 0 <= i < |w| ==> w[i] == ' ' || w[i] == '\t' || w[i] == '\n' || w[i] == '\r'
  }

  /** A value's syntax, with the white space within it. */
  datatype Syntax =
    | NullWord
    | BoolWord(b: bool)
    | Num(minus: string, whole: string, frac: string, exp: string)
    | Text(units: seq<Unit>)
    | EmptyArr(gap: string)
    | FullArr(before: string, head: Syntax, more: More)
    | EmptyObj(gap: string)
    | FullObj(fields: Fields)

  /** What follows an item of an array. */
  datatype More = Close(after: string) | Next(after: string, before: string, head: Syntax, more: More)

  /** A member of an object, and what follows it. */
  datatype Fields = Field(before: string, key: seq<Unit>, colon: string, gap: string, value: Syntax, rest: MoreFields)

  datatype MoreFields = CloseObj(after: string) | NextField(after: string, fields: Fields)

  predicate Ok(c: Syntax) {
    match c
    case NullWord => true
    case BoolWord(_) => true
    case Num(minus, whole, frac, exp) => (minus == "" || minus == "-") && WholeOk(whole) && FracOk(frac) && ExpOk(exp)
    case Text(units) => UnitsOk(units)
    case EmptyArr(gap) => Blank(gap)
    case FullArr(before, head, more) => Blank(before) && Ok(head) && MoreOk(more)
    case EmptyObj(gap) => Blank(gap)
    case FullObj(fields) => FieldsOk(fields)
  }

  predicate MoreOk(m: More) {
    Blank(m.after) && (m.Next? ==> Blank(m.before) && Ok(m.head) && MoreOk(m.more))
  }

  predicate FieldsOk(f: Fields) {
    Blank(f.before) && UnitsOk(f.key) && Blank(f.colon) && Blank(f.gap) && Ok(f.value) && MoreFieldsOk(f.rest)
  }

  predicate MoreFieldsOk(m: MoreFields) {
    Blank(m.after) && (m.NextField? ==> FieldsOk(m.fields))
  }

  /** The value's text, and then `rest`. */
  function Spell(c: Syntax, rest: string): string {
    match c
    case NullWord => "null" + rest
    case BoolWord(b) => (if b then "true" else "false") + rest
    case Num(minus, whole, frac, exp) => (minus + (whole + (frac + exp))) + rest
    case Text(units) => "\"" + UnitsText(units, rest)
    case EmptyArr(gap) => "[" + (gap + ("]" + rest))
    case FullArr(before, head, more) => "[" + (before + Spell(head, SpellMore(more, rest)))
    case EmptyObj(gap) => "{" + (gap + ("}" + rest))
    case FullObj(fields) => "{" + SpellFields(fields, rest)
  }

  function SpellMore(m: More, rest: string): string {
    match m
    case Close(after) => after + ("]" + rest)
    case Next(after, before, head, more) => after + ("," + (before + Spell(head, SpellMore(more, rest))))
  }

  function SpellFields(f: Fields, rest: string): string {
    f.before + ("\"" + UnitsText(f.key, f.colon + (":" + (f.gap + Spell(f.value, SpellMoreFields(f.rest, rest))))))
  }

  function SpellMoreFields(m: MoreFields, rest: string): string {
    match m
    case CloseObj(after) => after + ("}" + rest)
    case NextField(after, fields) => after + ("," + SpellFields(fields, rest))
  }

  function NumText(c: Syntax): string
    requires c.Num?
  {
    c.minus + (c.whole + (c.frac + c.exp))
  }

  /** An integer's value. */
  function NumValue(c: Syntax): int
    requires c.Num?
  {
    if c.minus == "-" then -DigitsValue(c.whole) else DigitsValue(c.whole)
  }

  /** A number without fraction and exponent, other than `-0`, in the range of `i64` and `u64`. */
  predicate Exact(c: Syntax)
    requires c.Num?
  {
    && c.frac == "" && c.exp == ""
    && -0x8000_0000_0000_0000 <= NumValue(c) < 0x1_0000_0000_0000_0000
    && !(c.minus == "-" && c.whole == "0")
  }

  function Means(c: Syntax): Value
    requires Ok(c)
  {
    match c
    case NullWord => Null
    case BoolWord(b) => Bool(b)
    case Num(_, _, _, _) => if Exact(c) then Int(NumValue(c)) else Float(NumText(c))
    case Text(units) => Str(UnitsMean(units))
    case EmptyArr(_) => Arr(Nil)
    case FullArr(_, head, more) => Arr(Cons(Means(head), MoreMeans(more)))
    case EmptyObj(_) => Obj(End)
    case FullObj(fields) => Obj(Normalize(FieldsMean(fields)))
  }

  function MoreMeans(m: More): Values
    requires MoreOk(m)
  {
    match m
    case Close(_) => Nil
    case Next(_, _, head, more) => Cons(Means(head), MoreMeans(more))
  }

  function FieldsMean(f: Fields): Members
    requires FieldsOk(f)
  {
    Member(UnitsMean(f.key), Means(f.value), MoreFieldsMean(f.rest))
  }

  function MoreFieldsMean(m: MoreFields): Members
    requires MoreFieldsOk(m)
  {
    match m case CloseObj(_) => End case NextField(_, fields) => FieldsMean(fields)
  }

  /** How many containers deep the text nests; a member that a later one replaces counts too. */
  function Nesting(c: Syntax): nat {
    match c
    case EmptyArr(_) => 1
    case EmptyObj(_) => 1
    case FullArr(_, head, more) => 1 + Max(Nesting(head), NestingMore(more))
    case FullObj(fields) => 1 + NestingFields(fields)
    case _ => 0
  }

  function NestingMore(m: More): nat {
    match m case Close(_) => 0 case Next(_, _, head, more) => Max(Nesting(head), NestingMore(more))
  }

  function NestingFields(f: Fields): nat { Max(Nesting(f.value), NestingMoreFields(f.rest)) }

  function NestingMoreFields(m: MoreFields): nat {
    match m case CloseObj(_) => 0 case NextField(_, fields) => NestingFields(fields)
  }

  // ---- The number lexer reads exactly the grammar's numbers -----------------------------------

  lemma ThenReads(p: Lexer, q: Lexer, a: string, b: string)
    requires p(a + b) == Some(|a|) && q(b) == Some(|b|)
    ensures Then(p, q)(a + b) == Some(|a + b|)
  {
    FrontBack(a, b);
  }

  lemma DigitsRun(a: string, rest: string)
    requires Digits(a) && (rest == "" || !IsDigit(rest[0]))
    ensures DigitRun(a + rest) == |a|
  {
    DigitRunExtends(a, rest);
    DigitsAreRun(a);
  }

  lemma WholeReads(whole: string, rest: string)
    requires WholeOk(whole) && (rest == "" || !IsDigit(rest[0]))
    ensures IntPart(whole + rest) == Some(|whole|)
  {
    DigitsRun(whole, rest);
    assert (whole + rest)[0] == whole[0];
  }

  lemma ExpReads(exp: string)
    requires ExpOk(exp)
    ensures ExpPart(exp) == Some(|exp|)
  {
    if exp != "" {
      var digits := exp[ExpSign(exp)..];
      assert Digits(digits) by { if Digits(exp[1..]) { assert IsDigit(exp[1..][0]); } }
      DigitsAreRun(digits);
    }
  }

  lemma FracReads(frac: string, exp: string)
    requires FracOk(frac) && ExpOk(exp)
    ensures FracPart(frac + exp) == Some(|frac|)
  {
    if frac == "" {
      assert frac + exp == exp;
    } else {
      AppendDrop(frac, exp, 1);
      DigitsRun(frac[1..], exp);
      assert (frac + exp)[0] == '.';
    }
  }

  lemma SignReads(minus: string, rest: string)
    requires (minus == "" || minus == "-") && rest != "" && rest[0] != '-'
    ensures SignPart(minus + rest) == Some(|minus|)
  {
    if minus == "" { assert minus + rest == rest; }
  }

  lemma NumReads(c: Syntax)
    requires c.Num? && Ok(c)
    ensures LexNumber(NumText(c)) == Some(|NumText(c)|)
  {
    var tail := c.frac + c.exp;
    FracReads(c.frac, c.exp);
    ExpReads(c.exp);
    ThenReads(FracPart, ExpPart, c.frac, c.exp);
    assert tail == "" || !IsDigit(tail[0]) by {
      if c.frac == "" { assert tail == c.exp; } else { assert tail[0] == c.frac[0]; }
    }
    WholeReads(c.whole, tail);
    ThenReads(IntPart, FracExp(), c.whole, tail);
    assert (c.whole + tail)[0] == c.whole[0] && IsDigit(c.whole[0]);
    SignReads(c.minus, c.whole + tail);
    ThenReads(SignPart, Unsigned(), c.minus, c.whole + tail);
  }

  lemma ThenSplits(p: Lexer, q: Lexer, s: string) returns (a: string, b: string)
    requires Then(p, q)(s) == Some(|s|)
    ensures s == a + b && p(s) == Some(|a|) && a == s[..|a|] && q(b) == Some(|b|)
  {
    a, b := s[..p(s).value], s[p(s).value..];
    HeadTail(s, p(s).value);
  }

  lemma {:induction false} DigitsValueIs(s: string)
    requires forall i :: 0 <= i < |s| ==> '0' <= s[i] <= '9'
    ensures NatOf(s) == DigitsValue(s)
  {
    if s != "" { DigitsValueIs(s[..|s| - 1]); }
  }

  lemma {:induction false} DigitsValueZero(s: string)
    requires WholeOk(s)
    ensures DigitsValue(s) >= 0 && (DigitsValue(s) == 0 <==> s == "0")
    decreases |s|
  {
    if |s| == 1 {
      assert DigitsValue(s[..0]) == 0;
    } else {
      DigitsValueZero(s[..|s| - 1]);
    }
  }

  lemma WholeTail(c: Syntax)
    requires c.Num? && Ok(c)
    ensures DigitRun(c.whole + (c.frac + c.exp)) == |c.whole|
  {
    var tail := c.frac + c.exp;
    assert tail == "" || !IsDigit(tail[0]) by {
      if c.frac == "" { assert tail == c.exp; } else { assert tail[0] == c.frac[0]; }
    }
    DigitsRun(c.whole, tail);
  }

  /** The parser gives a number's text the number's meaning. */
  lemma NumDenotes(c: Syntax)
    requires c.Num? && Ok(c)
    ensures LexNumber(NumText(c)) == Some(|NumText(c)|) && NumberOf(NumText(c)) == Means(c)
  {
    NumReads(c);
    var u := c.whole + (c.frac + c.exp);
    NumSign(c);
    WholeTail(c);
    if c.frac == "" && c.exp == "" {
      assert u == c.whole;
      DigitsValueIs(c.whole);
      DigitsValueZero(c.whole);
      IntDenotes(NumText(c), |c.minus|, DigitsValue(c.whole));
    } else {
      assert |u| > |c.whole|;
    }
  }

  lemma NumSign(c: Syntax)
    requires c.Num? && Ok(c)
    ensures Sign(NumText(c)) == |c.minus| && NumText(c)[|c.minus|..] == c.whole + (c.frac + c.exp)
  {
    var u := c.whole + (c.frac + c.exp);
    FrontBack(c.minus, u);
    assert u[0] == c.whole[0] && '0' <= c.whole[0] <= '9';
  }

  lemma IntDenotes(l: string, sign: nat, m: int)
    requires LexNumber(l) == Some(|l|) && Sign(l) == sign && DigitRun(l[sign..]) == |l| - sign && NatOf(l[sign..]) == m
    ensures NumberOf(l) == if sign == 0 && m < 0x1_0000_0000_0000_0000 then Int(m)
                           else if sign == 1 && 0 < m <= 0x8000_0000_0000_0000 then Int(-m)
                           else Float(l)
  {
  }

  /** Whatever the lexer takes for a number is one. */
  lemma NumSound(s: string) returns (c: Syntax)
    requires LexNumber(s) == Some(|s|)
    ensures c.Num? && Ok(c) && NumText(c) == s
  {
    var minus, u := ThenSplits(SignPart, Unsigned(), s);
    SignSound(s, minus);
    var whole, tail := ThenSplits(IntPart, FracExp(), u);
    WholeSound(u, whole);
    var frac, exp := ThenSplits(FracPart, ExpPart, tail);
    FracSound(tail, frac);
    ExpSound(exp);
    c := Num(minus, whole, frac, exp);
  }

  lemma SignSound(s: string, minus: string)
    requires SignPart(s) == Some(|minus|) && |minus| <= |s| && minus == s[..|minus|]
    ensures minus == "" || minus == "-"
  {
    if minus != "" { assert minus[0] == s[0] == '-'; }
  }

  lemma WholeSound(u: string, whole: string)
    requires IntPart(u) == Some(|whole|) && |whole| <= |u| && whole == u[..|whole|]
    ensures WholeOk(whole)
  {
    forall i | 0 <= i < |whole| ensures IsDigit(whole[i]) { DigitRunDigits(u, i); }
  }

  lemma FracSound(tail: string, frac: string)
    requires FracPart(tail) == Some(|frac|) && |frac| <= |tail| && frac == tail[..|frac|]
    ensures FracOk(frac)
  {
    if frac != "" {
      forall i | 0 <= i < |frac[1..]| ensures IsDigit(frac[1..][i]) { DigitRunDigits(tail[1..], i); }
    }
  }

  lemma ExpSound(exp: string)
    requires ExpPart(exp) == Some(|exp|)
    ensures ExpOk(exp)
  {
    if exp != "" {
      var digits := exp[ExpSign(exp)..];
      forall i | 0 <= i < |digits| ensures IsDigit(digits[i]) { DigitRunDigits(digits, i); }
      assert Digits(digits);
    }
  }

  // ---- White space --------------------------------------------------------------------------

  lemma {:induction false} SkipBlank(w: string, t: string)
    requires Blank(w)
    ensures SkipWs(w + t) == SkipWs(t)
  {
    if w == "" {
      assert w + t == t;
    } else {
      assert (w + t)[0] == w[0];
      AppendDrop(w, t, 1);
      SkipBlank(w[1..], t);
    }
  }

  /** `w` and then something that is no white space. */
  lemma SkipTo(w: string, t: string)
    requires Blank(w) && t != "" && !IsWs(t[0])
    ensures SkipWs(w + t) == t && SkipWs(t) == t
  {
    SkipBlank(w, t);
  }

  lemma {:induction false} SkipSound(t: string) returns (w: string)
    ensures Blank(w) && t == w + SkipWs(t)
  {
    w := "";
    if t != "" && IsWs(t[0]) {
      var v := SkipSound(t[1..]);
      w := [t[0]] + v;
      Assoc([t[0]], v, SkipWs(t));
      assert t == [t[0]] + t[1..];
    } else {
      assert t == "" + t;
    }
  }

  // ---- Every text of the grammar is read ------------------------------------------------------

  lemma EscapeReads(s: string, c: char, rest: string)
    requires Unescape(s) == Done(c, rest)
    ensures ParseChars("\\" + s) == Prepend(c, ParseChars(rest))
  {
    FrontBack("\\", s);
  }

  lemma UnitReads(u: Unit, rest: string)
    requires UnitOk(u)
    ensures ParseChars(UnitText(u) + rest) == Prepend(UnitMeans(u), ParseChars(rest))
  {
    match u
    case Plain(c) => PlainReads(c, rest);
    case Short(x) =>
      ShortReads(x, rest);
      Assoc("\\", [x], rest);
      EscapeReads([x] + rest, UnitMeans(u), rest);
    case Code(digits) =>
      CodeReads(digits, rest);
      Assoc("\\", "u" + digits, rest);
      Assoc("u", digits, rest);
      EscapeReads("u" + (digits + rest), UnitMeans(u), rest);
    case Pair(high, low) =>
      PairReads(high, low, rest);
      Assoc("\\", "u" + (high + ("\\u" + low)), rest);
      Assoc("u", high + ("\\u" + low), rest);
      Assoc(high, "\\u" + low, rest);
      Assoc("\\u", low, rest);
      EscapeReads("u" + (high + ("\\u" + (low + rest))), UnitMeans(u), rest);
  }

  lemma PlainReads(c: char, rest: string)
    requires UnitOk(Plain(c))
    ensures ParseChars([c] + rest) == Prepend(c, ParseChars(rest))
  {
    FrontBack([c], rest);
  }

  lemma ShortReads(x: char, rest: string)
    requires UnitOk(Short(x))
    ensures Unescape([x] + rest) == Done(UnitMeans(Short(x)), rest)
  {
    FrontBack([x], rest);
  }

  lemma Hex4Front(digits: string, rest: string)
    requires |digits| == 4
    ensures Hex4(digits + rest) == Hex4(digits) && (digits + rest)[4..] == rest
  {
    FrontBack(digits, rest);
  }

  lemma CodeReads(digits: string, rest: string)
    requires UnitOk(Code(digits))
    ensures Unescape("u" + (digits + rest)) == Done(UnitMeans(Code(digits)), rest)
  {
    FrontBack("u", digits + rest);
    Hex4Is(digits);
    Hex4Front(digits, rest);
  }

  lemma PairReads(high: string, low: string, rest: string)
    requires UnitOk(Pair(high, low))
    ensures Unescape("u" + (high + ("\\u" + (low + rest)))) == Done(UnitMeans(Pair(high, low)), rest)
  {
    var s := high + ("\\u" + (low + rest));
    FrontBack("u", s);
    Hex4Is(high);
    Hex4Is(low);
    Hex4Front(high, "\\u" + (low + rest));
    Hex4Front(low, rest);
    PairSlices(high, low, rest);
  }

  lemma PairSlices(high: string, low: string, rest: string)
    requires |high| == 4 == |low|
    ensures var s := high + ("\\u" + (low + rest)); s[4..6] == "\\u" && s[6..] == low + rest && s[10..] == rest
  {
  }

  lemma {:induction false} UnitsRead(us: seq<Unit>, rest: string)
    requires UnitsOk(us)
    ensures ParseChars(UnitsText(us, rest)) == Done(UnitsMean(us), rest)
  {
    if us == [] {
      FrontBack("\"", rest);
    } else {
      UnitsRead(us[1..], rest);
      UnitReads(us[0], UnitsText(us[1..], rest));
    }
  }

  lemma SpellOpens(c: Syntax, rest: string)
    requires Ok(c)
    ensures var t := Spell(c, rest);
      && t != "" && !IsWs(t[0]) && t[0] != ']' && t[0] != '}'
      && (t[0] == '[' <==> c.EmptyArr? || c.FullArr?)
      && (t[0] == '{' <==> c.EmptyObj? || c.FullObj?)
  {
    if c.Num? {
      NumReads(c);
      LexOpens(NumText(c));
      assert Spell(c, rest)[0] == NumText(c)[0];
    }
  }

  lemma MoreStops(m: More, rest: string)
    requires MoreOk(m)
    ensures Stop(SpellMore(m, rest))
  {
    if m.after != "" { assert SpellMore(m, rest)[0] == m.after[0]; }
  }

  lemma MoreFieldsStop(m: MoreFields, rest: string)
    requires MoreFieldsOk(m)
    ensures Stop(SpellMoreFields(m, rest))
  {
    if m.after != "" { assert SpellMoreFields(m, rest)[0] == m.after[0]; }
  }

  lemma LeafReads(c: Syntax, rest: string)
    requires Ok(c) && Stop(rest) && (c.NullWord? || c.BoolWord? || c.Num? || c.Text?)
    ensures Spell(c, rest) != "" && ParseScalar(Spell(c, rest)) == Done(Means(c), rest)
  {
    match c
    case NullWord => ParsePrintedWord(Null, rest);
    case BoolWord(b) => ParsePrintedWord(Bool(b), rest);
    case Num(_, _, _, _) =>
      NumDenotes(c);
      ParseScalarNumber(NumText(c), rest);
    case Text(units) =>
      UnitsRead(units, rest);
      FrontBack("\"", UnitsText(units, rest));
  }

  /** A value's text, after white space and before anything that cannot belong to a number, is read as
      what it denotes exactly when its nesting is within the budget. */
  lemma {:induction false} Reads(c: Syntax, before: string, rest: string, depth: nat)
    requires Ok(c) && Blank(before) && Stop(rest)
    ensures ParseValue(before + Spell(c, rest), depth) == if Nesting(c) <= depth then Done(Means(c), rest) else Fail
    decreases c, 1
  {
    SpellOpens(c, rest);
    SkipTo(before, Spell(c, rest));
    if c.EmptyArr? || c.FullArr? {
      if depth > 0 { ArrReads(c, rest, depth - 1); }
    } else if c.EmptyObj? || c.FullObj? {
      if depth > 0 { ObjReads(c, rest, depth - 1); }
    } else {
      LeafReads(c, rest);
    }
  }

  lemma {:induction false} ArrReads(c: Syntax, rest: string, depth: nat)
    requires Ok(c) && (c.EmptyArr? || c.FullArr?)
    ensures Spell(c, rest) != ""
    ensures ParseArray(Spell(c, rest)[1..], depth) == if Nesting(c) <= depth + 1 then Done(Means(c), rest) else Fail
    decreases c, 0
  {
    if c.EmptyArr? {
      FrontBack("[", c.gap + ("]" + rest));
      SkipTo(c.gap, "]" + rest);
      FrontBack("]", rest);
    } else {
      var text := Spell(c.head, SpellMore(c.more, rest));
      FrontBack("[", c.before + text);
      SpellOpens(c.head, SpellMore(c.more, rest));
      SkipTo(c.before, text);
      MoreStops(c.more, rest);
      Reads(c.head, "", SpellMore(c.more, rest), depth);
      assert "" + text == text;
      if Nesting(c.head) <= depth { MoreReads(c.more, rest, depth); }
    }
  }

  lemma {:induction false} MoreReads(m: More, rest: string, depth: nat)
    requires MoreOk(m)
    ensures ParseTail(SpellMore(m, rest), depth) == if NestingMore(m) <= depth then Done(MoreMeans(m), rest) else Fail
    decreases m, 0
  {
    if m.Close? {
      SkipTo(m.after, "]" + rest);
      FrontBack("]", rest);
    } else {
      var text := m.before + Spell(m.head, SpellMore(m.more, rest));
      SkipTo(m.after, "," + text);
      FrontBack(",", text);
      MoreStops(m.more, rest);
      Reads(m.head, m.before, SpellMore(m.more, rest), depth);
      if Nesting(m.head) <= depth { MoreReads(m.more, rest, depth); }
    }
  }

  lemma {:induction false} ObjReads(c: Syntax, rest: string, depth: nat)
    requires Ok(c) && (c.EmptyObj? || c.FullObj?)
    ensures Spell(c, rest) != ""
    ensures ParseObject(Spell(c, rest)[1..], depth) == if Nesting(c) <= depth + 1 then Done(Means(c), rest) else Fail
    decreases c, 0
  {
    if c.EmptyObj? {
      FrontBack("{", c.gap + ("}" + rest));
      SkipTo(c.gap, "}" + rest);
      FrontBack("}", rest);
    } else {
      FrontBack("{", SpellFields(c.fields, rest));
      FieldsRead(c.fields, rest, depth);
      FieldsOpen(c.fields, rest);
      MemberSkips(SpellFields(c.fields, rest), depth);
    }
  }

  lemma FieldsOpen(f: Fields, rest: string)
    requires FieldsOk(f)
    ensures SkipWs(SpellFields(f, rest)) != "" && SkipWs(SpellFields(f, rest))[0] == '"'
  {
    var text := "\"" + UnitsText(f.key, f.colon + (":" + (f.gap + Spell(f.value, SpellMoreFields(f.rest, rest)))));
    SkipTo(f.before, text);
  }

  /** A member may be read from its first character on. */
  lemma MemberSkips(t: string, depth: nat)
    ensures ParseMember(SkipWs(t), depth) == ParseMember(t, depth)
  {
    assert SkipWs(SkipWs(t)) == SkipWs(t);
  }

  lemma KeyReads(f: Fields, text: string)
    requires FieldsOk(f)
    ensures ParseKey(f.before + ("\"" + UnitsText(f.key, f.colon + (":" + text)))) == Done(UnitsMean(f.key), text)
  {
    var quoted := UnitsText(f.key, f.colon + (":" + text));
    SkipTo(f.before, "\"" + quoted);
    FrontBack("\"", quoted);
    UnitsRead(f.key, f.colon + (":" + text));
    SkipTo(f.colon, ":" + text);
    FrontBack(":", text);
  }

  lemma {:induction false} FieldsRead(f: Fields, rest: string, depth: nat)
    requires FieldsOk(f)
    ensures ParseMember(SpellFields(f, rest), depth)
         == if NestingFields(f) <= depth then Done(FieldsMean(f), rest) else Fail
    decreases f, 1
  {
    var tail := SpellMoreFields(f.rest, rest);
    KeyReads(f, f.gap + Spell(f.value, tail));
    MoreFieldsStop(f.rest, rest);
    Reads(f.value, f.gap, tail, depth);
    if Nesting(f.value) <= depth { MoreFieldsRead(f.rest, rest, depth); }
  }

  lemma {:induction false} MoreFieldsRead(m: MoreFields, rest: string, depth: nat)
    requires MoreFieldsOk(m)
    ensures ParseMemberTail(SpellMoreFields(m, rest), depth)
         == if NestingMoreFields(m) <= depth then Done(MoreFieldsMean(m), rest) else Fail
    decreases m, 0
  {
    if m.CloseObj? {
      SkipTo(m.after, "}" + rest);
      FrontBack("}", rest);
    } else {
      SkipTo(m.after, "," + SpellFields(m.fields, rest));
      FrontBack(",", SpellFields(m.fields, rest));
      FieldsRead(m.fields, rest, depth);
    }
  }

  // ---- Whatever is read is a text of the grammar ----------------------------------------------

  lemma FirstChar(s: string, first: string)
    requires s != "" && first == [s[0]]
    ensures s == first + s[1..]
  {
  }

  lemma HexSound(s: string)
    requires Hex4(s).Some?
    ensures Hex4(s[..4]) == Hex4(s)
  {
  }

  lemma CodeSound(s: string) returns (u: Unit)
    requires UnicodeEscape(s).Done?
    ensures UnitOk(u) && UnitMeans(u) == UnicodeEscape(s).value
    ensures UnitText(u) + UnicodeEscape(s).rest == "\\" + ("u" + s)
  {
    HexSound(s);
    Hex4Is(s[..4]);
    if IsScalar(Hex4(s).value) {
      u := Code(s[..4]);
      HeadTail(s, 4);
      Assoc("\\", "u" + s[..4], s[4..]);
      Assoc("u", s[..4], s[4..]);
    } else {
      u := PairSound(s);
    }
  }

  lemma PairSound(s: string) returns (u: Unit)
    requires UnicodeEscape(s).Done? && !IsScalar(Hex4(s).value)
    ensures UnitOk(u) && UnitMeans(u) == UnicodeEscape(s).value
    ensures UnitText(u) + UnicodeEscape(s).rest == "\\" + ("u" + s)
  {
    var high, low := s[..4], s[6..][..4];
    HexSound(s);
    HexSound(s[6..]);
    Hex4Is(high);
    Hex4Is(low);
    u := Pair(high, low);
    PairSpelled(s);
    Assoc("\\", "u" + (high + ("\\u" + low)), s[10..]);
    Assoc("u", high + ("\\u" + low), s[10..]);
    Assoc(high, "\\u" + low, s[10..]);
    Assoc("\\u", low, s[10..]);
  }

  lemma PairSpelled(s: string)
    requires |s| >= 10 && s[4..6] == "\\u"
    ensures s[..4] + ("\\u" + (s[6..][..4] + s[10..])) == s
  {
    HeadTail(s, 4);
    HeadTail(s[4..], 2);
    HeadTail(s[6..], 4);
  }

  lemma ShortSound(s: string) returns (u: Unit)
    requires Unescape(s).Done? && s[0] != 'u'
    ensures UnitOk(u) && UnitMeans(u) == Unescape(s).value
    ensures UnitText(u) + Unescape(s).rest == "\\" + s
  {
    u := Short(s[0]);
    FirstChar(s, [s[0]]);
    Assoc("\\", [s[0]], s[1..]);
  }

  lemma EscapedCode(s: string)
    requires s != "" && s[0] == 'u'
    ensures Unescape(s) == UnicodeEscape(s[1..])
  {
  }

  lemma EscapeSound(s: string) returns (u: Unit)
    requires Unescape(s).Done?
    ensures UnitOk(u) && UnitMeans(u) == Unescape(s).value
    ensures UnitText(u) + Unescape(s).rest == "\\" + s
  {
    if s[0] == 'u' {
      EscapedCode(s);
      u := CodeSound(s[1..]);
      FirstChar(s, "u");
    } else {
      u := ShortSound(s);
    }
  }

  lemma {:induction false} UnitsSound(s: string) returns (us: seq<Unit>)
    requires ParseChars(s).Done?
    ensures UnitsOk(us) && UnitsMean(us) == ParseChars(s).value && UnitsText(us, ParseChars(s).rest) == s
    decreases |s|
  {
    assert s == [s[0]] + s[1..];
    if s[0] == '"' {
      us := [];
    } else if s[0] == '\\' {
      var u := EscapeSound(s[1..]);
      var more := UnitsSound(Unescape(s[1..]).rest);
      us := UnitsCons(u, more, ParseChars(s).rest);
    } else {
      var more := UnitsSound(s[1..]);
      us := UnitsCons(Plain(s[0]), more, ParseChars(s).rest);
    }
  }

  lemma UnitsCons(u: Unit, more: seq<Unit>, rest: string) returns (us: seq<Unit>)
    requires UnitOk(u) && UnitsOk(more)
    ensures UnitsOk(us) && UnitsMean(us) == [UnitMeans(u)] + UnitsMean(more)
    ensures UnitsText(us, rest) == UnitText(u) + UnitsText(more, rest)
  {
    us := [u] + more;
    assert us[1..] == more;
  }

  lemma WordSound(s: string, word: string, v: Value)
    requires Ident(s, word, v).Done?
    ensures word + Ident(s, word, v).rest == s
  {
    HeadTail(s, |word|);
  }

  lemma LeafSound(s: string) returns (c: Syntax)
    requires s != "" && ParseScalar(s).Done?
    ensures Ok(c) && Nesting(c) == 0 && Means(c) == ParseScalar(s).value && s == Spell(c, ParseScalar(s).rest)
  {
    var r := ParseScalar(s);
    if s[0] == 'n' {
      c := NullWord;
      WordSound(s, "null", Null);
    } else if s[0] == 't' {
      c := BoolWord(true);
      WordSound(s, "true", Bool(true));
    } else if s[0] == 'f' {
      c := BoolWord(false);
      WordSound(s, "false", Bool(false));
    } else if s[0] == '"' {
      var units := UnitsSound(s[1..]);
      c := Text(units);
      FirstChar(s, "\"");
    } else {
      var k := LexNumber(s).value;
      LexPrefix(s, k);
      c := NumSound(s[..k]);
      NumDenotes(c);
      HeadTail(s, k);
    }
  }

  /** An accepted text is white space, a value's text with the value and within the budget, and the
      remainder. */
  lemma {:induction false} Sound(t: string, depth: nat) returns (before: string, c: Syntax)
    requires ParseValue(t, depth).Done?
    ensures Blank(before) && Ok(c) && Nesting(c) <= depth
    ensures Means(c) == ParseValue(t, depth).value && t == before + Spell(c, ParseValue(t, depth).rest)
    decreases |t|, 1
  {
    before := SkipSound(t);
    var s := SkipWs(t);
    if s[0] == '[' {
      c := ArrSound(s[1..], depth - 1);
      FirstChar(s, "[");
    } else if s[0] == '{' {
      c := ObjSound(s[1..], depth - 1);
      FirstChar(s, "{");
    } else {
      c := LeafSound(s);
    }
  }

  lemma {:induction false} ArrSound(t: string, depth: nat) returns (c: Syntax)
    requires ParseArray(t, depth).Done?
    ensures Ok(c) && Nesting(c) <= depth + 1 && Means(c) == ParseArray(t, depth).value
    ensures "[" + t == Spell(c, ParseArray(t, depth).rest)
    decreases |t|, 2
  {
    var before := SkipSound(t);
    var s := SkipWs(t);
    if s != "" && s[0] == ']' {
      c := EmptyArr(before);
      FirstChar(s, "]");
    } else {
      var x := ParseValue(s, depth);
      var none, head := Sound(s, depth);
      var more := MoreSound(x.rest, depth);
      NoBlank(none, Spell(head, x.rest));
      c := FullArr(before, head, more);
    }
  }

  lemma NoBlank(w: string, t: string)
    requires Blank(w) && (w + t == "" || !IsWs((w + t)[0]))
    ensures w == "" && w + t == t
  {
  }

  lemma {:induction false} MoreSound(t: string, depth: nat) returns (m: More)
    requires ParseTail(t, depth).Done?
    ensures MoreOk(m) && NestingMore(m) <= depth && MoreMeans(m) == ParseTail(t, depth).value
    ensures t == SpellMore(m, ParseTail(t, depth).rest)
    decreases |t|, 0
  {
    var after := SkipSound(t);
    var s := SkipWs(t);
    if s[0] == ']' {
      m := Close(after);
      FirstChar(s, "]");
    } else {
      FirstChar(s, ",");
      var x := ParseValue(s[1..], depth);
      var before, head := Sound(s[1..], depth);
      var more := MoreSound(x.rest, depth);
      m := Next(after, before, head, more);
    }
  }

  lemma {:induction false} ObjSound(t: string, depth: nat) returns (c: Syntax)
    requires ParseObject(t, depth).Done?
    ensures Ok(c) && Nesting(c) <= depth + 1 && Means(c) == ParseObject(t, depth).value
    ensures "{" + t == Spell(c, ParseObject(t, depth).rest)
    decreases |t|, 2
  {
    var s := SkipWs(t);
    if s != "" && s[0] == '}' {
      var gap := SkipSound(t);
      c := EmptyObj(gap);
      FirstChar(s, "}");
    } else {
      MemberSkips(t, depth);
      var fields := FieldsSound(t, depth);
      c := FullObj(fields);
    }
  }

  lemma KeySound(t: string) returns (before: string, key: seq<Unit>, colon: string)
    requires ParseKey(t).Done?
    ensures Blank(before) && UnitsOk(key) && Blank(colon) && UnitsMean(key) == ParseKey(t).value
    ensures t == before + ("\"" + UnitsText(key, colon + (":" + ParseKey(t).rest)))
  {
    before := SkipSound(t);
    var s := SkipWs(t);
    FirstChar(s, "\"");
    key := UnitsSound(s[1..]);
    var k := ParseChars(s[1..]);
    colon := SkipSound(k.rest);
    var c := SkipWs(k.rest);
    FirstChar(c, ":");
  }

  lemma {:induction false} FieldsSound(t: string, depth: nat) returns (f: Fields)
    requires ParseMember(t, depth).Done?
    ensures FieldsOk(f) && NestingFields(f) <= depth && FieldsMean(f) == ParseMember(t, depth).value
    ensures t == SpellFields(f, ParseMember(t, depth).rest)
    decreases |t|, 1
  {
    var k := ParseKey(t);
    var before, key, colon := KeySound(t);
    var x := ParseValue(k.rest, depth);
    var gap, value := Sound(k.rest, depth);
    var rest := MoreFieldsSound(x.rest, depth);
    f := Field(before, key, colon, gap, value, rest);
  }

  lemma {:induction false} MoreFieldsSound(t: string, depth: nat) returns (m: MoreFields)
    requires ParseMemberTail(t, depth).Done?
    ensures MoreFieldsOk(m) && NestingMoreFields(m) <= depth && MoreFieldsMean(m) == ParseMemberTail(t, depth).value
    ensures t == SpellMoreFields(m, ParseMemberTail(t, depth).rest)
    decreases |t|, 0
  {
    var after := SkipSound(t);
    var s := SkipWs(t);
    if s[0] == '}' {
      m := CloseObj(after);
      FirstChar(s, "}");
    } else {
      FirstChar(s, ",");
      var fields := FieldsSound(s[1..], depth);
      m := NextField(after, fields);
    }
  }

  // ---- The parser is the grammar ----------------------------------------------------------------

  /** `t` is a JSON text, nested at most `depth` deep, that denotes `v`. */
  ghost predicate Denotes(t: string, v: Value, depth: nat) {
    exists before, c, after :: DenotesAs(t, v, depth, before, c, after)
  }

  predicate DenotesAs(t: string, v: Value, depth: nat, before: string, c: Syntax, after: string) {
    && Blank(before) && Ok(c) && Blank(after) && t == before + Spell(c, after)
    && Nesting(c) <= depth && Means(c) == v
  }

  lemma BlankStops(w: string)
    requires Blank(w)
    ensures Stop(w) && SkipWs(w) == ""
  {
    SkipBlank(w, "");
    assert w + "" == w;
  }

  /** `from_str` accepts a text, with a value, if and only if the grammar gives the text that value and
      it nests at most 127 deep. */
  lemma AcceptedIff(t: string, v: Value)
    ensures FromText(t) == Some(v) <==> Denotes(t, v, MAX_DEPTH)
  {
    if FromText(t) == Some(v) {
      var before, c := Sound(t, MAX_DEPTH);
      var rest := ParseValue(t, MAX_DEPTH).rest;
      var after := SkipSound(rest);
      assert after + "" == after;
      assert DenotesAs(t, v, MAX_DEPTH, before, c, after);
    }
    if Denotes(t, v, MAX_DEPTH) {
      var before, c, after :| DenotesAs(t, v, MAX_DEPTH, before, c, after);
      BlankStops(after);
      Reads(c, before, after, MAX_DEPTH);
    }
  }

  /** A text of the grammar that nests deeper is refused. */
  lemma DeepRefused(t: string, v: Value, depth: nat)
    requires Denotes(t, v, depth) && !Denotes(t, v, MAX_DEPTH)
    ensures FromText(t).None?
  {
    var before, c, after :| DenotesAs(t, v, depth, before, c, after);
    BlankStops(after);
    Reads(c, before, after, MAX_DEPTH);
    if Nesting(c) <= MAX_DEPTH { assert DenotesAs(t, v, MAX_DEPTH, before, c, after); }
  }

  /** The grammar is unambiguous: whatever the depth, a text denotes one value. */
  lemma OneReading(t: string, v: Value, w: Value, depth: nat)
    requires Denotes(t, v, depth) && Denotes(t, w, depth)
    ensures v == w
  {
    var before, c, after :| DenotesAs(t, v, depth, before, c, after);
    BlankStops(after);
    Reads(c, before, after, depth);
    var before', c', after' :| DenotesAs(t, w, depth, before', c', after');
    BlankStops(after');
    Reads(c', before', after', depth);
  }

  /** The same for the bytes of a line. */
  lemma SliceAcceptedIff(b: Bytes, v: Value)
    ensures FromSlice(b) == Some(v) <==> exists t: string :: b == Encode(t) && Denotes(t, v, MAX_DEPTH)
  {
    if FromSlice(b) == Some(v) {
      var t := Decode(b).value;
      EncodeDecode(b);
      AcceptedIff(t, v);
      assert b == Encode(t) && Denotes(t, v, MAX_DEPTH);
    }
    if t: string :| b == Encode(t) && Denotes(t, v, MAX_DEPTH) {
      DecodeEncode(t);
      AcceptedIff(t, v);
    }
  }

  // ---- Numbers, to the letter ---------------------------------------------------------------

  /** A number's text alone: the exact integer, or else a float that keeps its text. */
  lemma NumberRead(c: Syntax)
    requires c.Num? && Ok(c)
    ensures FromText(NumText(c)) == Some(if Exact(c) then Int(NumValue(c)) else Float(NumText(c)))
  {
    Reads(c, "", "", MAX_DEPTH);
    assert "" + Spell(c, "") == NumText(c);
  }

  /** What a float can be: the text of any number that is no exact integer ... */
  lemma FloatIff(l: string)
    ensures WellFormed(Float(l)) <==> exists c: Syntax :: c.Num? && Ok(c) && !Exact(c) && NumText(c) == l
  {
    if WellFormed(Float(l)) {
      var c := NumSound(l);
      NumDenotes(c);
      assert c.Num? && Ok(c) && !Exact(c) && NumText(c) == l;
    }
    if c: Syntax :| c.Num? && Ok(c) && !Exact(c) && NumText(c) == l { NumDenotes(c); }
  }

  /** ... and it goes over the wire with its text. */
  lemma FloatSurvives(c: Syntax)
    requires c.Num? && Ok(c) && !Exact(c)
    ensures ToVec(Float(NumText(c))) == Encode(NumText(c))
    ensures FromSlice(ToVec(Float(NumText(c)))) == Some(Float(NumText(c)))
  {
    NumberRead(c);
    DecodeEncode(NumText(c));
  }

  // ---- Lines --------------------------------------------------------------------------------

  /** `line` is the UTF-8 of a JSON text, at most 127 containers deep, that denotes `v`. */
  ghost predicate LineDenotes(line: Bytes, v: Value) {
    exists t: string :: line == Encode(t) && Denotes(t, v, 127)
  }

  /** `line` denotes some value. */
  ghost predicate IsFrame(line: Bytes) { exists v :: LineDenotes(line, v) }

  lemma LineDenotesIff(line: Bytes, v: Value)
    ensures FromSlice(line) == Some(v) <==> LineDenotes(line, v)
  {
    SliceAcceptedIff(line, v);
    if LineDenotes(line, v) {
      var t: string :| line == Encode(t) && Denotes(t, v, 127);
      assert Denotes(t, v, MAX_DEPTH);
    }
  }

  /** A line denotes one value at most. */
  lemma OneValue(line: Bytes, v: Value, w: Value)
    requires LineDenotes(line, v) && LineDenotes(line, w)
    ensures v == w
  {
    LineDenotesIff(line, v);
    LineDenotesIff(line, w);
  }

  lemma EmptyDenotesNothing(v: Value)
    ensures !LineDenotes([], v)
  {
    LineDenotesIff([], v);
    assert Decode([]) == Some("") && SkipWs("") == "";
  }
}
