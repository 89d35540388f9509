/** What the compact printer writes, told in the grammar's terms: of all texts with the value, the one
    without white space, with the shortest characters and the members in key order. */
module Compact {
  import opened Utf8
  import opened Number
  import opened Json
  import opened Grammar


  /** The shortest way to write a character: itself wherever it may stand, then a one-letter escape,
      then a code point in lowercase. */
  predicate UnitTight(u: Unit)
    requires UnitOk(u)
  {
    match u
    case Plain(_) => true
    case Short(x) => x != '/'
    case Code(digits) =>
      && digits[..2] == "00" && (digits[2] == '0' || digits[2] == '1')
      && !('A' <= digits[3] <= 'F')
      && digits != "0008" && digits != "0009" && digits != "000a" && digits != "000c" && digits != "000d"
    case Pair(_, _) => false
  }

  predicate UnitsTight(us: seq<Unit>)
    requires UnitsOk(us)
  {
    us != [] ==> UnitTight(us[0]) && UnitsTight(us[1..])
  }

  /** No white space, the shortest characters, members in key order. */
  predicate Tight(c: Syntax)
    requires Ok(c)
  {
    match c
    case Text(units) => UnitsTight(units)
    case EmptyArr(gap) => gap == ""
    case FullArr(before, head, more) => before == "" && Tight(head) && MoreTight(more)
    case EmptyObj(gap) => gap == ""
    case FullObj(fields) => FieldsTight(fields) && Sorted(FieldsMean(fields))
    case _ => true
  }

  predicate MoreTight(m: More)
    requires MoreOk(m)
  {
    m.after == "" && (m.Next? ==> m.before == "" && Tight(m.head) && MoreTight(m.more))
  }

  predicate FieldsTight(f: Fields)
    requires FieldsOk(f)
  {
    f.before == "" && f.colon == "" && f.gap == "" && UnitsTight(f.key) && Tight(f.value) && MoreFieldsTight(f.rest)
  }

  predicate MoreFieldsTight(m: MoreFields)
    requires MoreFieldsOk(m)
  {
    m.after == "" && (m.NextField? ==> FieldsTight(m.fields))
  }

  lemma {:induction false} UnitsTextAppend(us: seq<Unit>, a: string, b: string)
    ensures UnitsText(us, a + b) == UnitsText(us, a) + b
  {
    if us == [] {
      Assoc("\"", a, b);
    } else {
      UnitsTextAppend(us[1..], a, b);
      Assoc(UnitText(us[0]), UnitsText(us[1..], a), b);
    }
  }

  lemma {:induction false} SpellAppend(c: Syntax, a: string, b: string)
    ensures Spell(c, a + b) == Spell(c, a) + b
    decreases c, 1
  {
    match c
    case NullWord => Assoc("null", a, b);
    case BoolWord(x) => Assoc(if x then "true" else "false", a, b);
    case Num(_, _, _, _) => Assoc(NumText(c), a, b);
    case Text(units) =>
      UnitsTextAppend(units, a, b);
      Assoc("\"", UnitsText(units, a), b);
    case EmptyArr(gap) => ClosedAppend("[", gap, "]", a, b);
    case EmptyObj(gap) => ClosedAppend("{", gap, "}", a, b);
    case FullArr(before, head, more) =>
      MoreAppend(more, a, b);
      SpellAppend(head, SpellMore(more, a), b);
      Assoc(before, Spell(head, SpellMore(more, a)), b);
      Assoc("[", before + Spell(head, SpellMore(more, a)), b);
    case FullObj(fields) =>
      FieldsAppend(fields, a, b);
      Assoc("{", SpellFields(fields, a), b);
  }

  lemma ClosedAppend(open: string, gap: string, close: string, a: string, b: string)
    ensures open + (gap + (close + (a + b))) == (open + (gap + (close + a))) + b
  {
    Assoc(close, a, b);
    Assoc(gap, close + a, b);
    Assoc(open, gap + (close + a), b);
  }

  lemma {:induction false} MoreAppend(m: More, a: string, b: string)
    ensures SpellMore(m, a + b) == SpellMore(m, a) + b
    decreases m, 0
  {
    match m
    case Close(after) =>
      Assoc("]", a, b);
      Assoc(after, "]" + a, b);
    case Next(after, before, head, more) =>
      MoreAppend(more, a, b);
      SpellAppend(head, SpellMore(more, a), b);
      var text := Spell(head, SpellMore(more, a));
      Assoc(before, text, b);
      Assoc(",", before + text, b);
      Assoc(after, "," + (before + text), b);
  }

  lemma {:induction false} FieldsAppend(f: Fields, a: string, b: string)
    ensures SpellFields(f, a + b) == SpellFields(f, a) + b
    decreases f, 1
  {
    MoreFieldsAppend(f.rest, a, b);
    SpellAppend(f.value, SpellMoreFields(f.rest, a), b);
    var text := Spell(f.value, SpellMoreFields(f.rest, a));
    Assoc(f.gap, text, b);
    Assoc(":", f.gap + text, b);
    Assoc(f.colon, ":" + (f.gap + text), b);
    var tail := f.colon + (":" + (f.gap + text));
    UnitsTextAppend(f.key, tail, b);
    Assoc("\"", UnitsText(f.key, tail), b);
    Assoc(f.before, "\"" + UnitsText(f.key, tail), b);
  }

  lemma {:induction false} MoreFieldsAppend(m: MoreFields, a: string, b: string)
    ensures SpellMoreFields(m, a + b) == SpellMoreFields(m, a) + b
    decreases m, 0
  {
    match m
    case CloseObj(after) =>
      Assoc("}", a, b);
      Assoc(after, "}" + a, b);
    case NextField(after, fields) =>
      FieldsAppend(fields, a, b);
      Assoc(",", SpellFields(fields, a), b);
      Assoc(after, "," + SpellFields(fields, a), b);
  }

  lemma CharTight(c: char) returns (u: Unit)
    ensures UnitOk(u) && UnitTight(u) && UnitMeans(u) == c && UnitText(u) == EscapeChar(c)
  {
    if c == '"' || c == '\\' {
      u := Short(c);
    } else if c >= ' ' {
      u := Plain(c);
    } else if c == '\U{8}' {
      u := Short('b');
    } else if c == '\t' {
      u := Short('t');
    } else if c == '\n' {
      u := Short('n');
    } else if c == '\U{c}' {
      u := Short('f');
    } else if c == '\r' {
      u := Short('r');
    } else {
      u := CodeTight(c);
    }
  }

  lemma CodeTight(c: char) returns (u: Unit)
    requires c < ' ' && c != '\U{8}' && c != '\t' && c != '\n' && c != '\U{c}' && c != '\r'
    ensures UnitOk(u) && UnitTight(u) && UnitMeans(u) == c
    ensures UnitText(u) == "\\u00" + [Digit(c as int / 16), Digit(c as int % 16)]
  {
    var digits := "00" + [Digit(c as int / 16), Digit(c as int % 16)];
    u := Code(digits);
    assert CodePoint(digits) == c as int;
    assert digits[3] == Digit(c as int % 16);
    assert "\\" + ("u" + ("00" + [Digit(c as int / 16), Digit(c as int % 16)]))
        == "\\u00" + [Digit(c as int / 16), Digit(c as int % 16)];
  }

  lemma {:induction false} StringTight(s: string) returns (us: seq<Unit>)
    ensures UnitsOk(us) && UnitsTight(us) && UnitsMean(us) == s && UnitsText(us, "") == Escape(s) + "\""
  {
    if s == "" {
      us := [];
    } else {
      var u := CharTight(s[0]);
      var more := StringTight(s[1..]);
      us := [u] + more;
      assert us[1..] == more && s == [s[0]] + s[1..];
      Assoc(EscapeChar(s[0]), Escape(s[1..]), "\"");
    }
  }

  lemma NumberTight(v: Value) returns (c: Syntax)
    requires WellFormed(v) && (v.Int? || v.Float?)
    ensures c.Num? && Ok(c) && Means(c) == v && Spell(c, "") == Print(v)
  {
    if v.Int? { DecimalRead(v.n); }
    c := NumSound(Print(v));
    NumDenotes(c);
    assert NumText(c) + "" == NumText(c);
  }

  /** The compact printer writes, of all texts with the value, the tight one. */
  lemma {:induction false} PrintIsTight(v: Value) returns (c: Syntax)
    requires WellFormed(v)
    ensures Ok(c) && Tight(c) && Means(c) == v && Spell(c, "") == Print(v)
    decreases v, 1
  {
    match v
    case Null => c := NullWord;
    case Bool(b) => c := BoolWord(b);
    case Str(s) =>
      var us := StringTight(s);
      c := Text(us);
      Assoc("\"", Escape(s), "\"");
    case Arr(items) =>
      if items.Nil? {
        c := EmptyArr("");
      } else {
        var head, more := ItemTight(items);
        c := FullArr("", head, more);
      }
    case Obj(members) =>
      if members.End? {
        c := EmptyObj("");
      } else {
        var fields := MemberTight(members);
        NormalizeSorted(members);
        c := FullObj(fields);
      }
    case _ => c := NumberTight(v);
  }

  lemma SpellThen(c: Syntax, rest: string)
    ensures Spell(c, rest) == Spell(c, "") + rest
  {
    SpellAppend(c, "", rest);
    assert "" + rest == rest;
  }

  lemma {:induction false} ItemTight(xs: Values) returns (head: Syntax, more: More)
    requires xs.Cons? && WellFormedItems(xs)
    ensures Ok(head) && Tight(head) && Means(head) == xs.head
    ensures MoreOk(more) && MoreTight(more) && MoreMeans(more) == xs.tail
    ensures Spell(head, SpellMore(more, "")) == PrintItem(xs)
    decreases xs, 0
  {
    head := PrintIsTight(xs.head);
    more := Close("");
    if !xs.tail.Nil? {
      var next, rest := ItemTight(xs.tail);
      more := Next("", "", next, rest);
      NextText(next, rest);
    }
    SpellThen(head, SpellMore(more, ""));
  }

  lemma NextText(next: Syntax, rest: More)
    ensures SpellMore(Next("", "", next, rest), "") == "," + Spell(next, SpellMore(rest, ""))
  {
    NoGap(Spell(next, SpellMore(rest, "")));
    NoGap("," + Spell(next, SpellMore(rest, "")));
  }

  lemma {:induction false} MemberTight(ms: Members) returns (f: Fields)
    requires ms.Member? && WellFormedMembers(ms)
    ensures FieldsOk(f) && FieldsTight(f) && FieldsMean(f) == ms && SpellFields(f, "") == PrintMember(ms)
    decreases ms, 0
  {
    var key := StringTight(ms.key);
    var value := PrintIsTight(ms.value);
    var rest := CloseObj("");
    if !ms.rest.End? {
      var fields := MemberTight(ms.rest);
      rest := NextField("", fields);
      NoGap("," + SpellFields(fields, ""));
    }
    assert "" + ("}" + "") == "}";
    f := Field("", key, "", "", value, rest);
    FieldText(f, ms);
  }

  lemma NoGap(t: string)
    ensures "" + t == t
  {
  }

  lemma FieldText(f: Fields, ms: Members)
    requires ms.Member? && f.before == "" && f.colon == "" && f.gap == ""
    requires UnitsText(f.key, "") == Escape(ms.key) + "\"" && Spell(f.value, "") == Print(ms.value)
    requires SpellMoreFields(f.rest, "") == if ms.rest.End? then "}" else "," + PrintMember(ms.rest)
    ensures SpellFields(f, "") == PrintMember(ms)
  {
    var tail := SpellMoreFields(f.rest, "");
    var text := Print(ms.value) + tail;
    SpellThen(f.value, tail);
    NoGap(text);
    NoGap(":" + text);
    UnitsTextAppend(f.key, "", ":" + text);
    MemberTextTight(ms, tail);
    NoGap("\"" + UnitsText(f.key, ":" + text));
  }

  lemma MemberTextTight(ms: Members, tail: string)
    requires ms.Member? && tail == (if ms.rest.End? then "}" else "," + PrintMember(ms.rest))
    ensures PrintMember(ms) == "\"" + ((Escape(ms.key) + "\"") + (":" + (Print(ms.value) + tail)))
  {
    var quoted := Escape(ms.key) + "\"";
    Assoc("\"", Escape(ms.key), "\"");
    Assoc("\"" + quoted, ":", Print(ms.value) + tail);
    Assoc("\"", quoted, ":" + (Print(ms.value) + tail));
    Assoc(Quote(ms.key) + ":", Print(ms.value), tail);
  }

  /** The wire encoding of a value is the UTF-8 of its tight text. */
  lemma ToVecIsTight(v: Value) returns (c: Syntax)
    requires WellFormed(v)
    ensures Ok(c) && Tight(c) && Means(c) == v && ToVec(v) == Encode(Spell(c, ""))
  {
    c := PrintIsTight(v);
  }

  // ---- Key order ----------------------------------------------------------------------------

  predicate BytesBefore(a: Bytes, b: Bytes) {
    b != [] && (a == [] || a[0] < b[0] || (a[0] == b[0] && BytesBefore(a[1..], b[1..])))
  }

  lemma {:induction false} FirstDifference(a: Bytes, b: Bytes, i: nat)
    requires i < |a| && i < |b| && a[..i] == b[..i] && a[i] < b[i]
    ensures BytesBefore(a, b) && !BytesBefore(b, a)
  {
    if i > 0 {
      assert a[0] == a[..i][0] == b[..i][0] == b[0];
      TakeDrop(a, i, 1);
      TakeDrop(b, i, 1);
      FirstDifference(a[1..], b[1..], i - 1);
    }
  }

  lemma {:induction false} CommonFront(p: Bytes, a: Bytes, b: Bytes)
    ensures BytesBefore(p + a, p + b) <==> BytesBefore(a, b)
  {
    if p == [] {
      assert p + a == a && p + b == b;
    } else {
      AppendDrop(p, a, 1);
      AppendDrop(p, b, 1);
      CommonFront(p[1..], a, b);
    }
  }

  /** Where the encodings of two characters first differ, the smaller one has the smaller byte. */
  lemma CharsDiffer(c: char, d: char) returns (i: nat)
    requires c < d
    ensures var e, f := EncodeChar(c), EncodeChar(d); i < |e| && i < |f| && e[..i] == f[..i] && e[i] < f[i]
  {
    var e, f := EncodeChar(c), EncodeChar(d);
    if e[0] != f[0] {
      i := 0;
    } else if e[1] != f[1] {
      i := 1;
    } else if e[2] != f[2] {
      i := 2;
    } else {
      i := 3;
    }
  }

  lemma CharsApart(c: char, d: char, x: Bytes, y: Bytes)
    requires c < d
    ensures BytesBefore(EncodeChar(c) + x, EncodeChar(d) + y)
    ensures !BytesBefore(EncodeChar(d) + y, EncodeChar(c) + x)
  {
    var i := CharsDiffer(c, d);
    var e, f := EncodeChar(c), EncodeChar(d);
    assert (e + x)[..i] == e[..i] && (f + y)[..i] == f[..i];
    FirstDifference(e + x, f + y, i);
  }

  /** Key order is the order of the UTF-8 bytes. */
  lemma {:induction false} LessIsByteOrder(a: string, b: string)
    ensures Less(a, b) <==> BytesBefore(Encode(a), Encode(b))
  {
    if a != "" && b != "" {
      var c, d := a[0], b[0];
      if c == d {
        LessIsByteOrder(a[1..], b[1..]);
        CommonFront(EncodeChar(c), Encode(a[1..]), Encode(b[1..]));
      } else if c < d {
        CharsApart(c, d, Encode(a[1..]), Encode(b[1..]));
      } else {
        CharsApart(d, c, Encode(b[1..]), Encode(a[1..]));
      }
    }
  }
}
