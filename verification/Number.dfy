/** Number tokens (RFC 8259, section 6): how many characters of a text are a number, read by small
    lexers one after the other. */
module Number {
  import opened Utf8

  /** How many characters a token takes, or that there is none. */
  type Lexer = string -> Option<nat>

  predicate IsDigit(c: char) { '0' <= c <= '9' }

  /** How many digits `s` opens with. */
  function DigitRun(s: string): (k: nat)
    ensures k <= |s|
  {
    if s != "" && IsDigit(s[0]) then 1 + DigitRun(s[1..]) else 0
  }

  function Sign(s: string): (k: nat)
    ensures k <= 1 && k <= |s|
  {
    if s != "" && s[0] == '-' then 1 else 0
  }

  function SignPart(s: string): Option<nat> { Some(Sign(s)) }

  /** No leading zero. */
  function IntPart(s: string): (r: Option<nat>)
    ensures r.Some? ==> 1 <= r.value <= |s|
  {
    if s == "" || !IsDigit(s[0]) then None
    else if s[0] != '0' then Some(DigitRun(s))
    else if DigitRun(s) > 1 then None
    else Some(1)
  }

  function FracPart(s: string): (r: Option<nat>)
    ensures r.Some? ==> r.value <= |s|
  {
    if s == "" || s[0] != '.' then Some(0)
    else var k := DigitRun(s[1..]); if k == 0 then None else Some(1 + k)
  }

  function ExpSign(s: string): (j: nat)
    ensures j <= 2
  {
    if |s| > 1 && (s[1] == '+' || s[1] == '-') then 2 else 1
  }

  function ExpPart(s: string): (r: Option<nat>)
    ensures r.Some? ==> r.value <= |s|
  {
    if s == "" || (s[0] != 'e' && s[0] != 'E') then Some(0)
    else
      var j := ExpSign(s);
      var k := DigitRun(s[j..]); if k == 0 then None else Some(j + k)
  }

  /** One token behind the other. */
  function Then(p: Lexer, q: Lexer): Lexer {
    (s: string) =>
      match p(s)
      case None => None
      case Some(i) => if i > |s| then None else match q(s[i..]) case None => None case Some(k) => Some(i + k)
  }

  function FracExp(): Lexer { Then(FracPart, ExpPart) }

  function Unsigned(): Lexer { Then(IntPart, FracExp()) }

  function Signed(): Lexer { Then(SignPart, Unsigned()) }

  /** The length of the number `s` opens with. */
  function LexNumber(s: string): (r: Option<nat>)
    ensures r.Some? ==> 1 <= r.value <= |s|
  {
    SignedBounds(s);
    Signed()(s)
  }

  lemma SignedBounds(s: string)
    ensures Signed()(s).Some? ==> 1 <= Signed()(s).value <= |s|
  {
    NumberGood();
    if Signed()(s).Some? { assert SignPart(s) == Some(Sign(s)) && IntPart(s[Sign(s)..]).Some?; }
  }

  lemma LexOpens(p: string)
    requires LexNumber(p).Some?
    ensures p != "" && (p[0] == '-' || IsDigit(p[0]))
  {
    assert SignPart(p) == Some(Sign(p)) && IntPart(p[Sign(p)..]).Some?;
  }

  // ---- What makes a lexer good ---------------------------------------------------------------

  predicate IsWs(c: char) { c == ' ' || c == '\n' || c == '\t' || c == '\r' }

  /** No number continues into `rest`. */
  predicate Stop(rest: string) {
    rest == "" || IsWs(rest[0]) || rest[0] == ',' || rest[0] == ']' || rest[0] == '}'
  }

  /** The token ends within the text, is the same however the text goes on after it, is not joined by
      what follows a value, and holds no line break. */
  ghost predicate Within(p: Lexer) { forall s: string :: p(s).Some? ==> p(s).value <= |s| }

  ghost predicate Stable(p: Lexer) {
    forall s: string, j: nat {:trigger p(s[..j])} :: p(s).Some? && p(s).value <= j <= |s| ==> p(s[..j]) == p(s)
  }

  ghost predicate Stops(p: Lexer) { forall a: string, rest: string {:trigger p(a + rest)} :: Stop(rest) ==> p(a + rest) == p(a) }

  ghost predicate Clean(p: Lexer) {
    forall s: string {:trigger s[..p(s).value]} :: p(s).Some? && p(s).value <= |s| ==> '\n' !in s[..p(s).value]
  }

  ghost predicate Good(p: Lexer) { Within(p) && Stable(p) && Stops(p) && Clean(p) }

  // ---- The parts are good ---------------------------------------------------------------------

  lemma {:induction false} DigitRunExtends(a: string, rest: string)
    requires rest == "" || !IsDigit(rest[0])
    ensures DigitRun(a + rest) == DigitRun(a)
  {
    if a == "" {
      assert a + rest == rest;
    } else {
      DigitRunExtends(a[1..], rest);
      AppendDrop(a, rest, 1);
    }
  }

  lemma {:induction false} DigitRunPrefix(s: string, k: nat)
    requires k <= |s|
    ensures DigitRun(s[..k]) == if DigitRun(s) < k then DigitRun(s) else k
  {
    if s != "" && k > 0 && IsDigit(s[0]) {
      DigitRunPrefix(s[1..], k - 1);
      TakeDrop(s, k, 1);
    }
  }

  lemma {:induction false} DigitRunDigits(s: string, i: nat)
    requires i < DigitRun(s)
    ensures IsDigit(s[i])
  {
    if i > 0 { DigitRunDigits(s[1..], i - 1); }
  }

  lemma SignGood()
    ensures Good(SignPart)
  {
    forall a: string, rest: string | Stop(rest) ensures SignPart(a + rest) == SignPart(a) {
      if a == "" { assert a + rest == rest; }
    }
  }

  lemma IntExtends(a: string, rest: string)
    requires Stop(rest)
    ensures IntPart(a + rest) == IntPart(a)
  {
    DigitRunExtends(a, rest);
    if a == "" { assert a + rest == rest; }
  }

  lemma IntPrefix(s: string, j: nat)
    requires IntPart(s).Some? && IntPart(s).value <= j <= |s|
    ensures IntPart(s[..j]) == IntPart(s)
  {
    DigitRunPrefix(s, j);
  }

  lemma IntClean(s: string, i: nat)
    requires IntPart(s).Some? && i < IntPart(s).value
    ensures s[i] != '\n'
  {
    DigitRunDigits(s, i);
  }

  lemma IntGood()
    ensures Good(IntPart)
  {
    forall a: string, rest: string | Stop(rest) ensures IntPart(a + rest) == IntPart(a) { IntExtends(a, rest); }
    forall s: string, j: nat | IntPart(s).Some? && IntPart(s).value <= j <= |s| ensures IntPart(s[..j]) == IntPart(s) {
      IntPrefix(s, j);
    }
    forall s: string, i: nat | IntPart(s).Some? && i < IntPart(s).value ensures s[i] != '\n' { IntClean(s, i); }
  }

  lemma FracExtends(a: string, rest: string)
    requires Stop(rest)
    ensures FracPart(a + rest) == FracPart(a)
  {
    if a == "" {
      assert a + rest == rest;
    } else {
      AppendDrop(a, rest, 1);
      DigitRunExtends(a[1..], rest);
    }
  }

  lemma FracPrefix(s: string, j: nat)
    requires FracPart(s).Some? && FracPart(s).value <= j <= |s|
    ensures FracPart(s[..j]) == FracPart(s)
  {
    if j > 0 {
      TakeDrop(s, j, 1);
      DigitRunPrefix(s[1..], j - 1);
    }
  }

  lemma FracClean(s: string, i: nat)
    requires FracPart(s).Some? && i < FracPart(s).value
    ensures s[i] != '\n'
  {
    if i > 0 { DigitRunDigits(s[1..], i - 1); }
  }

  lemma FracGood()
    ensures Good(FracPart)
  {
    forall a: string, rest: string | Stop(rest) ensures FracPart(a + rest) == FracPart(a) { FracExtends(a, rest); }
    forall s: string, j: nat | FracPart(s).Some? && FracPart(s).value <= j <= |s| ensures FracPart(s[..j]) == FracPart(s) {
      FracPrefix(s, j);
    }
    forall s: string, i: nat | FracPart(s).Some? && i < FracPart(s).value ensures s[i] != '\n' { FracClean(s, i); }
  }

  lemma ExpExtends(a: string, rest: string)
    requires Stop(rest)
    ensures ExpPart(a + rest) == ExpPart(a)
  {
    if a == "" {
      assert a + rest == rest;
    } else {
      assert ExpSign(a + rest) == ExpSign(a);
      if ExpSign(a) <= |a| {
        AppendDrop(a, rest, ExpSign(a));
        DigitRunExtends(a[ExpSign(a)..], rest);
      }
    }
  }

  lemma ExpPrefix(s: string, j: nat)
    requires ExpPart(s).Some? && ExpPart(s).value <= j <= |s|
    ensures ExpPart(s[..j]) == ExpPart(s)
  {
    if ExpPart(s).value > 0 {
      TakeDrop(s, j, ExpSign(s));
      DigitRunPrefix(s[ExpSign(s)..], j - ExpSign(s));
    }
  }

  lemma ExpClean(s: string, i: nat)
    requires ExpPart(s).Some? && i < ExpPart(s).value
    ensures s[i] != '\n'
  {
    if i >= ExpSign(s) { DigitRunDigits(s[ExpSign(s)..], i - ExpSign(s)); }
  }

  lemma ExpGood()
    ensures Good(ExpPart)
  {
    forall a: string, rest: string | Stop(rest) ensures ExpPart(a + rest) == ExpPart(a) { ExpExtends(a, rest); }
    forall s: string, j: nat | ExpPart(s).Some? && ExpPart(s).value <= j <= |s| ensures ExpPart(s[..j]) == ExpPart(s) {
      ExpPrefix(s, j);
    }
    forall s: string, i: nat | ExpPart(s).Some? && i < ExpPart(s).value ensures s[i] != '\n' { ExpClean(s, i); }
  }

  // ---- Good lexers in a row are good ------------------------------------------------------------

  lemma ThenStable(p: Lexer, q: Lexer, s: string, j: nat)
    requires Good(p) && Good(q) && Then(p, q)(s).Some? && Then(p, q)(s).value <= j <= |s|
    ensures Then(p, q)(s[..j]) == Then(p, q)(s)
  {
    var i := p(s).value;
    TakeDrop(s, j, i);
    assert p(s[..j]) == p(s);
    assert q(s[i..][..j - i]) == q(s[i..]);
  }

  lemma ThenStops(p: Lexer, q: Lexer, a: string, rest: string)
    requires Good(p) && Good(q) && Stop(rest)
    ensures Then(p, q)(a + rest) == Then(p, q)(a)
  {
    assert p(a + rest) == p(a);
    if p(a).Some? {
      var i := p(a).value;
      AppendDrop(a, rest, i);
      assert q(a[i..] + rest) == q(a[i..]);
    }
  }

  lemma ThenClean(p: Lexer, q: Lexer, s: string)
    requires Good(p) && Good(q) && Then(p, q)(s).Some?
    ensures Then(p, q)(s).value <= |s| && '\n' !in s[..Then(p, q)(s).value]
  {
    var i, k := p(s).value, q(s[p(s).value..]).value;
    assert k <= |s[i..]|;
    TakeDrop(s, i + k, i);
    HeadTail(s[..i + k], i);
    assert s[..i + k][..i] == s[..i];
  }

  lemma ThenGood(p: Lexer, q: Lexer)
    requires Good(p) && Good(q)
    ensures Good(Then(p, q))
  {
    var t := Then(p, q);
    forall s: string | t(s).Some? ensures t(s).value <= |s| && '\n' !in s[..t(s).value] { ThenClean(p, q, s); }
    forall s: string, j: nat | t(s).Some? && t(s).value <= j <= |s| ensures t(s[..j]) == t(s) { ThenStable(p, q, s, j); }
    forall a: string, rest: string | Stop(rest) ensures t(a + rest) == t(a) { ThenStops(p, q, a, rest); }
  }

  lemma NumberGood()
    ensures Good(Signed())
  {
    SignGood();
    IntGood();
    FracGood();
    ExpGood();
    ThenGood(FracPart, ExpPart);
    ThenGood(IntPart, FracExp());
    ThenGood(SignPart, Unsigned());
  }

  /** What follows a number in compact JSON never changes how much of the text is number. */
  lemma LexExtends(a: string, rest: string)
    requires Stop(rest)
    ensures LexNumber(a + rest) == LexNumber(a)
  {
    NumberGood();
  }

  /** A number's own text is all number. */
  lemma LexPrefix(s: string, k: nat)
    requires LexNumber(s) == Some(k)
    ensures LexNumber(s[..k]) == Some(k)
  {
    NumberGood();
  }

  lemma NumberOneLine(s: string)
    requires LexNumber(s) == Some(|s|)
    ensures '\n' !in s
  {
    NumberGood();
    assert s[..|s|] == s;
  }

  // ---- Digits are numbers -----------------------------------------------------------------------

  lemma {:induction false} DigitsAreRun(s: string)
    requires forall c <- s :: IsDigit(c)
    ensures DigitRun(s) == |s|
  {
    if s != "" { DigitsAreRun(s[1..]); }
  }

  /** Digits without a leading zero, signed or not, are a number. */
  lemma DigitsLex(d: string)
    requires d != "" && DigitRun(d) == |d| && (d[0] == '0' ==> d == "0")
    ensures LexNumber(d) == Some(|d|) && LexNumber("-" + d) == Some(|d| + 1)
  {
    UnsignedDigits(d);
    FrontBack("-", d);
    assert d[0..] == d && SignPart(d) == Some(0);
    assert SignPart("-" + d) == Some(1);
  }

  lemma UnsignedDigits(d: string)
    requires d != "" && DigitRun(d) == |d| && (d[0] == '0' ==> d == "0")
    ensures Unsigned()(d) == Some(|d|)
  {
    assert IntPart(d) == Some(|d|);
    assert d[|d|..] == "";
    NothingFollows();
  }

  lemma NothingFollows()
    ensures FracExp()("") == Some(0)
  {
    assert FracPart("") == Some(0) && ""[0..] == "" && ExpPart("") == Some(0);
  }
}
