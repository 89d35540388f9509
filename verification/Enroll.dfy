/** The default user id minted from a display name. */
module Enroll {
  import Utf8

  predicate IsAlnum(c: char) {
    '0' <= c <= '9' || 'A' <= c <= 'Z' || 'a' <= c <= 'z'
  }

  function LowerChar(c: char): char {
    if 'A' <= c <= 'Z' then (c as int + 32) as char else c
  }

  predicate IsLower(c: char) { '0' <= c <= '9' || 'a' <= c <= 'z' }

  // ---- The declarative slug: words joined by single dashes ------------------------------------

  /** How many ASCII alphanumerics `s` opens with. */
  function Run(s: string): (k: nat)
    ensures k <= |s|
    ensures forall i :: 0 <= i < k ==> IsAlnum(s[i])
    ensures k < |s| ==> !IsAlnum(s[k])
  {
    if s == "" || !IsAlnum(s[0]) then 0 else 1 + Run(s[1..])
  }

  function Lower(s: string): (r: string)
    ensures |r| == |s| && forall i :: 0 <= i < |s| ==> r[i] == LowerChar(s[i])
  {
    seq(|s|, i requires 0 <= i < |s| => LowerChar(s[i]))
  }

  /** The maximal alphanumeric runs, lowercased, in order. */
  function Words(s: string): seq<string>
    decreases |s|
  {
    if s == "" then []
    else if !IsAlnum(s[0]) then Words(s[1..])
    else [Lower(s[..Run(s)])] + Words(s[Run(s)..])
  }

  function Dashed(ws: seq<string>): string
    decreases |ws|, 0
  {
    if ws == [] then "" else ws[0] + DashTail(ws[1..])
  }

  function DashTail(ws: seq<string>): string
    decreases |ws|, 1
  {
    if ws == [] then "" else "-" + Dashed(ws)
  }

  function Slug(name: string): string {
    var ws := Words(name);
    if ws == [] then "user" else Dashed(ws)
  }

  // ---- The loop -----------------------------------------------------------------------------

  function TrimDashes(s: string): string {
    if s != "" && s[|s| - 1] == '-' then TrimDashes(s[..|s| - 1]) else s
  }

  /** What is still to come in the middle of a word. */
  function Continued(rest: string): string {
    Lower(rest[..Run(rest)]) + DashTail(Words(rest[Run(rest)..]))
  }

  lemma WordOpens(rest: string)
    requires rest != "" && IsAlnum(rest[0])
    ensures Words(rest) != [] && Dashed(Words(rest)) == Continued(rest)
    ensures Continued(rest) == [LowerChar(rest[0])] + Continued(rest[1..])
  {
    var k := Run(rest);
    var head, tail := Lower(rest[1..][..k - 1]), DashTail(Words(rest[k..]));
    assert ([Lower(rest[..k])] + Words(rest[k..]))[1..] == Words(rest[k..]);
    assert rest[1..][k - 1..] == rest[k..];
    assert Lower(rest[..k]) == [LowerChar(rest[0])] + head;
    Utf8.Assoc([LowerChar(rest[0])], head, tail);
  }

  lemma WordEnds(rest: string)
    requires rest != "" && !IsAlnum(rest[0])
    ensures Continued(rest) == DashTail(Words(rest[1..]))
  {
    assert rest[..0] == "" && rest[0..] == rest;
  }

  /** What the loop has in hand, and the whole it will come to. */
  predicate Building(s: string, lastDash: bool, rest: string, whole: string) {
    if lastDash
    then (s == "" || (|s| > 1 && s[|s| - 1] == '-' && s[|s| - 2] != '-'))
         && whole == if Words(rest) == [] then TrimDashes(s) else s + Dashed(Words(rest))
    else s != "" && s[|s| - 1] != '-' && whole == s + Continued(rest)
  }

  lemma BuildStep(s: string, lastDash: bool, rest: string, whole: string)
    requires rest != "" && Building(s, lastDash, rest, whole)
    ensures var c := rest[0];
      if IsAlnum(c) then Building(s + [LowerChar(c)], false, rest[1..], whole)
      else Building(if lastDash then s else s + "-", true, rest[1..], whole)
  {
    if IsAlnum(rest[0]) {
      WordOpens(rest);
      Utf8.Assoc(s, [LowerChar(rest[0])], Continued(rest[1..]));
    } else if !lastDash {
      DashStep(s, rest, whole);
    }
  }

  lemma DashStep(s: string, rest: string, whole: string)
    requires rest != "" && !IsAlnum(rest[0]) && Building(s, false, rest, whole)
    ensures Building(s + "-", true, rest[1..], whole)
  {
    WordEnds(rest);
    TrimOne(s);
    var ws := Words(rest[1..]);
    if ws == [] {
      assert s + "" == s;
    } else {
      Utf8.Assoc(s, "-", Dashed(ws));
    }
  }

  lemma TrimOne(s: string)
    requires s != "" && s[|s| - 1] != '-'
    ensures TrimDashes(s + "-") == s
  {
    Utf8.FrontBack(s, "-");
  }

  /** `slug`: the loop with its `last_dash` flag and the trailing trim. */
  method SlugOf(name: string) returns (id: string)
    ensures id == Slug(name)
  {
    var s, lastDash, i := "", true, 0;
    ghost var whole := Dashed(Words(name));
    while i < |name|
      invariant 0 <= i <= |name|
      invariant Building(s, lastDash, name[i..], whole)
    {
      var c := name[i];
      BuildStep(s, lastDash, name[i..], whole);
      assert name[i..][1..] == name[i + 1..];
      if IsAlnum(c) {
        s := s + [LowerChar(c)];
        lastDash := false;
      } else if !lastDash {
        s := s + "-";
        lastDash := true;
      }
      i := i + 1;
    }
    assert Continued("") == "";
    assert !lastDash ==> TrimDashes(s) == s && s + "" == s;
    while s != "" && s[|s| - 1] == '-'
      invariant TrimDashes(s) == whole
      decreases |s|
    {
      s := s[..|s| - 1];
    }
    WordsNonEmpty(name);
    id := if s == "" then "user" else s;
  }

  lemma {:induction false} WordsNonEmpty(s: string)
    ensures Words(s) != [] <==> exists i :: 0 <= i < |s| && IsAlnum(s[i])
    ensures Words(s) != [] <==> Dashed(Words(s)) != ""
    decreases |s|
  {
    if s != "" && !IsAlnum(s[0]) {
      WordsNonEmpty(s[1..]);
      assert (exists i :: 0 <= i < |s| && IsAlnum(s[i])) ==> exists i :: 0 <= i < |s[1..]| && IsAlnum(s[1..][i]);
    }
  }

  // ---- What a slug is -----------------------------------------------------------------------

  predicate IsWord(w: string) {
    w != "" && forall i :: 0 <= i < |w| ==> IsLower(w[i])
  }

  predicate AllWords(ws: seq<string>) {
    ws != [] ==> IsWord(ws[0]) && AllWords(ws[1..])
  }

  /** Non-empty, of lowercase letters, digits and dashes, with no dash first, last or doubled. */
  predicate IsSlug(r: string) {
    && r != "" && IsLower(r[0]) && IsLower(r[|r| - 1])
    && (forall i :: 0 <= i < |r| ==> IsLower(r[i]) || r[i] == '-')
    && (forall i :: 0 <= i < |r| - 1 ==> IsLower(r[i]) || IsLower(r[i + 1]))
  }

  lemma {:induction false} WordsAreWords(s: string)
    ensures AllWords(Words(s))
    decreases |s|
  {
    if s != "" {
      if IsAlnum(s[0]) {
        WordsAreWords(s[Run(s)..]);
        assert Words(s)[1..] == Words(s[Run(s)..]);
      } else {
        WordsAreWords(s[1..]);
      }
    }
  }

  lemma JoinIsSlug(w: string, t: string)
    requires IsWord(w) && IsSlug(t)
    ensures IsSlug(w + "-" + t)
  {
    var r := w + "-" + t;
    assert r[|r| - 1] == t[|t| - 1];
    forall i | 0 <= i < |r| - 1 ensures IsLower(r[i]) || IsLower(r[i + 1]) {
      if i > |w| { assert r[i] == t[i - |w| - 1] && r[i + 1] == t[i - |w|]; }
    }
  }

  lemma {:induction false} DashedIsSlug(ws: seq<string>)
    requires ws != [] && AllWords(ws)
    ensures IsSlug(Dashed(ws))
  {
    if |ws| == 1 {
      assert Dashed(ws) == ws[0];
    } else {
      DashedIsSlug(ws[1..]);
      JoinIsSlug(ws[0], Dashed(ws[1..]));
      Utf8.Assoc(ws[0], "-", Dashed(ws[1..]));
    }
  }

  lemma LowerWord(w: string)
    requires IsWord(w)
    ensures Lower(w) == w
  {
  }

  lemma {:induction false} RunOfWord(w: string, rest: string)
    requires IsWord(w) && (rest == "" || !IsAlnum(rest[0]))
    ensures Run(w + rest) == |w|
  {
    if |w| > 1 {
      RunOfWord(w[1..], rest);
      assert (w + rest)[1..] == w[1..] + rest;
    } else {
      assert (w + rest)[1..] == rest;
    }
  }

  /** Reading the joined words back gives the words. */
  lemma {:induction false} WordsOfDashed(ws: seq<string>)
    requires AllWords(ws)
    ensures Words(Dashed(ws)) == ws
  {
    if ws != [] {
      var w, t := ws[0], DashTail(ws[1..]);
      WordsOfDashed(ws[1..]);
      RunOfWord(w, t);
      LowerWord(w);
      var r := w + t;
      assert r[..|w|] == w && r[|w|..] == t;
      assert IsAlnum(r[0]);
      if ws[1..] != [] { assert t[1..] == Dashed(ws[1..]); }
      assert Words(t) == ws[1..];
    }
  }

  function Concat(ws: seq<string>): string {
    if ws == [] then "" else ws[0] + Concat(ws[1..])
  }

  /** The alphanumerics alone, lowercased. */
  function Kept(s: string): string {
    if s == "" then "" else (if IsAlnum(s[0]) then [LowerChar(s[0])] else "") + Kept(s[1..])
  }

  lemma {:induction false} KeptRun(s: string, k: nat)
    requires k <= |s| && forall i :: 0 <= i < k ==> IsAlnum(s[i])
    ensures Kept(s) == Lower(s[..k]) + Kept(s[k..])
  {
    if k > 0 {
      KeptRun(s[1..], k - 1);
      assert s[1..][k - 1..] == s[k..];
      assert Lower(s[..k]) == [LowerChar(s[0])] + Lower(s[1..][..k - 1]);
    } else {
      assert s[0..] == s;
    }
  }

  /** No alphanumeric is lost, added or moved. */
  lemma {:induction false} WordsKeepLetters(s: string)
    ensures Concat(Words(s)) == Kept(s)
    decreases |s|
  {
    if s != "" {
      if IsAlnum(s[0]) {
        WordsKeepLetters(s[Run(s)..]);
        KeptRun(s, Run(s));
        assert Words(s)[1..] == Words(s[Run(s)..]);
      } else {
        WordsKeepLetters(s[1..]);
      }
    }
  }

  /** Every slug is well shaped, keeps the name's letters and digits in order (or is `user` when there
      are none), and is its own slug. */
  lemma SlugProperties(name: string)
    ensures IsSlug(Slug(name))
    ensures Kept(Slug(name)) == (if Kept(name) == "" then "user" else Kept(name))
    ensures Slug(Slug(name)) == Slug(name)
  {
    var ws := if Words(name) == [] then ["user"] else Words(name);
    WordsAreWords(name);
    assert IsWord("user") && ["user"][1..] == [];
    assert AllWords(ws);
    assert Dashed(["user"]) == "user";
    assert Slug(name) == Dashed(ws);
    DashedIsSlug(ws);
    WordsOfDashed(ws);
    WordsKeepLetters(name);
    WordsKeepLetters(Slug(name));
    assert Concat(["user"]) == "user";
    WordsConcatEmpty(name);
  }

  lemma WordsConcatEmpty(name: string)
    ensures Concat(Words(name)) == "" <==> Words(name) == []
  {
    WordsAreWords(name);
  }

  // ---- Letter by letter -----------------------------------------------------------------------

  const UPPER := "ABCDEFGHIJKLMNOPQRSTUVWXYZ"
  const LOWER := "abcdefghijklmnopqrstuvwxyz"

  /** Lowercasing gives each capital the letter at its place in the alphabet, and leaves the rest. */
  lemma Alphabet(c: char)
    ensures c in UPPER ==> exists k :: 0 <= k < 26 && c == UPPER[k] && LowerChar(c) == LOWER[k]
    ensures c !in UPPER ==> LowerChar(c) == c
    ensures IsAlnum(c) <==> c in UPPER || c in LOWER || c in "0123456789"
  {
    if 'A' <= c <= 'Z' {
      var k := c as int - 'A' as int;
      UpperAt(k);
      LowerAt(k);
    } else if 'a' <= c <= 'z' {
      LowerAt(c as int - 'a' as int);
    } else if '0' <= c <= '9' {
      DigitAt(c as int - '0' as int);
    } else {
      NoneElse(c);
    }
  }

  lemma UpperAt(k: nat)
    requires k < 26
    ensures UPPER[k] as int == 'A' as int + k
  {
  }

  lemma LowerAt(k: nat)
    requires k < 26
    ensures LOWER[k] as int == 'a' as int + k
  {
  }

  lemma DigitAt(k: nat)
    requires k < 10
    ensures "0123456789"[k] as int == '0' as int + k
  {
  }

  lemma NoneElse(c: char)
    requires !IsAlnum(c)
    ensures c !in UPPER && c !in LOWER && c !in "0123456789"
  {
    forall k | 0 <= k < 26 ensures UPPER[k] != c && LOWER[k] != c { UpperAt(k); LowerAt(k); }
    forall k | 0 <= k < 10 ensures "0123456789"[k] != c { DigitAt(k); }
  }

  /** Text without letters and digits, on either side. */
  predicate Apart(s: string) { s == "" || !IsAlnum(s[0]) }

  predicate ApartBefore(s: string) { s == "" || !IsAlnum(s[|s| - 1]) }

  lemma {:induction false} RunExtends(a: string, b: string)
    requires Apart(b)
    ensures Run(a + b) == Run(a)
  {
    if a == "" {
      assert a + b == b;
    } else {
      Utf8.AppendDrop(a, b, 1);
      RunExtends(a[1..], b);
    }
  }

  lemma {:induction false} RunWhole(w: string)
    requires forall i :: 0 <= i < |w| ==> IsAlnum(w[i])
    ensures Run(w) == |w|
  {
    if w != "" { RunWhole(w[1..]); }
  }

  /** Where letters and digits stop, the words on either side have nothing to do with each other. */
  lemma {:induction false} WordsSplit(a: string, b: string)
    requires Apart(b)
    ensures Words(a + b) == Words(a) + Words(b)
    decreases |a|
  {
    if a == "" {
      assert a + b == b;
    } else if !IsAlnum(a[0]) {
      Utf8.AppendDrop(a, b, 1);
      WordsSplit(a[1..], b);
    } else {
      var k := Run(a);
      RunExtends(a, b);
      Utf8.AppendDrop(a, b, k);
      assert (a + b)[..k] == a[..k];
      WordsSplit(a[k..], b);
      Utf8.Assoc([Lower(a[..k])], Words(a[k..]), Words(b));
    }
  }

  lemma {:induction false} WordsDrop(a: string, b: string)
    requires a != "" && !IsAlnum(a[|a| - 1])
    ensures Words(a + b) == Words(a) + Words(b)
    decreases |a|
  {
    if |a| == 1 {
      Utf8.FrontBack(a, b);
      assert Words(a) == Words("") == [];
    } else {
      var front := a[..|a| - 1];
      Utf8.HeadTail(a, |a| - 1);
      var last := a[|a| - 1..];
      Utf8.Assoc(front, last, b);
      WordsSplit(front, last + b);
      WordsSplit(front, last);
      assert Words(last) == [] && Words(last + b) == Words(b) by {
        Utf8.FrontBack(last, b);
        assert last[1..] == "";
      }
    }
  }

  /** The words are the maximal runs: wherever letters and digits stand between other text, they are one
      word, lowercased, among the words of what stands before and of what stands after. */
  lemma WordsAreRuns(before: string, run: string, after: string)
    requires ApartBefore(before) && run != "" && (forall i :: 0 <= i < |run| ==> IsAlnum(run[i])) && Apart(after)
    ensures Words(before + run + after) == Words(before) + [Lower(run)] + Words(after)
  {
    WordsSplit(before + run, after);
    RunWhole(run);
    assert run[..|run|] == run && run[|run|..] == "";
    assert Words(run) == [Lower(run)];
    if before == "" { assert before + run == run; } else { WordsDrop(before, run); }
  }

  /** Text without a letter or digit has no words, and the slug `user`. */
  lemma {:induction false} NoWords(s: string)
    requires forall i :: 0 <= i < |s| ==> !IsAlnum(s[i])
    ensures Words(s) == [] && Slug(s) == "user"
  {
    if s != "" { NoWords(s[1..]); }
  }

  /** Two words make a slug with one dash, whatever stands between them. */
  lemma TwoWords(a: string, gap: string, b: string)
    requires a != "" && (forall i :: 0 <= i < |a| ==> IsAlnum(a[i]))
    requires gap != "" && (forall i :: 0 <= i < |gap| ==> !IsAlnum(gap[i]))
    requires b != "" && (forall i :: 0 <= i < |b| ==> IsAlnum(b[i]))
    ensures Slug(a + gap + b) == Lower(a) + "-" + Lower(b)
  {
    Utf8.Assoc(a, gap, b);
    assert a + gap + b + "" == a + gap + b && "" + a + gap == a + gap;
    WordsAreRuns(a + gap, b, "");
    WordsAreRuns("", a, gap);
    NoWords(gap);
    assert Words("") == [];
    DashedTwo(Lower(a), Lower(b));
    assert [] + [Lower(a)] + [] + [Lower(b)] + [] == [Lower(a), Lower(b)];
  }

  lemma DashedTwo(x: string, y: string)
    ensures Dashed([x, y]) == x + "-" + y
  {
    assert [x, y][1..] == [y] && [y][1..] == [];
    assert Dashed([y]) == y + "";
    assert y + "" == y;
    Utf8.Assoc(x, "-", y);
  }
}
