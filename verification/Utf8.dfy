/** UTF-8 (RFC 3629), the encoding of every frame on the wire.

    A Rust `String` is a sequence of Unicode scalar values, which is what a Dafny `string` is;
    the wire carries its UTF-8 bytes. The decoder is strict: it accepts shortest forms only. */
module Utf8 {
  type byte = b: int | 0 <= b < 256
  type Bytes = seq<byte>

  datatype Option<+T> = None | Some(value: T)

  function EncodeChar(c: char): (r: Bytes)
    ensures 1 <= |r| <= 4
  {
    var n := c as int;
    if n < 0x80 then [n]
    else if n < 0x800 then [0xC0 + n / 64, 0x80 + n % 64]
    else if n < 0x1_0000 then [0xE0 + n / 64 / 64, 0x80 + n / 64 % 64, 0x80 + n % 64]
    else [0xF0 + n / 64 / 64 / 64, 0x80 + n / 64 / 64 % 64, 0x80 + n / 64 % 64, 0x80 + n % 64]
  }

  function Encode(t: string): (r: Bytes)
    ensures |t| <= |r|
  {
    if t == "" then [] else EncodeChar(t[0]) + Encode(t[1..])
  }

  /** The table of RFC 3629, section 3: how many bytes a code point takes, and which of its bits each
      one carries. */
  lemma EncodingTable(c: char)
    ensures var n, e := c as int, EncodeChar(c);
      && (|e| == 1 <==> n < 0x80) && (|e| == 2 <==> 0x80 <= n < 0x800)
      && (|e| == 3 <==> 0x800 <= n < 0x1_0000) && (|e| == 4 <==> 0x1_0000 <= n)
      && (forall i :: 1 <= i < |e| ==> 0x80 <= e[i] < 0xC0)
      && n == match |e|
         case 1 => e[0] as int
         case 2 => (e[0] as int - 0xC0) * 0x40 + (e[1] as int - 0x80)
         case 3 => (e[0] as int - 0xE0) * 0x1000 + (e[1] as int - 0x80) * 0x40 + (e[2] as int - 0x80)
         case _ => (e[0] as int - 0xF0) * 0x4_0000 + (e[1] as int - 0x80) * 0x1000
                   + (e[2] as int - 0x80) * 0x40 + (e[3] as int - 0x80)
  {
  }

  predicate IsScalar(n: int) {
    0 <= n < 0xD800 || 0xE000 <= n < 0x11_0000
  }

  predicate IsTail(b: byte) {
    0x80 <= b < 0xC0
  }

  /** The code point at the front of `b` and how many bytes spell it; `None` when no shortest-form
      encoding of a scalar value starts there. */
  function DecodeOne(b: Bytes): (r: Option<(char, nat)>)
    requires b != []
    ensures r.Some? ==> 1 <= r.value.1 <= |b|
  {
    if b[0] < 0x80 then Some((b[0] as char, 1))
    else if 0xC0 <= b[0] < 0xE0 && |b| >= 2 && IsTail(b[1]) then
      var n: int := (b[0] as int - 0xC0) * 64 + (b[1] as int - 0x80);
      if n >= 0x80 then Some((n as char, 2)) else None
    else if 0xE0 <= b[0] < 0xF0 && |b| >= 3 && IsTail(b[1]) && IsTail(b[2]) then
      var n: int := ((b[0] as int - 0xE0) * 64 + (b[1] as int - 0x80)) * 64 + (b[2] as int - 0x80);
      if n >= 0x800 && IsScalar(n) then Some((n as char, 3)) else None
    else if 0xF0 <= b[0] < 0xF8 && |b| >= 4 && IsTail(b[1]) && IsTail(b[2]) && IsTail(b[3]) then
      var n: int := (((b[0] as int - 0xF0) * 64 + (b[1] as int - 0x80)) * 64 + (b[2] as int - 0x80)) * 64 + (b[3] as int - 0x80);
      if n >= 0x1_0000 && IsScalar(n) then Some((n as char, 4)) else None
    else None
  }

  function Decode(b: Bytes): (r: Option<string>) {
    if b == [] then Some("") else
    match DecodeOne(b)
    case None => None
    case Some((c, k)) =>
      match Decode(b[k..])
      case None => None
      case Some(t) => Some([c] + t)
  }

  lemma Assoc<T>(a: seq<T>, b: seq<T>, c: seq<T>)
    ensures a + (b + c) == (a + b) + c
  {
  }

  lemma AssocDrop<T>(x: T, s: seq<T>, rest: seq<T>)
    ensures ([x] + s + rest)[1..] == s + rest
  {
  }

  lemma AppendDrop<T>(a: seq<T>, rest: seq<T>, k: nat)
    requires k <= |a|
    ensures (a + rest)[k..] == a[k..] + rest
  {
  }

  lemma TakeDrop<T>(s: seq<T>, k: nat, i: nat)
    requires i <= k <= |s|
    ensures s[..k][i..] == s[i..][..k - i]
  {
  }

  lemma HeadTail<T>(s: seq<T>, k: nat)
    requires k <= |s|
    ensures s == s[..k] + s[k..]
  {
  }

  lemma FrontBack<T>(a: seq<T>, b: seq<T>)
    ensures (a + b)[..|a|] == a && (a + b)[|a|..] == b
  {
  }

  lemma DecodeOneEncoded(c: char, rest: Bytes)
    ensures DecodeOne(EncodeChar(c) + rest) == Some((c, |EncodeChar(c)|))
  {
  }

  lemma Split64(hi: nat, lo: nat)
    requires lo < 64
    ensures (hi * 64 + lo) / 64 == hi && (hi * 64 + lo) % 64 == lo
  {
  }

  lemma DecodeThree(b: Bytes)
    requires b != [] && DecodeOne(b).Some? && DecodeOne(b).value.1 == 3
    ensures EncodeChar(DecodeOne(b).value.0) == b[..3]
  {
    Split64((b[0] as int - 0xE0) * 64 + (b[1] as int - 0x80), b[2] - 0x80);
    Split64(b[0] - 0xE0, b[1] - 0x80);
  }

  lemma DecodeFour(b: Bytes)
    requires b != [] && DecodeOne(b).Some? && DecodeOne(b).value.1 == 4
    ensures EncodeChar(DecodeOne(b).value.0) == b[..4]
  {
    var g: nat := (b[0] as int - 0xF0) * 64 + (b[1] as int - 0x80);
    Split64(g * 64 + (b[2] as int - 0x80), b[3] - 0x80);
    Split64(g, b[2] - 0x80);
    Split64(b[0] - 0xF0, b[1] - 0x80);
  }

  lemma DecodeOneStrict(b: Bytes)
    requires b != [] && DecodeOne(b).Some?
    ensures var (c, k) := DecodeOne(b).value; EncodeChar(c) == b[..k]
  {
    var k := DecodeOne(b).value.1;
    if k == 2 {
      Split64(b[0] - 0xC0, b[1] - 0x80);
    } else if k == 3 {
      DecodeThree(b);
    } else if k == 4 {
      DecodeFour(b);
    }
  }

  /** The decoder inverts the encoder. */
  lemma {:induction false} DecodeEncode(t: string)
    ensures Decode(Encode(t)) == Some(t)
  {
    if t != "" {
      var head, tail := EncodeChar(t[0]), Encode(t[1..]);
      DecodeOneEncoded(t[0], tail);
      FrontBack(head, tail);
      DecodeEncode(t[1..]);
      assert t == [t[0]] + t[1..];
    }
  }

  lemma EncodeCons(c: char, t: string)
    ensures Encode([c] + t) == EncodeChar(c) + Encode(t)
  {
    FrontBack([c], t);
  }

  lemma DecodeStep(b: Bytes) returns (c: char, k: nat)
    requires b != [] && Decode(b).Some?
    ensures DecodeOne(b) == Some((c, k)) && k <= |b| && Decode(b[k..]).Some?
    ensures Decode(b).value == [c] + Decode(b[k..]).value
    ensures EncodeChar(c) == b[..k]
  {
    DecodeOneStrict(b);
    c, k := DecodeOne(b).value.0, DecodeOne(b).value.1;
  }

  /** ... and accepts nothing else: every byte string has at most one reading. */
  lemma {:induction false} EncodeDecode(b: Bytes)
    requires Decode(b).Some?
    ensures Encode(Decode(b).value) == b
  {
    if b != [] {
      var c, k := DecodeStep(b);
      EncodeDecode(b[k..]);
      EncodeCons(c, Decode(b[k..]).value);
      HeadTail(b, k);
    }
  }

  /** A byte below 0x80 appears exactly where the character itself does. */
  lemma {:induction false} AsciiByte(t: string, a: char)
    requires a as int < 0x80
    ensures a as int in Encode(t) <==> a in t
  {
    if t != "" {
      AsciiByte(t[1..], a);
      assert a in t <==> a == t[0] || a in t[1..];
      assert a as int in EncodeChar(t[0]) <==> a == t[0];
    }
  }

  lemma {:induction false} AsciiLength(t: string)
    requires forall k :: 0 <= k < |t| ==> t[k] as int < 0x80
    ensures |Encode(t)| == |t|
  {
    if t != "" { AsciiLength(t[1..]); }
  }

  lemma {:induction false} EncodeConcat(a: string, b: string)
    ensures Encode(a + b) == Encode(a) + Encode(b)
  {
    if a == "" {
      assert a + b == b;
    } else {
      EncodeConcat(a[1..], b);
      assert (a + b)[1..] == a[1..] + b;
      Assoc(EncodeChar(a[0]), Encode(a[1..]), Encode(b));
    }
  }
}
