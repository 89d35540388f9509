/** Where the control socket lives under a profile root, and the FNV-1a hash that shortens it. */
module Paths {
  import opened Utf8
  import opened Json

  // ---- FNV-1a -------------------------------------------------------------------------------

  /** The 64-bit offset basis. */
  const OFFSET: bv64 := 0xcbf2_9ce4_8422_2325

  function Mix(h: bv64, b: bv8): bv64 { h ^ (b as bv64) }

  /** Times the 64-bit FNV prime, wrapping. */
  function Times(x: bv64): bv64 { x * 0x100_0000_01b3 }

  /** Times the prime's inverse modulo 2^64. */
  function Over(x: bv64): bv64 { x * 0xce96_5057_aff6_957b }

  /** One round: xor the byte in, then multiply. */
  function Round(h: bv64, b: bv8): bv64 {
    Times(Mix(h, b))
  }

  /** Rounds over all the bytes, in order. */
  function Fold(round: (bv64, bv8) -> bv64, h: bv64, bytes: seq<bv8>): bv64
    decreases |bytes|
  {
    if bytes == [] then h else Fold(round, round(h, bytes[0]), bytes[1..])
  }

  lemma OverProduct(x: bv64)
    ensures Over(x * 0x100_0000_01b3) == x
  {
  }

  /** The prime is odd, hence invertible modulo 2^64. */
  lemma OverTimes(x: bv64)
    ensures Over(Times(x)) == x
  {
    OverProduct(x);
  }

  lemma MixInjective(g: bv64, h: bv64, a: bv8, b: bv8)
    ensures Mix(g, a) == Mix(h, a) ==> g == h
    ensures Mix(h, a) == Mix(h, b) ==> a == b
  {
  }

  lemma RoundSameByte(g: bv64, h: bv64, a: bv8)
    requires Round(g, a) == Round(h, a)
    ensures g == h
  {
    OverTimes(Mix(g, a));
    OverTimes(Mix(h, a));
    MixInjective(g, h, a, a);
  }

  lemma RoundSameStart(h: bv64, a: bv8, b: bv8)
    requires Round(h, a) == Round(h, b)
    ensures a == b
  {
    OverTimes(Mix(h, a));
    OverTimes(Mix(h, b));
    MixInjective(h, h, a, b);
  }

  /** A round that merges neither two accumulators nor two bytes. */
  ghost predicate Injective(round: (bv64, bv8) -> bv64) {
    && (forall g: bv64, h: bv64, a: bv8 :: round(g, a) == round(h, a) ==> g == h)
    && (forall h: bv64, a: bv8, b: bv8 :: round(h, a) == round(h, b) ==> a == b)
  }

  /** FNV-1a's round is one. */
  lemma RoundInjective()
    ensures Injective(Round)
  {
    forall g: bv64, h: bv64, a: bv8 | Round(g, a) == Round(h, a) ensures g == h { RoundSameByte(g, h, a); }
    forall h: bv64, a: bv8, b: bv8 | Round(h, a) == Round(h, b) ensures a == b { RoundSameStart(h, a, b); }
  }

  lemma RoundApart(round: (bv64, bv8) -> bv64, g: bv64, h: bv64, a: bv8)
    requires Injective(round) && g != h
    ensures round(g, a) != round(h, a)
  {
  }

  /** Over the same bytes, different accumulators stay different. */
  lemma {:induction false} FoldInjectiveInStart(round: (bv64, bv8) -> bv64, g: bv64, h: bv64, bytes: seq<bv8>)
    requires Injective(round) && g != h
    ensures Fold(round, g, bytes) != Fold(round, h, bytes)
    decreases |bytes|
  {
    if bytes != [] {
      RoundApart(round, g, h, bytes[0]);
      FoldInjectiveInStart(round, round(g, bytes[0]), round(h, bytes[0]), bytes[1..]);
    }
  }

  lemma {:induction false} FoldOneByteApart(round: (bv64, bv8) -> bv64, h: bv64, a: seq<bv8>, b: seq<bv8>, i: nat)
    requires Injective(round)
    requires |a| == |b| && i < |a| && a[i] != b[i]
    requires forall j :: 0 <= j < |a| && j != i ==> a[j] == b[j]
    ensures Fold(round, h, a) != Fold(round, h, b)
    decreases |a|
  {
    if i == 0 {
      assert a[1..] == b[1..];
      FoldInjectiveInStart(round, round(h, a[0]), round(h, b[0]), a[1..]);
    } else {
      FoldOneByteApart(round, round(h, a[0]), a[1..], b[1..], i - 1);
    }
  }

  /** Inputs of one length that differ in exactly one byte never share the 64-bit accumulator. */
  lemma OneByteApart(a: seq<bv8>, b: seq<bv8>, i: nat)
    requires |a| == |b| && i < |a| && a[i] != b[i]
    requires forall j :: 0 <= j < |a| && j != i ==> a[j] == b[j]
    ensures Fold(Round, OFFSET, a) != Fold(Round, OFFSET, b)
  {
    RoundInjective();
    FoldOneByteApart(Round, OFFSET, a, b, i);
  }

  /** The published 64-bit values for the empty string and for `a`. */
  lemma KnownAccumulators()
    ensures Accumulator("") == 0xcbf2_9ce4_8422_2325 && Accumulator("a") == 0xaf63_dc4c_8601_ec8c
  {
    assert Octets("") == [];
    assert Encode("a") == [97] && Octets("a") == [0x61];
    OneRound();
    assert Fold(Round, OFFSET, [0x61]) == Fold(Round, Round(OFFSET, 0x61), []);
  }

  /** The bytes are those of the UTF-8 encoding. */
  lemma KnownTwoBytes()
    ensures Accumulator("\U{e9}") == 0x0ac2_1707_b718_1e01
  {
    var t := "\U{e9}";
    assert Encode(t) == [0xC3, 0xA9];
    assert Octets(t) == [0xC3, 0xA9];
    TwoRounds();
    assert [0xC3 as bv8, 0xA9][1..] == [0xA9];
    assert Fold(Round, OFFSET, [0xC3, 0xA9]) == Fold(Round, Round(OFFSET, 0xC3), [0xA9]);
    assert Fold(Round, 0xaf64_7e4c_8602_ffd2, [0xA9]) == Fold(Round, Round(0xaf64_7e4c_8602_ffd2, 0xA9), []);
  }

  lemma TwoRounds()
    ensures Round(OFFSET, 0xC3) == 0xaf64_7e4c_8602_ffd2 && Round(0xaf64_7e4c_8602_ffd2, 0xA9) == 0x0ac2_1707_b718_1e01
  {
  }

  lemma OneRound()
    ensures Round(OFFSET, 0x61) == 0xaf63_dc4c_8601_ec8c
  {
  }

  /** And what their names spell: the two halves, xored. */
  lemma KnownNames()
    ensures Halve(Accumulator("")) == 0x4fd0_bfc1 && Halve(Accumulator("a")) == 0x2962_30c0
  {
    KnownAccumulators();
    HalvesKnown();
  }

  lemma HalvesKnown()
    ensures Halve(0xcbf2_9ce4_8422_2325) == 0x4fd0_bfc1 && Halve(0xaf63_dc4c_8601_ec8c) == 0x2962_30c0
  {
  }

  // ---- The folded name ----------------------------------------------------------------------

  /** A Rust string's bytes. */
  function Octets(s: string): seq<bv8> {
    var e := Encode(s);
    seq(|e|, i requires 0 <= i < |e| => e[i] as bv8)
  }

  /** The two halves of the accumulator, folded to 32 bits. */
  function Halve(h: bv64): nat {
    (((h >> 32) ^ h) as int) % 0x1_0000_0000
  }

  /** The lowest `width` hex digits, zero-padded. */
  function Hex(n: nat, width: nat): (r: string)
    ensures |r| == width
    ensures forall i :: 0 <= i < width ==> '0' <= r[i] <= '9' || 'a' <= r[i] <= 'f'
    decreases width
  {
    if width == 0 then "" else Hex(n / 16, width - 1) + [Digit(n % 16)]
  }

  /** The number hex digits denote. */
  function HexNat(s: string): nat {
    if s == "" || HexValue(s[|s| - 1]).None? then 0
    else HexNat(s[..|s| - 1]) * 16 + HexValue(s[|s| - 1]).value
  }

  function Pow16(k: nat): (r: nat)
    ensures r > 0
  {
    if k == 0 then 1 else 16 * Pow16(k - 1)
  }

  lemma HexNatSnoc(front: string, d: nat)
    requires d < 16
    ensures HexNat(front + [Digit(d)]) == HexNat(front) * 16 + d
  {
    FrontBack(front, [Digit(d)]);
  }

  /** `{:08x}` loses nothing of a number that fits the width. */
  lemma {:induction false} HexReadsBack(n: nat, width: nat)
    requires n < Pow16(width)
    ensures HexNat(Hex(n, width)) == n
  {
    if width > 0 {
      HexReadsBack(n / 16, width - 1);
      HexNatSnoc(Hex(n / 16, width - 1), n % 16);
    }
  }

  function Accumulator(s: string): bv64 {
    Fold(Round, OFFSET, Octets(s))
  }

  /** `fnv8`, as the loop computes it. */
  method Fnv8(s: string) returns (name: string)
    ensures name == Hex(Halve(Accumulator(s)), 8)
  {
    var h, i, bytes := OFFSET, 0, Octets(s);
    while i < |bytes|
      invariant 0 <= i <= |bytes|
      invariant Fold(Round, h, bytes[i..]) == Accumulator(s)
    {
      assert bytes[i..][1..] == bytes[i + 1..];
      h := Round(h, bytes[i]);
      i := i + 1;
    }
    name := Hex(Halve(h), 8);
  }

  /** The name is always 8 lowercase hex digits, and they spell the folded accumulator. */
  lemma Fnv8Shape(s: string)
    ensures var name := Hex(Halve(Accumulator(s)), 8);
      && |name| == 8 && HexNat(name) == Halve(Accumulator(s))
      && forall i :: 0 <= i < 8 ==> '0' <= name[i] <= '9' || 'a' <= name[i] <= 'f'
  {
    assert Pow16(4) == 0x1_0000;
    assert Pow16(8) == 0x1_0000_0000;
    HexReadsBack(Halve(Accumulator(s)), 8);
  }

  // ---- The socket path ----------------------------------------------------------------------

  /** `Path::join` of a relative component. */
  function JoinPath(dir: string, name: string): string {
    if dir == "" || dir[|dir| - 1] == '/' then dir + name else dir + "/" + name
  }

  function ByteLength(s: string): nat { |Encode(s)| }

  const SOCKET_NAME := "mcpmesh.sock"

  function FallbackDir(root: string, tmp: string): string {
    JoinPath(tmp, "mcpmesh-" + Hex(Halve(Accumulator(root)), 8))
  }

  function RuntimeUnderRoot(root: string, tmp: string, limit: nat): string {
    var natural := JoinPath(root, "run");
    if ByteLength(JoinPath(natural, SOCKET_NAME)) <= limit then natural else FallbackDir(root, tmp)
  }

  function SocketUnderRoot(root: string, tmp: string, limit: nat): string {
    JoinPath(RuntimeUnderRoot(root, tmp, limit), SOCKET_NAME)
  }

  /** Bytes a join adds besides the name: the separator, unless there is one. */
  function Separator(dir: string): nat {
    if dir == "" || dir[|dir| - 1] == '/' then 0 else 1
  }

  lemma JoinLength(dir: string, name: string)
    requires forall k :: 0 <= k < |name| ==> name[k] as int < 0x80
    ensures ByteLength(JoinPath(dir, name)) == ByteLength(dir) + Separator(dir) + |name|
  {
    AsciiLength(name);
    if Separator(dir) == 0 {
      EncodeConcat(dir, name);
    } else {
      EncodeConcat(dir, "/");
      EncodeConcat(dir + "/", name);
      AsciiLength("/");
    }
  }

  lemma FallbackLength(root: string, tmp: string)
    ensures ByteLength(JoinPath(FallbackDir(root, tmp), SOCKET_NAME)) == ByteLength(tmp) + Separator(tmp) + 29
  {
    var name := "mcpmesh-" + Hex(Halve(Accumulator(root)), 8);
    JoinLength(tmp, name);
    JoinLength(FallbackDir(root, tmp), SOCKET_NAME);
    assert FallbackDir(root, tmp)[|FallbackDir(root, tmp)| - 1] == name[|name| - 1];
  }

  /** The natural directory is kept exactly when its socket path fits; the two can never be confused. */
  lemma NaturalIff(root: string, tmp: string, limit: nat)
    ensures RuntimeUnderRoot(root, tmp, limit) == JoinPath(root, "run")
      <==> ByteLength(JoinPath(JoinPath(root, "run"), "mcpmesh.sock")) <= limit
  {
    var natural, short := JoinPath(root, "run"), FallbackDir(root, tmp);
    assert natural[|natural| - 1] == 'n';
    JoinEnds(tmp, "mcpmesh-" + Hex(Halve(Accumulator(root)), 8));
  }

  lemma JoinEnds(dir: string, name: string)
    requires name != ""
    ensures JoinPath(dir, name)[|JoinPath(dir, name)| - 1] == name[|name| - 1]
  {
  }

  /** Otherwise it is `mcpmesh-` and the root's 8 hex digits in the temp directory. */
  lemma FallbackIff(root: string, tmp: string, limit: nat)
    requires tmp != "" && tmp[|tmp| - 1] != '/'
    requires ByteLength(JoinPath(JoinPath(root, "run"), "mcpmesh.sock")) > limit
    ensures var r := RuntimeUnderRoot(root, tmp, limit);
      && |r| == |tmp| + 17 && r[..|tmp| + 9] == tmp + "/mcpmesh-" && HexNat(r[|tmp| + 9..]) == Halve(Accumulator(root))
  {
    Fnv8Shape(root);
    var name := Hex(Halve(Accumulator(root)), 8);
    FallbackText(tmp, name);
  }

  lemma FallbackText(tmp: string, name: string)
    ensures tmp + "/" + ("mcpmesh-" + name) == (tmp + "/mcpmesh-") + name
    ensures |tmp + "/mcpmesh-"| == |tmp| + 9
    ensures ((tmp + "/mcpmesh-") + name)[..|tmp| + 9] == tmp + "/mcpmesh-" && ((tmp + "/mcpmesh-") + name)[|tmp| + 9..] == name
  {
  }

  /** The socket path under a profile root is bindable exactly when the natural one is or the temp
      directory leaves room for 29 bytes and a separator: a deep root is rescued only by a temp
      directory that is short enough itself. */
  lemma SocketFitsIff(root: string, tmp: string, limit: nat)
    ensures ByteLength(SocketUnderRoot(root, tmp, limit)) <= limit <==>
      (ByteLength(JoinPath(JoinPath(root, "run"), SOCKET_NAME)) <= limit
        || ByteLength(tmp) + Separator(tmp) + 29 <= limit)
  {
    FallbackLength(root, tmp);
  }

  /** In particular at least 30 bytes to spare are always enough. */
  lemma SocketFits(root: string, tmp: string, limit: nat)
    requires ByteLength(tmp) + 30 <= limit
    ensures ByteLength(SocketUnderRoot(root, tmp, limit)) <= limit
  {
    SocketFitsIff(root, tmp, limit);
  }

  /** The longest socket path a unix `bind` accepts: on linux, and on the BSDs and macOS. */
  const LINUX_MAX_SOCKET_PATH: nat := 107
  const BSD_MAX_SOCKET_PATH: nat := 103

  /** So a temp directory of at most 77 bytes (73 on the BSDs and macOS) serves every profile root. */
  lemma ShortTempDirAlwaysFits(root: string, tmp: string)
    ensures ByteLength(tmp) <= 77 ==>
      ByteLength(SocketUnderRoot(root, tmp, LINUX_MAX_SOCKET_PATH)) <= LINUX_MAX_SOCKET_PATH
    ensures ByteLength(tmp) <= 73 ==>
      ByteLength(SocketUnderRoot(root, tmp, BSD_MAX_SOCKET_PATH)) <= BSD_MAX_SOCKET_PATH
  {
    if ByteLength(tmp) <= 77 { SocketFits(root, tmp, LINUX_MAX_SOCKET_PATH); }
    if ByteLength(tmp) <= 73 { SocketFits(root, tmp, BSD_MAX_SOCKET_PATH); }
  }

  /** A shallow root, with and without a trailing slash, keeps its own `run` directory. */
  lemma ShallowRootExample(tmp: string)
    ensures RuntimeUnderRoot("/tmp/p", tmp, LINUX_MAX_SOCKET_PATH) == "/tmp/p/run"
    ensures RuntimeUnderRoot("/tmp/p/", tmp, LINUX_MAX_SOCKET_PATH) == "/tmp/p/run"
    ensures SocketUnderRoot("/tmp/p", tmp, LINUX_MAX_SOCKET_PATH) == "/tmp/p/run/mcpmesh.sock"
  {
    JoinedTexts();
    NaturalFits("/tmp/p", tmp, "/tmp/p/run", "/tmp/p/run/mcpmesh.sock");
    NaturalFits("/tmp/p/", tmp, "/tmp/p/run", "/tmp/p/run/mcpmesh.sock");
  }

  lemma NaturalFits(root: string, tmp: string, natural: string, socket: string)
    requires JoinPath(root, "run") == natural && JoinPath(natural, SOCKET_NAME) == socket
    requires |socket| <= LINUX_MAX_SOCKET_PATH && forall k :: 0 <= k < |socket| ==> socket[k] as int < 0x80
    ensures RuntimeUnderRoot(root, tmp, LINUX_MAX_SOCKET_PATH) == natural
    ensures SocketUnderRoot(root, tmp, LINUX_MAX_SOCKET_PATH) == socket
  {
    AsciiLength(socket);
  }

  lemma JoinedTexts()
    ensures JoinPath("/tmp/p", "run") == "/tmp/p/run" == JoinPath("/tmp/p/", "run")
    ensures JoinPath("/tmp/p/run", SOCKET_NAME) == "/tmp/p/run/mcpmesh.sock"
  {
  }

  function Repeat(c: char, n: nat): (r: string)
    ensures |r| == n && forall i :: 0 <= i < n ==> r[i] == c
  {
    seq(n, i => c)
  }

  /** A deep root and a temp directory of 100 bytes: the fallback does not fit either. */
  lemma DeepTempDirExample()
    ensures var deep := "/" + Repeat('x', 99);
      ByteLength(SocketUnderRoot(deep, deep, LINUX_MAX_SOCKET_PATH)) == 130
  {
    var deep := "/" + Repeat('x', 99);
    AsciiLength(deep);
    JoinLength(deep, "run");
    JoinLength(JoinPath(deep, "run"), SOCKET_NAME);
    FallbackLength(deep, deep);
  }
}
