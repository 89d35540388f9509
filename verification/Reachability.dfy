/** The hand-written deserializer of `ReachabilitySource`: it accepts any value at all, and drains the
    ones it does not model so that the frame around it stays in step. */
module Reachability {
  import opened Utf8
  import opened Json

  /** Which producer saw a peer; `Unknown` is also the default. */
  datatype Source = Probe | Session | Unknown

  /** The visits a deserializer makes on a value, in order. */
  datatype Token =
    | TNull | TBool(b: bool) | TInt(n: int) | TFloat | TStr(s: string)
    | SeqOpen | SeqClose | MapOpen | TKey(k: string) | MapClose

  function Tokens(v: Value): (r: seq<Token>)
    ensures r != [] && r[0] != SeqClose && r[0] != MapClose && !r[0].TKey?
  {
    match v
    case Null => [TNull]
    case Bool(b) => [TBool(b)]
    case Int(n) => [TInt(n)]
    case Float(_) => [TFloat]
    case Str(s) => [TStr(s)]
    case Arr(items) => [SeqOpen] + ItemTokens(items)
    case Obj(members) => [MapOpen] + MemberTokens(members)
  }

  /** The items that remain of an array, and its end. */
  function ItemTokens(xs: Values): seq<Token> {
    if xs.Nil? then [SeqClose] else Tokens(xs.head) + ItemTokens(xs.tail)
  }

  function MemberTokens(ms: Members): seq<Token> {
    if ms.End? then [MapClose] else [TKey(ms.key)] + Tokens(ms.value) + MemberTokens(ms.rest)
  }

  /** A deserializer's position in the tokens of a frame. */
  class TokenReader {
    var rest: seq<Token>

    constructor (tokens: seq<Token>)
      ensures rest == tokens
    {
      rest := tokens;
    }

    method Take() returns (t: Token)
      requires rest != []
      modifies this
      ensures t == old(rest[0]) && rest == old(rest[1..])
    {
      t, rest := rest[0], rest[1..];
    }

    method Skip()
      requires rest != []
      modifies this
      ensures rest == old(rest[1..])
    {
      var t := Take();
    }
  }

  /** What follows a value's first token. */
  lemma TokensTail(v: Value, after: seq<Token>)
    ensures (Tokens(v) + after)[0] == Tokens(v)[0]
    ensures (Tokens(v) + after)[1..] ==
      match v
      case Arr(items) => ItemTokens(items) + after
      case Obj(members) => MemberTokens(members) + after
      case _ => after
  {
    AppendDrop(Tokens(v), after, 1);
  }

  lemma ItemTail(xs: Values, after: seq<Token>)
    ensures ItemTokens(xs) != [] && (ItemTokens(xs)[0] == SeqClose <==> xs.Nil?)
    ensures if xs.Nil? then (ItemTokens(xs) + after)[1..] == after
            else ItemTokens(xs) + after == Tokens(xs.head) + (ItemTokens(xs.tail) + after)
  {
    if xs.Cons? { Assoc(Tokens(xs.head), ItemTokens(xs.tail), after); }
  }

  lemma MemberTail(ms: Members, after: seq<Token>)
    ensures MemberTokens(ms) != []
    ensures MemberTokens(ms)[0] == if ms.End? then MapClose else TKey(ms.key)
    ensures (MemberTokens(ms) + after)[1..] ==
      if ms.End? then after else Tokens(ms.value) + (MemberTokens(ms.rest) + after)
  {
    if ms.Member? {
      Assoc([TKey(ms.key)] + Tokens(ms.value), MemberTokens(ms.rest), after);
      Assoc([TKey(ms.key)], Tokens(ms.value), MemberTokens(ms.rest) + after);
    }
  }

  /** `IgnoredAny`: exactly one value is consumed, whatever follows it. */
  method IgnoreAny(r: TokenReader, ghost v: Value, ghost after: seq<Token>)
    requires r.rest == Tokens(v) + after
    modifies r
    ensures r.rest == after
    decreases v, 1
  {
    TokensTail(v, after);
    var t := r.Take();
    match t
    case SeqOpen => DrainItems(r, v.items, after);
    case MapOpen => DrainMembers(r, v.members, after);
    case _ =>
  }

  /** `visit_seq`: elements are ignored one by one until the sequence ends. */
  method DrainItems(r: TokenReader, ghost items: Values, ghost after: seq<Token>)
    requires r.rest == ItemTokens(items) + after
    modifies r
    ensures r.rest == after
    decreases items, 0
  {
    ghost var xs := items;
    ItemTail(xs, after);
    while r.rest[0] != SeqClose
      invariant xs == items || xs < items
      invariant r.rest == ItemTokens(xs) + after && r.rest != []
      decreases xs
    {
      ItemTail(xs, after);
      IgnoreAny(r, xs.head, ItemTokens(xs.tail) + after);
      xs := xs.tail;
      ItemTail(xs, after);
    }
    ItemTail(xs, after);
    var close := r.Take();
  }

  /** `visit_map`: entries are ignored, key and value, until the map ends. */
  method DrainMembers(r: TokenReader, ghost members: Members, ghost after: seq<Token>)
    requires r.rest == MemberTokens(members) + after
    modifies r
    ensures r.rest == after
    decreases members, 0
  {
    ghost var ms := members;
    MemberTail(ms, after);
    while r.rest[0] != MapClose
      invariant ms == members || ms < members
      invariant r.rest == MemberTokens(ms) + after && r.rest != []
      invariant r.rest[0] == if ms.End? then MapClose else TKey(ms.key)
      invariant r.rest[1..] ==
        if ms.End? then after else Tokens(ms.value) + (MemberTokens(ms.rest) + after)
      decreases ms
    {
      r.Skip();
      IgnoreAny(r, ms.value, MemberTokens(ms.rest) + after);
      ms := ms.rest;
      MemberTail(ms, after);
    }
    r.Skip();
  }

  /** The attribution a value in the `source` position carries. */
  function SourceOf(v: Value): Source {
    if v == Str("probe") then Probe else if v == Str("session") then Session else Unknown
  }

  /** `deserialize_any` with the visitor: it never fails, consumes exactly the value's tokens, and is
      confident only on the two names. */
  method Deserialize(r: TokenReader, ghost v: Value, ghost after: seq<Token>) returns (s: Source)
    requires r.rest == Tokens(v) + after
    modifies r
    ensures r.rest == after && s == SourceOf(v)
  {
    TokensTail(v, after);
    var t := r.Take();
    s := Unknown;
    match t
    case TStr(name) =>
      if name == "probe" { s := Probe; } else if name == "session" { s := Session; }
    case SeqOpen => DrainItems(r, v.items, after);
    case MapOpen => DrainMembers(r, v.members, after);
    case _ =>
  }

  /** The derived serializer: the variant in snake case. */
  function Serialize(s: Source): Value {
    match s
    case Probe => Str("probe")
    case Session => Str("session")
    case Unknown => Str("unknown")
  }

  lemma SerializeReads(s: Source)
    ensures SourceOf(Serialize(s)) == s
  {
  }

  lemma KnownOnly(v: Value)
    ensures SourceOf(v) == Probe <==> v == Str("probe")
    ensures SourceOf(v) == Session <==> v == Str("session")
  {
  }

  lemma StringOnWire(t: string)
    ensures FromSlice(ToVec(Str(t))) == Some(Str(t))
  {
    FromSliceToVec(Str(t));
  }

  /** Reading inverts writing, on the wire too; and only the two names are ever read as the producers
      they name. */
  lemma SourceRoundTrip(s: Source, v: Value)
    ensures SourceOf(Serialize(s)) == s
    ensures FromSlice(ToVec(Serialize(s))) == Some(Serialize(s))
    ensures SourceOf(v) == Probe <==> v == Str("probe")
    ensures SourceOf(v) == Session <==> v == Str("session")
  {
    SerializeReads(s);
    StringOnWire(Serialize(s).s);
    KnownOnly(v);
  }

  /** The field in its frame: absent reads as `Unknown` too. */
  function SourceField(frame: Value): Source {
    match Get(frame, "source") case Some(v) => SourceOf(v) case None => Unknown
  }

  /** A frame without the member is one whose producer is unknown. */
  lemma FieldIff(frame: Value, v: Value)
    ensures Has(frame, "source", v) ==> SourceField(frame) == SourceOf(v)
    ensures Lacks(frame, "source") ==> SourceField(frame) == Unknown
  {
  }

  /** The members of a frame, read token by token: whatever stands in the `source` position, and
      whether or not there is one, the reader comes out right behind the frame with the attribution.
      A frame is an object, so its keys are sorted and none is repeated. */
  method ReadSource(r: TokenReader, ghost members: Members, ghost after: seq<Token>) returns (s: Source)
    requires r.rest == MemberTokens(members) + after && Sorted(members)
    modifies r
    ensures s == SourceField(Obj(members))
    ensures r.rest == after
  {
    ghost var ms, found := members, false;
    s := Unknown;
    MemberTail(ms, after);
    while r.rest[0] != MapClose
      invariant ms == members || ms < members
      invariant r.rest == MemberTokens(ms) + after && r.rest != [] && Sorted(ms)
      invariant r.rest[0] == if ms.End? then MapClose else TKey(ms.key)
      invariant if found then Lookup(ms, "source").None? && s == SourceField(Obj(members))
                else s == Unknown && Lookup(ms, "source") == Lookup(members, "source")
      decreases ms
    {
      MemberTail(ms, after);
      var key := r.Take();
      if key == TKey("source") {
        BelowMissing(ms.rest, "source");
        found := true;
        s := Deserialize(r, ms.value, MemberTokens(ms.rest) + after);
      } else {
        IgnoreAny(r, ms.value, MemberTokens(ms.rest) + after);
      }
      ms := ms.rest;
      MemberTail(ms, after);
    }
    var close := r.Take();
  }
}
