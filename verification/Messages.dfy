/** The frames of the control protocol: the hello, the requests that upgrade a connection, the daemon's
    answers. Each is built by one side and told member by member as the other side reads it. */
module Messages {
  import opened Utf8
  import opened Json
  import opened Codec

  /** No member but these. */
  predicate OnlyKeys(ms: Members, keys: set<string>) {
    ms.Member? ==> ms.key in keys && OnlyKeys(ms.rest, keys)
  }

  // ---- Hello --------------------------------------------------------------------------------

  const API_NAME := "mcpmesh-local/1"

  datatype Hello = Hello(api: string, apiVersion: string, apiMinor: nat, stackVersion: string)

  function TextOf(v: Option<Value>): Option<string> {
    match v
    case Some(Str(s)) => Some(s)
    case _ => None
  }

  /** `api_minor` is a `u32` that defaults to 0 when absent. */
  function MinorOf(v: Option<Value>): Option<nat> {
    match v
    case None => Some(0)
    case Some(Int(n)) => if 0 <= n < 0x1_0000_0000 then Some(n) else None
    case _ => None
  }

  function Assemble(api: Option<Value>, version: Option<Value>, minor: Option<Value>, stack: Option<Value>): Option<Hello> {
    match (TextOf(api), TextOf(version), MinorOf(minor), TextOf(stack))
    case (Some(a), Some(v), Some(m), Some(s)) => Some(Hello(a, v, m, s))
    case _ => None
  }

  /** The derived deserializer: an object (unknown fields ignored) or the four fields as an array. */
  function HelloOf(v: Value): Option<Hello> {
    match v
    case Obj(_) => Assemble(Get(v, "api"), Get(v, "api_version"), Get(v, "api_minor"), Get(v, "stack_version"))
    case Arr(Cons(a, Cons(b, Cons(c, Cons(d, Nil))))) => Assemble(Some(a), Some(b), Some(c), Some(d))
    case _ => None
  }

  /** `v` says hello: an object with the three strings and, where it gives a minor version, a 32-bit one
      (0 stands for none), whatever else it has; or the array of the four. */
  predicate SaysHello(v: Value, h: Hello) {
    && h.apiMinor <= 0xFFFF_FFFF
    && if v.Obj?
       then && Has(v, "api", Str(h.api)) && Has(v, "api_version", Str(h.apiVersion))
            && Has(v, "stack_version", Str(h.stackVersion))
            && (Has(v, "api_minor", Int(h.apiMinor)) || (Lacks(v, "api_minor") && h.apiMinor == 0))
       else v == Arr(Cons(Str(h.api), Cons(Str(h.apiVersion), Cons(Int(h.apiMinor), Cons(Str(h.stackVersion), Nil)))))
  }

  lemma HelloIff(v: Value, h: Hello)
    ensures HelloOf(v) == Some(h) <==> SaysHello(v, h)
  {
    match v
    case Obj(_) =>
    case Arr(items) => HelloArray(items, h);
    case _ =>
  }

  lemma HelloArray(items: Values, h: Hello)
    ensures HelloOf(Arr(items)) == Some(h) <==> SaysHello(Arr(items), h)
  {
    if HelloOf(Arr(items)) == Some(h) {
      assert items.head == Str(h.api) && items.tail.head == Str(h.apiVersion);
      assert items.tail.tail.head == Int(h.apiMinor) && items.tail.tail.tail == Cons(Str(h.stackVersion), Nil);
    }
  }

  /** The hello a daemon sends. */
  function HelloFrame(h: Hello): Value {
    Obj(Member("api", Str(h.api),
        Member("api_minor", Int(h.apiMinor),
        Member("api_version", Str(h.apiVersion),
        Member("stack_version", Str(h.stackVersion), End)))))
  }

  /** A daemon's own hello is read back as it was. */
  lemma HelloRoundTrip(h: Hello)
    requires h.apiMinor <= 0xFFFF_FFFF
    ensures WellFormed(HelloFrame(h)) && SaysHello(HelloFrame(h), h) && HelloOf(HelloFrame(h)) == Some(h)
  {
    var stack := Member("stack_version", Str(h.stackVersion), End);
    var version := Member("api_version", Str(h.apiVersion), stack);
    assert Lookup(stack, "stack_version") == Some(Str(h.stackVersion));
    assert Lookup(version, "stack_version") == Some(Str(h.stackVersion));
    assert Lookup(version, "api_version") == Some(Str(h.apiVersion));
    var minor := Member("api_minor", Int(h.apiMinor), version);
    assert Lookup(minor, "stack_version") == Some(Str(h.stackVersion));
    assert Lookup(minor, "api_version") == Some(Str(h.apiVersion));
    assert Lookup(minor, "api_minor") == Some(Int(h.apiMinor));
    HelloSorted(h);
    assert SaysHello(HelloFrame(h), h);
    HelloIff(HelloFrame(h), h);
  }

  lemma HelloSorted(h: Hello)
    requires h.apiMinor <= 0xFFFF_FFFF
    ensures WellFormed(HelloFrame(h)) && Depth(HelloFrame(h)) == 1
  {
    ApiFirst();
    MinorFirst();
    assert Less("api_version", "stack_version");
    var stack := Member("stack_version", Str(h.stackVersion), End);
    MemberShape("stack_version", Str(h.stackVersion), End);
    var version := Member("api_version", Str(h.apiVersion), stack);
    MemberShape("api_version", Str(h.apiVersion), stack);
    MemberShape("api_minor", Int(h.apiMinor), version);
    MemberShape("api", Str(h.api), Member("api_minor", Int(h.apiMinor), version));
  }

  lemma ApiFirst()
    ensures Less("api", "api_minor")
  {
    KeyOrder("api", "", "_minor");
    assert "api" + "" == "api" && "api" + "_minor" == "api_minor";
  }

  lemma MinorFirst()
    ensures Less("api_minor", "api_version")
  {
    KeyOrder("api_", "minor", "version");
    assert "api_" + "minor" == "api_minor" && "api_" + "version" == "api_version";
  }

  lemma {:induction false} KeyOrder(front: string, a: string, b: string)
    ensures Less(front + a, front + b) <==> Less(a, b)
  {
    if front == "" {
      assert front + a == a && front + b == b;
    } else {
      AppendDrop(front, a, 1);
      AppendDrop(front, b, 1);
      KeyOrder(front[1..], a, b);
    }
  }

  // ---- Requests that end the request/response phase ------------------------------------------

  function OpenSessionRequest(peer: string, service: string, idle: Option<nat>): Value {
    var target := Member("peer", Str(peer), Member("service", Str(service), End));
    Obj(Member("method", Str("open_session"),
        Member("params", Obj(if idle.None? then target else Member("idle_timeout_secs", Int(idle.value), target)), End)))
  }

  function StreamRequest(verb: string): Value {
    Obj(Member("method", Str(verb), End))
  }

  /** `f` asks for a session with that service of that peer, with an idle timeout exactly when one is
      given; and for nothing else: unknown parameters are refused. */
  predicate AsksSession(f: Value, peer: string, service: string, idle: Option<nat>) {
    && Has(f, "method", Str("open_session")) && OnlyKeys(f.members, {"method", "params"})
    && var params := Lookup(f.members, "params");
    && params.Some? && Has(params.value, "peer", Str(peer)) && Has(params.value, "service", Str(service))
    && OnlyKeys(params.value.members, {"peer", "service", "idle_timeout_secs"})
    && match idle
       case Some(secs) => Has(params.value, "idle_timeout_secs", Int(secs))
       case None => Lacks(params.value, "idle_timeout_secs")
  }

  /** `f` asks for a stream by its verb, without parameters. */
  predicate AsksStream(f: Value, verb: string) {
    Has(f, "method", Str(verb)) && OnlyKeys(f.members, {"method"})
  }

  lemma UpgradeRequestsWellFormed(peer: string, service: string, idle: Option<nat>, verb: string)
    requires idle.Some? ==> idle.value < U64_LIMIT
    ensures WellFormed(OpenSessionRequest(peer, service, idle)) && Depth(OpenSessionRequest(peer, service, idle)) == 2
    ensures WellFormed(StreamRequest(verb)) && Depth(StreamRequest(verb)) == 1
  {
    assert Less("peer", "service") && Less("idle_timeout_secs", "peer") && Less("method", "params");
    var last := Member("service", Str(service), End);
    MemberShape("service", Str(service), End);
    var target := Member("peer", Str(peer), last);
    MemberShape("peer", Str(peer), last);
    var full := if idle.None? then target else Member("idle_timeout_secs", Int(idle.value), target);
    if idle.Some? { MemberShape("idle_timeout_secs", Int(idle.value), target); }
    MemberShape("params", Obj(full), End);
    MemberShape("method", Str("open_session"), Member("params", Obj(full), End));
    MemberShape("method", Str(verb), End);
  }

  lemma SessionParams(peer: string, service: string, idle: Option<nat>)
    ensures var params := OpenSessionRequest(peer, service, idle).members.rest.value;
      && Has(params, "peer", Str(peer)) && Has(params, "service", Str(service))
      && OnlyKeys(params.members, {"peer", "service", "idle_timeout_secs"})
      && match idle
         case Some(secs) => Has(params, "idle_timeout_secs", Int(secs))
         case None => Lacks(params, "idle_timeout_secs")
  {
    var last := Member("service", Str(service), End);
    assert Lookup(last, "service") == Some(Str(service)) && Lookup(last, "idle_timeout_secs").None?;
    var target := Member("peer", Str(peer), last);
    assert Lookup(target, "service") == Some(Str(service)) && Lookup(target, "peer") == Some(Str(peer));
    assert Lookup(target, "idle_timeout_secs").None?;
    assert OnlyKeys(last, {"peer", "service", "idle_timeout_secs"});
    assert OnlyKeys(target, {"peer", "service", "idle_timeout_secs"});
  }

  /** The upgrade requests ask for what the caller named. */
  lemma UpgradeRequestsAsk(peer: string, service: string, idle: Option<nat>, verb: string)
    ensures AsksSession(OpenSessionRequest(peer, service, idle), peer, service, idle)
    ensures AsksStream(StreamRequest(verb), verb)
  {
    SessionParams(peer, service, idle);
    var params := Member("params", OpenSessionRequest(peer, service, idle).members.rest.value, End);
    assert Lookup(params, "params") == Some(params.value);
    assert OnlyKeys(params, {"method", "params"});
  }

  /** What the daemon makes of the bytes: unless the names are too long for its cap, its next frame asks
      for exactly that session, and what follows is untouched. */
  lemma DaemonIsAskedSession(peer: string, service: string, idle: Option<nat>, rest: Bytes, cap: nat, ending: Ending)
    requires idle.Some? ==> idle.value < U64_LIMIT
    requires |ToVec(OpenSessionRequest(peer, service, idle))| <= cap
    ensures var outs := Outcomes(Sent(OpenSessionRequest(peer, service, idle)) + rest, cap, ending);
      && outs != [] && outs[0].Frame? && AsksSession(outs[0].value, peer, service, idle)
      && outs[1..] == Outcomes(rest, cap, ending)
  {
    var f := OpenSessionRequest(peer, service, idle);
    UpgradeRequestsWellFormed(peer, service, idle, "");
    UpgradeRequestsAsk(peer, service, idle, "");
    SentOutcome(f, rest, cap, ending);
    FrontBack([Received(f, cap)], Outcomes(rest, cap, ending));
  }

  lemma DaemonIsAskedStream(verb: string, rest: Bytes, cap: nat, ending: Ending)
    requires |ToVec(StreamRequest(verb))| <= cap
    ensures var outs := Outcomes(Sent(StreamRequest(verb)) + rest, cap, ending);
      && outs != [] && outs[0].Frame? && AsksStream(outs[0].value, verb)
      && outs[1..] == Outcomes(rest, cap, ending)
  {
    var f := StreamRequest(verb);
    UpgradeRequestsWellFormed("", "", None, verb);
    UpgradeRequestsAsk("", "", None, verb);
    SentOutcome(f, rest, cap, ending);
    FrontBack([Received(f, cap)], Outcomes(rest, cap, ending));
  }

  // ---- Answers ------------------------------------------------------------------------------

  /** The daemon's success. */
  function ResultFrame(id: Value, result: Value): Value {
    Obj(Member("id", id, Member("jsonrpc", Str("2.0"), Member("result", result, End))))
  }

  function ErrorObject(code: int, message: string): Value {
    Obj(Member("code", Int(code), Member("message", Str(message), End)))
  }

  /** The daemon's failure. */
  function ErrorFrame(id: Value, code: int, message: string): Value {
    Obj(Member("error", ErrorObject(code, message), Member("id", id, Member("jsonrpc", Str("2.0"), End))))
  }

  lemma AnswersSay(id: Value, result: Value, code: int, message: string)
    ensures var f := ResultFrame(id, result); Has(f, "result", result) && Lacks(f, "error") && Has(f, "id", id)
    ensures var f := ErrorFrame(id, code, message);
      Has(f, "error", ErrorObject(code, message)) && Lacks(f, "result") && Has(f, "id", id)
    ensures Has(ErrorObject(code, message), "code", Int(code)) && Has(ErrorObject(code, message), "message", Str(message))
  {
    var last := Member("result", result, End);
    assert Lookup(last, "result") == Some(result) && Lookup(last, "error").None?;
    var version := Member("jsonrpc", Str("2.0"), last);
    assert Lookup(version, "result") == Some(result) && Lookup(version, "error").None?;
    var plain := Member("jsonrpc", Str("2.0"), End);
    assert Lookup(plain, "result").None?;
    assert Lookup(Member("id", id, plain), "result").None? && Lookup(Member("id", id, plain), "id") == Some(id);
    assert Lookup(Member("message", Str(message), End), "message") == Some(Str(message));
  }

  /** What the daemon answers at once to a line that is no frame. */
  function ParseError(why: Violation): Value {
    ErrorFrame(Null, -32700,
      if why.TooLarge? then "invalid request frame: TooLarge" else "invalid request frame: InvalidJson")
  }

  lemma ErrorFrameWellFormed(id: Value, code: int, message: string)
    requires WellFormed(id) && I64_MIN <= code < U64_LIMIT
    ensures WellFormed(ErrorFrame(id, code, message))
  {
    assert Less("code", "message") && Less("id", "jsonrpc") && Less("error", "id");
    MemberShape("message", Str(message), End);
    MemberShape("code", Int(code), Member("message", Str(message), End));
    MemberShape("jsonrpc", Str("2.0"), End);
    var version := Member("jsonrpc", Str("2.0"), End);
    MemberShape("id", id, version);
    MemberShape("error", ErrorObject(code, message), Member("id", id, version));
  }
}
