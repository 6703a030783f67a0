/** Agent records: Go's `map[string]interface{}` with the readings that the capture code
    takes from it (addresses, ports, direction, timestamps). */
module Records {

  datatype Option<+T> = None | Some(value: T)

  type Port = p: nat | p <= 65535
  type Byte = b: nat | b <= 255
  type Bytes = seq<Byte>

  /** The dynamic types that reach the capture code. `Null` is both JSON null and a missing key. */
  datatype Value =
    | Null
    | Str(s: string)
    | Num(x: real)
    | U16(port: Port)
    | U64(n: nat)
    | Int(i: int)
    | Int64(j: int)
    | Bool(b: bool)
    | Other(tag: nat)

  type GenericMap = map<string, Value>

  function Get(m: GenericMap, k: string): Value {
    if k in m then m[k] else Null
  }

  /** Everything the capture code asks of code that is not modelled. */
  datatype Env = Env(
    parseIP: string -> Option<string>,           // net.ParseIP followed by IP.String
    lower: string -> string,                     // strings.ToLower
    decode: string -> Option<Bytes>,             // base64
    tcpPayload: Bytes -> Option<nat>,            // application bytes of a TCP frame
    payloadLen: (Value, Value) -> nat,           // unwrapped length of (Plaintext, PlaintextPreview)
    preview: (Value, Value) -> string,           // displayed text of (Plaintext, PlaintextPreview)
    comment: (GenericMap, nat) -> string         // packet comment for (record, packet id)
  )
  {
    /** An address prints in a normal form, which parses to itself. */
    ghost predicate Ok() {
      forall s :: parseIP(s).Some? ==>
        parseIP(s).value != "" && parseIP(parseIP(s).value) == parseIP(s)
    }
  }

  predicate Unspecified(ip: string) { ip == "0.0.0.0" || ip == "::" }

  function ValidIP(env: Env, v: Value): Option<string> {
    if !v.Str? || v.s == "" || Unspecified(v.s) then None
    else
      var ip := env.parseIP(v.s);
      if ip.None? || Unspecified(ip.value) then None else ip
  }

  /** Go's conversion from float64 to int64 drops the fraction. */
  function Truncate(x: real): int {
    if x >= 0.0 then x.Floor else -((-x).Floor)
  }

  function PortInRange(v: int): Option<Port> {
    if 0 <= v <= 65535 then Some(v) else None
  }

  predicate IsDigit(c: char) { '0' <= c <= '9' }

  predicate IsSpace(c: char) {
    var n := c as int;
    9 <= n <= 13 || 0x2000 <= n <= 0x200A
    || n in {0x20, 0x85, 0xA0, 0x1680, 0x2028, 0x2029, 0x202F, 0x205F, 0x3000}
  }

  function Decimal(s: string): Option<nat> {
    if s == "" then Some(0)
    else
      var d := s[|s| - 1];
      var high := Decimal(s[..|s| - 1]);
      if IsDigit(d) && high.Some? then Some(10 * high.value + (d as int - '0' as int)) else None
  }

  function TrimLeft(s: string): string {
    if s != "" && IsSpace(s[0]) then TrimLeft(s[1..]) else s
  }

  function TrimRight(s: string): string {
    if s != "" && IsSpace(s[|s| - 1]) then TrimRight(s[..|s| - 1]) else s
  }

  function UpTo(s: string, c: char): string {
    if s == "" || s[0] == c then "" else [s[0]] + UpTo(s[1..], c)
  }

  function ParsePort(s: string): Option<Port> {
    var t := TrimRight(TrimLeft(UpTo(s, '(')));
    if t == "" then None
    else
      var v := Decimal(t);
      if v.None? then None else PortInRange(v.value)
  }

  function MapPort(m: GenericMap, key: string): Option<Port> {
    match Get(m, key)
    case Str(s) => ParsePort(s)
    case Num(x) => PortInRange(Truncate(x))
    case U16(p) => Some(p)
    case Int(i) => PortInRange(i)
    case Int64(j) => PortInRange(j)
    case _ => None
  }

  /** The four endpoint readings of a record. */
  datatype Endpoints = Endpoints(
    src: Option<string>, dst: Option<string>, sport: Option<Port>, dport: Option<Port>)

  datatype FlowTuple = FlowTuple(srcIP: string, dstIP: string, srcPort: Port, dstPort: Port)

  function EndpointsOf(env: Env, m: GenericMap): Endpoints {
    Endpoints(ValidIP(env, Get(m, "SrcAddr")), ValidIP(env, Get(m, "DstAddr")),
              MapPort(m, "SrcPort"), MapPort(m, "DstPort"))
  }

  predicate HasTuple(e: Endpoints) {
    e.src.Some? && e.dst.Some? && e.sport.Some? && e.dport.Some?
  }

  function TupleOf(e: Endpoints): Option<FlowTuple> {
    if HasTuple(e) then Some(FlowTuple(e.src.value, e.dst.value, e.sport.value, e.dport.value)) else None
  }

  function Reverse(t: FlowTuple): FlowTuple {
    FlowTuple(t.dstIP, t.srcIP, t.dstPort, t.srcPort)
  }

  predicate TuplesEqual(a: FlowTuple, b: FlowTuple) {
    a.srcIP == b.srcIP && a.dstIP == b.dstIP && a.srcPort == b.srcPort && a.dstPort == b.dstPort
  }

  predicate TuplesReverseEqual(a: FlowTuple, b: FlowTuple) {
    a.srcIP == b.dstIP && a.dstIP == b.srcIP && a.srcPort == b.dstPort && a.dstPort == b.srcPort
  }

  predicate SameConnection(a: FlowTuple, b: FlowTuple) {
    TuplesEqual(a, b) || TuplesReverseEqual(a, b)
  }

  /** The local endpoint of a record: the first address with a positive port. */
  function PodEndpoint(e: Endpoints): Option<(string, Port)> {
    if e.src.Some? && e.sport.Some? && e.sport.value > 0 then Some((e.src.value, e.sport.value))
    else if e.dst.Some? && e.dport.Some? && e.dport.value > 0 then Some((e.dst.value, e.dport.value))
    else None
  }

  function PeerIP(e: Endpoints): Option<string> {
    var pod := PodEndpoint(e);
    if pod.None? then None
    else if e.dst.Some? && e.dst.value != pod.value.0 then e.dst
    else if e.src.Some? && e.src.value != pod.value.0 then e.src
    else None
  }

  datatype Direction = Write | Read | Unknown

  function DirectionOf(m: GenericMap): Direction {
    if Get(m, "Direction") == Str("write") then Write
    else if Get(m, "Direction") == Str("read") then Read
    else Unknown
  }

  const SECOND := 1_000_000_000
  const MILLISECOND := 1_000_000

  /** Event time in nanoseconds; absent when the record carries none. */
  function Timestamp(m: GenericMap): Option<int> {
    match Get(m, "TimeFlowStartMs")
    case Num(x) => if x > 0.0 then Some(Truncate(x) * MILLISECOND) else SecondsTimestamp(m)
    case _ => SecondsTimestamp(m)
  }

  function SecondsTimestamp(m: GenericMap): Option<int> {
    match Get(m, "Time")
    case Num(x) => if x > 0.0 then Some(Truncate(x) * SECOND) else None
    case _ => None
  }

  // ---- Port names ----

  function Digits(n: nat): string {
    if n < 10 then [('0' as int + n) as char] else Digits(n / 10) + [('0' as int + n % 10) as char]
  }

  lemma {:induction false} DecimalOfDigits(n: nat)
    ensures Decimal(Digits(n)) == Some(n)
    ensures Digits(n) != "" && forall c <- Digits(n) :: IsDigit(c)
  {
    if n < 10 {
      assert Digits(n)[..0] == "";
    } else {
      DecimalOfDigits(n / 10);
      assert Digits(n)[..|Digits(n)| - 1] == Digits(n / 10);
    }
  }

  lemma {:induction false} UpToPrefix(s: string, rest: string, c: char)
    requires c !in s
    requires rest == "" || rest[0] == c
    ensures UpTo(s + rest, c) == s
  {
    if s == "" {
      assert s + rest == rest;
    } else {
      UpToPrefix(s[1..], rest, c);
      assert (s + rest)[1..] == s[1..] + rest;
    }
  }

  predicate AllSpace(s: string) { forall i :: 0 <= i < |s| ==> IsSpace(s[i]) }
  predicate AllDigits(s: string) { forall i :: 0 <= i < |s| ==> '0' <= s[i] <= '9' }

  lemma {:induction false} DecimalMeaning(s: string)
    ensures Decimal(s).Some? <==> AllDigits(s)
    ensures forall n: nat :: Decimal(s) == Some(n) ==> Decimal("0" + s) == Some(n)
  {
    if s == "" {
      assert "0"[..0] == "";
      assert "0" + s == "0";
    } else {
      var init := s[..|s| - 1];
      DecimalMeaning(init);
      assert ("0" + s)[..|s|] == "0" + init;
      assert s == init + [s[|s| - 1]];
    }
  }

  lemma {:induction false} TrimLeftMeaning(s: string) returns (pre: string)
    ensures s == pre + TrimLeft(s) && AllSpace(pre)
    ensures TrimLeft(s) != "" ==> !IsSpace(TrimLeft(s)[0])
  {
    if s != "" && IsSpace(s[0]) {
      pre := TrimLeftMeaning(s[1..]);
      pre := [s[0]] + pre;
    } else {
      pre := "";
    }
  }

  lemma {:induction false} TrimRightMeaning(s: string) returns (post: string)
    ensures s == TrimRight(s) + post && AllSpace(post)
  {
    if s != "" && IsSpace(s[|s| - 1]) {
      post := TrimRightMeaning(s[..|s| - 1]);
      post := post + [s[|s| - 1]];
    } else {
      post := "";
    }
  }

  lemma {:induction false} UpToMeaning(s: string, c: char) returns (rest: string)
    ensures s == UpTo(s, c) + rest && (rest == "" || rest[0] == c)
  {
    if s == "" || s[0] == c { rest := s; } else { rest := UpToMeaning(s[1..], c); }
  }

  lemma {:induction false} TrimLeftDrops(pre: string, t: string)
    requires AllSpace(pre) && t != "" && !IsSpace(t[0])
    ensures TrimLeft(pre + t) == t
  {
    if pre == "" { assert pre + t == t; }
    else { assert (pre + t)[1..] == pre[1..] + t; TrimLeftDrops(pre[1..], t); }
  }

  lemma {:induction false} TrimRightDrops(t: string, post: string)
    requires AllSpace(post) && t != "" && !IsSpace(t[|t| - 1])
    ensures TrimRight(t + post) == t
  {
    if post == "" { assert t + post == t; }
    else {
      assert (t + post)[..|t + post| - 1] == t + post[..|post| - 1];
      TrimRightDrops(t, post[..|post| - 1]);
    }
  }

  /** What may follow the number. */
  predicate Tail(rest: string) { rest == "" || rest[0] == '(' }

  /** The texts that are read as a port are exactly: spaces, at least one digit and nothing but
      digits, spaces, and anything after an opening parenthesis, for a number up to 65535. */
  lemma PortTextMeaning(s: string, p: Port)
    ensures ParsePort(s) == Some(p) <==>
            exists pre, digits, post, rest :: s == pre + digits + post + rest && Written(pre, digits, post, rest, p)
  {
    if ParsePort(s) == Some(p) {
      var rest := UpToMeaning(s, '(');
      var pre := TrimLeftMeaning(UpTo(s, '('));
      var t := TrimLeft(UpTo(s, '('));
      var post := TrimRightMeaning(t);
      DecimalMeaning(TrimRight(t));
      assert s == pre + TrimRight(t) + post + rest;
      assert Written(pre, TrimRight(t), post, rest, p);
    }
    forall pre, digits, post, rest | s == pre + digits + post + rest && Written(pre, digits, post, rest, p)
      ensures ParsePort(s) == Some(p)
    {
      NumberIsRead(pre, digits, post, rest, p);
    }
  }

  predicate Written(pre: string, digits: string, post: string, rest: string, p: Port) {
    AllSpace(pre) && digits != "" && AllDigits(digits) && AllSpace(post) && Tail(rest) && Decimal(digits) == Some(p)
  }

  lemma NumberIsRead(pre: string, digits: string, post: string, rest: string, p: Port)
    requires Written(pre, digits, post, rest, p)
    ensures ParsePort(pre + digits + post + rest) == Some(p)
  {
    var front := pre + digits + post;
    assert '(' !in front;
    UpToPrefix(front, rest, '(');
    assert !IsSpace(digits[0]) && !IsSpace(digits[|digits| - 1]);
    assert front == pre + (digits + post) && (digits + post)[0] == digits[0];
    TrimLeftDrops(pre, digits + post);
    TrimRightDrops(digits, post);
    hide IsSpace, Decimal, UpTo;
  }

  /** A port written as gopacket prints it, "443(https)", reads back as that port and no other
      number does. */
  lemma PortNameRoundTrip(n: nat, name: string)
    ensures ParsePort(Digits(n) + "(" + name) == PortInRange(n)
    ensures ParsePort(Digits(n)) == PortInRange(n)
  {
    var d := Digits(n);
    DigitsAreTrimmed(n);
    UpToPrefix(d, "(" + name, '(');
    UpToPrefix(d, "", '(');
    assert d + "" == d;
    assert d + ("(" + name) == d + "(" + name;
    hide Digits, Decimal, UpTo, TrimLeft, TrimRight;
  }

  lemma DigitsAreTrimmed(n: nat)
    ensures TrimRight(TrimLeft(Digits(n))) == Digits(n)
    ensures Digits(n) != "" && Decimal(Digits(n)) == Some(n) && '(' !in Digits(n)
  {
    DecimalOfDigits(n);
    var d := Digits(n);
    hide Digits, Decimal;
    assert IsDigit(d[0]) && IsDigit(d[|d| - 1]);
  }

  // ---- Readings ----

  /** The values that are read as a port: text as above, a number whose integer part is in range,
      or an integer in range; no others. */
  lemma PortMeaning(m: GenericMap, key: string, p: Port)
    ensures MapPort(m, key) == Some(p) <==>
            match Get(m, key)
            case Str(s) => ParsePort(s) == Some(p)
            case Num(x) => p as real <= x < (p + 1) as real || (p == 0 && -1.0 < x < 0.0)
            case U16(q) => q == p
            case Int(i) => i == p
            case Int64(j) => j == p
            case _ => false
  {
    hide ParsePort;
  }

  /** An address is known if it is text that parses, and neither the text nor what it parses to is
      an unspecified address; it is then the printed form. */
  lemma AddressMeaning(env: Env, v: Value, ip: string)
    ensures ValidIP(env, v) == Some(ip) <==>
            exists s :: v == Str(s) && s !in ["", "0.0.0.0", "::"] && ip !in ["0.0.0.0", "::"] && env.parseIP(s) == Some(ip)
  {
  }

  /** The event time: whole milliseconds first, else whole seconds; positive numbers only. */
  lemma TimestampMeaning(m: GenericMap)
    ensures var ms, secs := Get(m, "TimeFlowStartMs"), Get(m, "Time");
            Timestamp(m) == if ms.Num? && ms.x > 0.0 then Some(ms.x.Floor * 1_000_000)
                            else if secs.Num? && secs.x > 0.0 then Some(secs.x.Floor * 1_000_000_000)
                            else None
  {
  }

  /** A record's local endpoint is its source if that has a positive port, else its destination;
      the peer is the other address if that is a different one. */
  lemma LocalEndpointMeaning(e: Endpoints, ip: string, port: Port)
    ensures PodEndpoint(e) == Some((ip, port)) <==>
            port > 0 && ((e.src == Some(ip) && e.sport == Some(port))
                         || (e.dst == Some(ip) && e.dport == Some(port) && !(e.src.Some? && e.sport.Some? && e.sport.value > 0)))
    ensures PodEndpoint(e) == Some((ip, port)) ==>
            (PeerIP(e) == if e.dst.Some? && e.dst != Some(ip) then e.dst
                          else if e.src.Some? && e.src != Some(ip) then e.src else None)
    ensures PodEndpoint(e).None? ==> PeerIP(e).None?
  {
  }

  // ---- Connections ----

  /** "Equal or reversed" is an equivalence, which is why comparing with the last seen tuple is
      enough to notice a second connection. */
  lemma SameConnectionIsEquivalence(a: FlowTuple, b: FlowTuple, c: FlowTuple)
    ensures SameConnection(a, b) <==> (a == b || a == Reverse(b))
    ensures SameConnection(a, a)
    ensures SameConnection(a, b) ==> SameConnection(b, a)
    ensures SameConnection(a, b) && SameConnection(b, c) ==> SameConnection(a, c)
  {
  }
}
