/** Scoring of a wire packet as the carrier of a plaintext record, and the capture-filter hints
    that complete a partial record before it is scored. */
module Scoring {
  import opened Records

  // ---- Capture filters ----

  /** `peerIPs` holds printed addresses, `peerNets` the containment tests of parsed networks. */
  datatype CaptureFilters = CaptureFilters(
    ports: seq<Port>, peerIPs: seq<string>, peerNets: seq<string -> bool>)
  {
    predicate Active() { |ports| > 0 || |peerIPs| > 0 || |peerNets| > 0 }

    /** Peer addresses come out of the address parser. */
    ghost predicate Parsed(env: Env) {
      forall ip <- peerIPs :: env.parseIP(ip) == Some(ip)
    }
  }

  function SinglePort(f: CaptureFilters): Port {
    if |f.ports| == 1 then f.ports[0] else 0
  }

  /** Writes the single capture peer (and port) as the missing local endpoint of a record. */
  function ApplyWorkloadTuple(env: Env, m: GenericMap, peer: string, port: Port): GenericMap {
    var src := ValidIP(env, Get(m, "SrcAddr"));
    if src.Some? && src.value != peer then m
    else
      var m1 := m["Proto" := Num(6.0)]["SrcAddr" := Str(peer)];
      var p := MapPort(m1, "SrcPort");
      if port > 0 && (p.None? || p.value == 0) then m1["SrcPort" := U16(port)] else m1
  }

  function Enrich(env: Env, f: CaptureFilters, m: GenericMap): GenericMap {
    if HasTuple(EndpointsOf(env, m)) then m
    else
      var port := SinglePort(f);
      if |f.peerIPs| == 1 then ApplyWorkloadTuple(env, m, f.peerIPs[0], port)
      else if port > 0 then
        var p := MapPort(m, "SrcPort");
        if p.Some? && p.value > 0 then m
        else m["Proto" := Num(6.0)]["SrcPort" := U16(port)]
      else m
  }

  /** Filter hints never replace a known source endpoint, never touch anything but the source
      endpoint, leave complete records alone, and settle after one application. */
  lemma EnrichKeepsWhatIsKnown(env: Env, f: CaptureFilters, m: GenericMap)
    requires env.Ok() && f.Parsed(env)
    ensures var e, e' := EndpointsOf(env, m), EndpointsOf(env, Enrich(env, f, m));
            && (e.src.Some? ==> e'.src == e.src)
            && (e.sport.Some? && e.sport.value > 0 ==> e'.sport == e.sport)
            && e'.dst == e.dst && e'.dport == e.dport
    ensures forall k :: k !in ["Proto", "SrcAddr", "SrcPort"] ==>
              Get(Enrich(env, f, m), k) == Get(m, k)
    ensures HasTuple(EndpointsOf(env, m)) ==> Enrich(env, f, m) == m
  {
    hide ValidIP, ParsePort, Truncate;
    var m' := Enrich(env, f, m);
    if |f.peerIPs| == 1 { ReadBack(env, m', "SrcAddr", f.peerIPs[0], 0); }
    ReadBack(env, m', "SrcPort", "", SinglePort(f));
    if ValidIP(env, Get(m, "SrcAddr")).Some? { KnownIsSpecified(env, Get(m, "SrcAddr")); }
  }

  lemma KnownIsSpecified(env: Env, v: Value)
    requires env.Ok() && ValidIP(env, v).Some?
    ensures ValidIP(env, v).value != "" && !Unspecified(ValidIP(env, v).value)
  {
  }

  /** What the readings make of an address or a port that the hints have written. */
  lemma ReadBack(env: Env, m: GenericMap, k: string, ip: string, port: Port)
    ensures Get(m, k) == U16(port) ==> MapPort(m, k) == Some(port)
    ensures Get(m, k) == Str(ip) && env.parseIP(ip) == Some(ip) ==>
              ValidIP(env, Get(m, k)) == if ip == "" || Unspecified(ip) then None else Some(ip)
  {
  }

  /** The port of a single port filter, if it is positive and the record has none of its own. */
  function HintPort(env: Env, f: CaptureFilters, m: GenericMap): Value {
    var sport := MapPort(m, "SrcPort");
    if |f.ports| == 1 && f.ports[0] > 0 && !(sport.Some? && sport.value > 0) then U16(f.ports[0]) else Get(m, "SrcPort")
  }

  /** Which hints a record gets: none if it is complete; a single peer filter becomes its source
      unless another source is known; a single port filter becomes its source port if that is
      missing or zero, with a single peer filter or by itself. */
  lemma EnrichMeaning(env: Env, f: CaptureFilters, m: GenericMap)
    ensures var e, m' := EndpointsOf(env, m), Enrich(env, f, m);
            if HasTuple(e) then m' == m
            else if |f.peerIPs| == 1 then
              if e.src.Some? && e.src.value != f.peerIPs[0] then m' == m
              else Get(m', "SrcAddr") == Str(f.peerIPs[0]) && Get(m', "Proto") == Num(6.0)
                   && Get(m', "SrcPort") == HintPort(env, f, m)
            else
              && Get(m', "SrcAddr") == Get(m, "SrcAddr") && Get(m', "SrcPort") == HintPort(env, f, m)
              && (if HintPort(env, f, m) != Get(m, "SrcPort") then Get(m', "Proto") == Num(6.0) else m' == m)
  {
    hide ValidIP, ParsePort, Truncate;
  }

  lemma EnrichIdempotent(env: Env, f: CaptureFilters, m: GenericMap)
    requires env.Ok() && f.Parsed(env)
    ensures Enrich(env, f, Enrich(env, f, m)) == Enrich(env, f, m)
  {
    var m' := Enrich(env, f, m);
    if m' != m && |f.peerIPs| == 1 {
      var peer := f.peerIPs[0];
      assert m'["Proto" := Num(6.0)]["SrcAddr" := Str(peer)] == m';
    }
  }

  predicate HasIP(w: Endpoints, ip: string) { w.src == Some(ip) || w.dst == Some(ip) }

  predicate MatchesFilters(w: Endpoints, f: CaptureFilters) {
    && f.Active()
    && (|f.ports| > 0 ==> exists p <- f.ports :: w.sport == Some(p) || w.dport == Some(p))
    && (|f.peerIPs| > 0 ==> exists ip <- f.peerIPs :: HasIP(w, ip))
    && (|f.peerNets| > 0 ==> exists i :: 0 <= i < |f.peerNets| && InNet(w, f.peerNets[i]))
  }

  predicate InNet(w: Endpoints, net: string -> bool) {
    (w.src.Some? && net(w.src.value)) || (w.dst.Some? && net(w.dst.value))
  }

  predicate EndIn(a: Option<string>, b: Option<string>, net: string -> bool) {
    (a.Some? && net(a.value)) || (b.Some? && net(b.value))
  }

  /** Each kind of filter in use has one that matches an end of the packet. */
  lemma FiltersMeaning(w: Endpoints, f: CaptureFilters)
    ensures MatchesFilters(w, f) <==>
              && (|f.ports| > 0 || |f.peerIPs| > 0 || |f.peerNets| > 0)
              && (|f.ports| > 0 ==> exists i :: 0 <= i < |f.ports| && Some(f.ports[i]) in {w.sport, w.dport})
              && (|f.peerIPs| > 0 ==> exists i :: 0 <= i < |f.peerIPs| && Some(f.peerIPs[i]) in {w.src, w.dst})
              && (|f.peerNets| > 0 ==> exists i :: 0 <= i < |f.peerNets| && EndIn(w.src, w.dst, f.peerNets[i]))
  {
    if p :| p in f.ports && (w.sport == Some(p) || w.dport == Some(p)) {
      var i :| 0 <= i < |f.ports| && f.ports[i] == p;
    }
    if ip :| ip in f.peerIPs && HasIP(w, ip) {
      var i :| 0 <= i < |f.peerIPs| && f.peerIPs[i] == ip;
    }
    if i :| 0 <= i < |f.ports| && Some(f.ports[i]) in {w.sport, w.dport} {
      assert f.ports[i] in f.ports;
    }
    if i :| 0 <= i < |f.peerIPs| && Some(f.peerIPs[i]) in {w.src, w.dst} {
      assert f.peerIPs[i] in f.peerIPs;
    }
    if i :| 0 <= i < |f.peerNets| && EndIn(w.src, w.dst, f.peerNets[i]) {
      assert InNet(w, f.peerNets[i]);
    }
  }

  /** The loops of the source, one per kind of filter. */
  method WirePacketMatchesCaptureFilters(w: Endpoints, f: CaptureFilters) returns (ok: bool)
    ensures ok == MatchesFilters(w, f)
    ensures ok <==>
              && (|f.ports| > 0 || |f.peerIPs| > 0 || |f.peerNets| > 0)
              && (|f.ports| > 0 ==> exists i :: 0 <= i < |f.ports| && Some(f.ports[i]) in {w.sport, w.dport})
              && (|f.peerIPs| > 0 ==> exists i :: 0 <= i < |f.peerIPs| && Some(f.peerIPs[i]) in {w.src, w.dst})
              && (|f.peerNets| > 0 ==> exists i :: 0 <= i < |f.peerNets| && EndIn(w.src, w.dst, f.peerNets[i]))
  {
    FiltersMeaning(w, f);
    if !f.Active() { return false; }
    if |f.ports| > 0 {
      var matched := false;
      for i := 0 to |f.ports|
        invariant !matched
        invariant forall p <- f.ports[..i] :: w.sport != Some(p) && w.dport != Some(p)
      {
        assert f.ports[..i + 1] == f.ports[..i] + [f.ports[i]];
        if w.sport == Some(f.ports[i]) || w.dport == Some(f.ports[i]) { matched := true; break; }
      }
      if !matched { assert f.ports[..|f.ports|] == f.ports; return false; }
    }
    if |f.peerIPs| > 0 {
      var matched := false;
      for i := 0 to |f.peerIPs|
        invariant !matched
        invariant forall ip <- f.peerIPs[..i] :: !HasIP(w, ip)
      {
        assert f.peerIPs[..i + 1] == f.peerIPs[..i] + [f.peerIPs[i]];
        if HasIP(w, f.peerIPs[i]) { matched := true; break; }
      }
      if !matched { assert f.peerIPs[..|f.peerIPs|] == f.peerIPs; return false; }
    }
    if |f.peerNets| > 0 {
      var matched := false;
      for i := 0 to |f.peerNets|
        invariant !matched
        invariant forall j :: 0 <= j < i ==> !InNet(w, f.peerNets[j])
      {
        if InNet(w, f.peerNets[i]) { matched := true; break; }
      }
      if !matched { return false; }
    }
    return true;
  }

  // ---- Time ----

  /** When an item reached the buffer and, when known, when it happened (nanoseconds). */
  datatype Arrival = Arrival(receivedAt: int, eventTime: Option<int>)

  const CORRELATION_WINDOW := 30 * SECOND
  const MAX_SKEW := 5 * SECOND
  const MIN_DELTA := -2 * SECOND

  const STRICT_BASE := 100
  const REMOTE_BASE := 75
  const LOOSE_BASE := 50
  const FILTER_BASE := 50
  const AMBIGUITY_MARGIN := 5
  const PAYLOAD_BONUS := 20
  const PAYLOAD_SIZE_BONUS := 5
  const TIME_BONUS_MAX := 10

  function Abs(x: int): int { if x < 0 then -x else x }

  predicate TimesCorrelated(wire: Arrival, pt: Arrival) {
    if wire.eventTime.Some? && pt.eventTime.Some? then
      MIN_DELTA <= pt.eventTime.value - wire.eventTime.value <= MAX_SKEW
    else
      Abs(pt.receivedAt - wire.receivedAt) <= CORRELATION_WINDOW
  }

  function Proximity(delta: nat, limit: nat): nat
    requires delta <= limit && limit >= MILLISECOND
  {
    TIME_BONUS_MAX * ((limit - delta) / MILLISECOND) / (limit / MILLISECOND)
  }

  function TimeBonus(wire: Arrival, pt: Arrival): nat {
    if wire.eventTime.Some? && pt.eventTime.Some? then
      var delta := pt.eventTime.value - wire.eventTime.value;
      var limit := if delta < 0 then -MIN_DELTA else MAX_SKEW;
      if Abs(delta) <= limit then Proximity(Abs(delta), limit) else 0
    else
      var delta := Abs(pt.receivedAt - wire.receivedAt);
      if delta <= CORRELATION_WINDOW then Proximity(delta, CORRELATION_WINDOW) else 0
  }

  // ---- Scores ----

  /** What a buffered packet was when it arrived. */
  datatype WireCore = WireCore(at: Arrival, fields: GenericMap, data: Bytes)

  predicate Contains(s: string, sub: string) {
    exists i :: 0 <= i <= |s| && OccursAt(s, sub, i)
  }

  predicate OccursAt(s: string, sub: string, i: nat) {
    i + |sub| <= |s| && s[i..i + |sub|] == sub
  }

  function StringOf(v: Value): string { if v.Str? then v.s else "" }

  function PodIdentity(m: GenericMap): (string, string) {
    var d := if Get(m, "DstK8S_Type") == Str("Pod")
             then (StringOf(Get(m, "DstK8S_Name")), StringOf(Get(m, "DstK8S_OwnerName")))
             else ("", "");
    if d != ("", "") then d
    else if Get(m, "SrcK8S_Type") == Str("Pod")
         then (StringOf(Get(m, "SrcK8S_Name")), StringOf(Get(m, "SrcK8S_OwnerName")))
    else ("", "")
  }

  predicate PodCompatible(env: Env, wire: GenericMap, pt: GenericMap) {
    var source := StringOf(Get(pt, "TLSSource"));
    var (name, owner) := PodIdentity(wire);
    if source == "" || (name == "" && owner == "") then true
    else
      var identity := env.lower(name + " " + owner);
      if Contains(identity, "openssl") then source == "openssl" || source == "ktls"
      else if Contains(identity, "gotls") then source == "gotls"
      else if Contains(identity, "ktls") then source == "ktls" || source == "openssl"
      else true
  }

  predicate EndCompatible(ip: Option<string>, port: Option<Port>, wireIP: Option<string>, wirePort: Option<Port>) {
    ip.Some? ==> ip == wireIP && (port.Some? && port.value > 0 ==> wirePort == port)
  }

  /** A record is local-first, so a read arrives as the reverse of its own tuple. */
  predicate EndpointsCompatible(w: Endpoints, p: Endpoints, dir: Direction) {
    if dir == Read then
      EndCompatible(p.src, p.sport, w.dst, w.dport) && EndCompatible(p.dst, p.dport, w.src, w.sport)
    else
      EndCompatible(p.src, p.sport, w.src, w.sport) && EndCompatible(p.dst, p.dport, w.dst, w.dport)
  }

  predicate EgressFrom(w: Endpoints, ip: string, port: Port) { w.src == Some(ip) && w.sport == Some(port) }
  predicate IngressTo(w: Endpoints, ip: string, port: Port) { w.dst == Some(ip) && w.dport == Some(port) }

  predicate DirectionAllowed(w: Endpoints, p: Endpoints, dir: Direction) {
    var pod := PodEndpoint(p);
    pod.Some? ==>
      && (dir == Write ==> EgressFrom(w, pod.value.0, pod.value.1))
      && (dir == Read ==> IngressTo(w, pod.value.0, pod.value.1))
  }

  function StrictScore(w: Endpoints, p: Endpoints, dir: Direction): int {
    var pt, wt := TupleOf(p), TupleOf(w);
    if pt.None? || wt.None? then -1
    else if !TuplesEqual(wt.value, pt.value) && !TuplesReverseEqual(wt.value, pt.value) then -1
    else if dir == Write && TuplesEqual(wt.value, pt.value) then STRICT_BASE + 5
    else if dir == Read && TuplesReverseEqual(wt.value, pt.value) then STRICT_BASE + 5
    else STRICT_BASE
  }

  function DirectionBonus(w: Endpoints, ip: string, port: Port, dir: Direction): int {
    if (dir == Write && EgressFrom(w, ip, port)) || (dir == Read && IngressTo(w, ip, port)) then 5 else 0
  }

  predicate HasIPPort(w: Endpoints, ip: string, port: Port) {
    EgressFrom(w, ip, port) || IngressTo(w, ip, port)
  }

  function RemoteScore(w: Endpoints, p: Endpoints, dir: Direction): int {
    var pod, peer := PodEndpoint(p), PeerIP(p);
    if pod.None? || peer.None? || peer.value == pod.value.0 then -1
    else if !HasIPPort(w, pod.value.0, pod.value.1) || !HasIP(w, peer.value) then -1
    else REMOTE_BASE + DirectionBonus(w, pod.value.0, pod.value.1, dir)
  }

  function LooseScore(w: Endpoints, p: Endpoints, dir: Direction): int {
    var pod := PodEndpoint(p);
    if pod.None? || !HasIPPort(w, pod.value.0, pod.value.1) then -1
    else LOOSE_BASE + DirectionBonus(w, pod.value.0, pod.value.1, dir)
  }

  function FilterExtras(f: CaptureFilters): int {
    (if |f.ports| > 0 then 1 else 0) + (if |f.peerIPs| > 0 || |f.peerNets| > 0 then 1 else 0)
  }

  function FilterScore(w: Endpoints, f: CaptureFilters): int {
    if !f.Active() || !MatchesFilters(w, f) then -1 else FILTER_BASE + FilterExtras(f)
  }

  /** The first tier that accepts the packet; a complete record has only the strict tier. */
  function BaseScore(f: CaptureFilters, w: Endpoints, p: Endpoints, dir: Direction): int {
    if HasTuple(p) then StrictScore(w, p, dir)
    else if StrictScore(w, p, dir) >= 0 then StrictScore(w, p, dir)
    else if RemoteScore(w, p, dir) >= 0 then RemoteScore(w, p, dir)
    else if LooseScore(w, p, dir) >= 0 then LooseScore(w, p, dir)
    else FilterScore(w, f)
  }

  function PlaintextLen(env: Env, pt: GenericMap): nat {
    match Get(pt, "PlaintextLen")
    case Num(x) => if x > 0.0 then Truncate(x) else env.payloadLen(Get(pt, "Plaintext"), Get(pt, "PlaintextPreview"))
    case _ => env.payloadLen(Get(pt, "Plaintext"), Get(pt, "PlaintextPreview"))
  }

  function PayloadAdjusted(env: Env, data: Bytes, pt: GenericMap, score: int): int {
    var tcp := env.tcpPayload(data);
    if tcp.None? then score
    else if tcp.value == 0 then -1
    else
      var plain := PlaintextLen(env, pt);
      score + PAYLOAD_BONUS + (if plain > 0 && tcp.value >= plain then PAYLOAD_SIZE_BONUS else 0)
  }

  function Score(env: Env, f: CaptureFilters, wire: WireCore, at: Arrival, pt: GenericMap): int {
    var w, p, dir := EndpointsOf(env, wire.fields), EndpointsOf(env, pt), DirectionOf(pt);
    if !TimesCorrelated(wire.at, at) then -1
    else if !PodCompatible(env, wire.fields, pt) then -1
    else if !EndpointsCompatible(w, p, dir) then -1
    else if !DirectionAllowed(w, p, dir) then -1
    else
      var base := BaseScore(f, w, p, dir);
      if base < 0 then -1
      else PayloadAdjusted(env, wire.data, pt, base + TimeBonus(wire.at, at))
  }

  function MinAnnotationScore(p: Endpoints, f: CaptureFilters): int {
    if HasTuple(p) then STRICT_BASE
    else
      var pod, peer := PodEndpoint(p), PeerIP(p);
      if pod.Some? && pod.value.0 != "" && pod.value.1 > 0 then
        if peer.Some? && peer.value != pod.value.0 then REMOTE_BASE else LOOSE_BASE
      else if f.Active() then FILTER_BASE
      else LOOSE_BASE
  }

  // ---- What a score means ----

  /** The tier of a record, read off the record alone. */
  function RecordBase(f: CaptureFilters, p: Endpoints, dir: Direction): int {
    var bonus := if dir == Unknown then 0 else 5;
    if HasTuple(p) then STRICT_BASE + bonus
    else if PodEndpoint(p).None? then FILTER_BASE + FilterExtras(f)
    else if PeerIP(p).Some? then REMOTE_BASE + bonus
    else LOOSE_BASE + bonus
  }

  /** The packet could carry the record: same connection for a complete record, the known
      endpoint for a partial one, the capture filters for a record without an endpoint. */
  predicate Admissible(f: CaptureFilters, w: Endpoints, p: Endpoints, dir: Direction) {
    && EndpointsCompatible(w, p, dir)
    && DirectionAllowed(w, p, dir)
    && (HasTuple(p) ==> TupleOf(w) == if dir == Read then Some(Reverse(TupleOf(p).value)) else TupleOf(p))
    && (!HasTuple(p) && PodEndpoint(p).None? ==> MatchesFilters(w, f))
  }

  /** A complete record only ever matches its own connection in its own direction, including
      zero ports and equal addresses. */
  lemma CompleteTupleSoundness(f: CaptureFilters, w: Endpoints, p: Endpoints, dir: Direction)
    requires HasTuple(p) && EndpointsCompatible(w, p, dir) && DirectionAllowed(w, p, dir)
    ensures StrictScore(w, p, dir) >= 0 <==>
            TupleOf(w) == if dir == Read then Some(Reverse(TupleOf(p).value)) else TupleOf(p)
    ensures StrictScore(w, p, dir) >= 0 ==> StrictScore(w, p, dir) == RecordBase(f, p, dir)
  {
  }

  lemma TierIsFixedByRecord(f: CaptureFilters, w: Endpoints, p: Endpoints, dir: Direction)
    requires EndpointsCompatible(w, p, dir) && DirectionAllowed(w, p, dir)
    ensures BaseScore(f, w, p, dir) == if Admissible(f, w, p, dir) then RecordBase(f, p, dir) else -1
  {
    if HasTuple(p) { CompleteTupleSoundness(f, w, p, dir); }
  }

  function PayloadBonus(env: Env, data: Bytes, pt: GenericMap): int {
    var tcp := env.tcpPayload(data);
    if tcp.None? || tcp.value == 0 then 0
    else if 0 < PlaintextLen(env, pt) <= tcp.value then 25 else 20
  }

  lemma TimeBonusRange(wire: Arrival, pt: Arrival)
    ensures 0 <= TimeBonus(wire, pt) <= 10
  {
    hide Proximity;
    if wire.eventTime.Some? && pt.eventTime.Some? {
      var delta := Abs(pt.eventTime.value - wire.eventTime.value);
      if delta <= -MIN_DELTA { ProximityRange(delta, -MIN_DELTA); }
      if delta <= MAX_SKEW { ProximityRange(delta, MAX_SKEW); }
    } else {
      var delta := Abs(pt.receivedAt - wire.receivedAt);
      if delta <= CORRELATION_WINDOW { ProximityRange(delta, CORRELATION_WINDOW); }
    }
  }

  lemma ProximityRange(delta: nat, limit: nat)
    requires delta <= limit && limit >= MILLISECOND
    ensures Proximity(delta, limit) <= 10
  {
    var part, whole := (limit - delta) / MILLISECOND, limit / MILLISECOND;
    assert part <= whole;
    QuotientAtMost(TIME_BONUS_MAX * part, whole, 10);
  }

  lemma QuotientAtMost(n: nat, d: nat, bound: nat)
    requires d > 0 && n <= bound * d
    ensures n / d <= bound
  {
    assert d * (n / d) <= bound * d;
  }

  /** With both event times the record follows its packet by at most five seconds, or precedes it by
      at most two; otherwise the two are received at most thirty seconds apart. */
  lemma TimesMeaning(wire: Arrival, pt: Arrival)
    ensures TimesCorrelated(wire, pt) <==>
            if wire.eventTime.Some? && pt.eventTime.Some?
            then -2_000_000_000 <= pt.eventTime.value - wire.eventTime.value <= 5_000_000_000
            else -30_000_000_000 <= pt.receivedAt - wire.receivedAt <= 30_000_000_000
  {
  }

  /** The pod of a packet is its destination if that is a pod with a name or an owner, else its
      source if that is a pod, else unknown. */
  lemma PodIdentityMeaning(m: GenericMap)
    ensures var (name, owner) := PodIdentity(m);
            var d := Get(m, "DstK8S_Type") == Str("Pod")
                     && (Text(Get(m, "DstK8S_Name"), "") || Text(Get(m, "DstK8S_OwnerName"), ""));
            if d then Reads(Get(m, "DstK8S_Name"), name) && Reads(Get(m, "DstK8S_OwnerName"), owner)
            else if Get(m, "SrcK8S_Type") == Str("Pod")
            then Reads(Get(m, "SrcK8S_Name"), name) && Reads(Get(m, "SrcK8S_OwnerName"), owner)
            else name == "" && owner == ""
  {
  }

  /** Text other than `s`. */
  predicate Text(v: Value, s: string) { v.Str? && v.s != s }

  predicate Reads(v: Value, s: string) { v == Str(s) || (!v.Str? && s == "") }

  ghost predicate Mentions(identity: string, word: string) {
    exists before, after :: identity == before + word + after
  }

  lemma ContainsMeaning(s: string, sub: string)
    ensures Contains(s, sub) <==> Mentions(s, sub)
  {
    if i :| 0 <= i <= |s| && OccursAt(s, sub, i) {
      assert s == s[..i] + sub + s[i + |sub|..];
    }
    if before, after :| s == before + sub + after {
      assert OccursAt(s, sub, |before|);
    }
  }

  /** Which TLS sources a packet's pod allows: openssl and ktls for a pod that mentions openssl, else
      gotls only for one that mentions gotls, else ktls and openssl for one that mentions ktls; all
      for any other pod, an unknown pod and an unknown source. */
  lemma PodCompatibleMeaning(env: Env, wire: GenericMap, pt: GenericMap)
    ensures var (name, owner) := PodIdentity(wire);
            var identity, v := env.lower(name + " " + owner), Get(pt, "TLSSource");
            PodCompatible(env, wire, pt) <==>
            if !Text(v, "") || (name == "" && owner == "") then true
            else if Mentions(identity, "openssl") then v in {Str("openssl"), Str("ktls")}
            else if Mentions(identity, "gotls") then v == Str("gotls")
            else if Mentions(identity, "ktls") then v in {Str("ktls"), Str("openssl")}
            else true
  {
    var (name, owner) := PodIdentity(wire);
    var identity := env.lower(name + " " + owner);
    ContainsMeaning(identity, "openssl");
    ContainsMeaning(identity, "gotls");
    ContainsMeaning(identity, "ktls");
    hide PodIdentity, Contains, Mentions;
  }

  /** `there` and `back` are the packet's ends as the record sees them: its source first, or its
      destination first for a read. Every address the record knows is the packet's, with its port
      if that is positive; the local endpoint is where the direction says; a complete record has the
      very connection, and one without an endpoint needs the capture filters. */
  lemma AdmissibleMeaning(f: CaptureFilters, w: Endpoints, p: Endpoints, dir: Direction)
    ensures var (ip, port, ip', port') := if dir == Read then (w.dst, w.dport, w.src, w.sport) else (w.src, w.sport, w.dst, w.dport);
            Admissible(f, w, p, dir) <==>
              && (p.src.Some? ==> ip == p.src && (p.sport.Some? && p.sport.value > 0 ==> port == p.sport))
              && (p.dst.Some? ==> ip' == p.dst && (p.dport.Some? && p.dport.value > 0 ==> port' == p.dport))
              && (dir != Unknown ==>
                    forall a, n :: PodEndpoint(p) == Some((a, n)) ==> ip == Some(a) && port == Some(n))
              && (p.src.Some? && p.dst.Some? && p.sport.Some? && p.dport.Some? ==> port == p.sport && port' == p.dport)
              && (!HasTuple(p) && PodEndpoint(p).None? ==> MatchesFilters(w, f))
  {
    hide MatchesFilters;
    if PodEndpoint(p).Some? {
      var a, n := PodEndpoint(p).value.0, PodEndpoint(p).value.1;
      assert PodEndpoint(p) == Some((a, n));
    }
  }

  /** The payload length of a record: its own count if that is positive, else what it carries. */
  lemma PlaintextLenMeaning(env: Env, pt: GenericMap)
    ensures var v := Get(pt, "PlaintextLen");
            PlaintextLen(env, pt) == if v.Num? && v.x > 0.0 then v.x.Floor
                                     else env.payloadLen(Get(pt, "Plaintext"), Get(pt, "PlaintextPreview"))
  {
  }

  /** Packets with application bytes score 20, and 25 if they hold at least as many as the record. */
  lemma PayloadBonusMeaning(env: Env, data: Bytes, pt: GenericMap)
    ensures PayloadBonus(env, data, pt) ==
            match env.tcpPayload(data)
            case None => 0
            case Some(n) => if n == 0 then 0 else if 0 < PlaintextLen(env, pt) <= n then 25 else 20
  {
    hide PlaintextLen;
  }

  /** The tiers: 100 for a complete record, 75 for one with a local endpoint and a peer, 50 for a
      local endpoint alone, each plus 5 if the direction is known; 50 for neither, plus 1 for port
      filters and 1 for peer filters. */
  lemma RecordBaseMeaning(f: CaptureFilters, p: Endpoints, dir: Direction)
    ensures var known := if dir in {Read, Write} then 5 else 0;
            RecordBase(f, p, dir) ==
            if HasTuple(p) then 100 + known
            else if PodEndpoint(p).Some? then (if PeerIP(p).Some? then 75 else 50) + known
            else 50 + (if |f.ports| > 0 then 1 else 0) + (if |f.peerIPs| + |f.peerNets| > 0 then 1 else 0)
  {
  }

  /** The exact meaning of a score: which packets are accepted, and base plus bonuses. */
  lemma ScoreMeaning(env: Env, f: CaptureFilters, wire: WireCore, at: Arrival, pt: GenericMap)
    ensures var s := Score(env, f, wire, at, pt);
            var w, p, dir := EndpointsOf(env, wire.fields), EndpointsOf(env, pt), DirectionOf(pt);
            && s >= -1
            && (s >= 0 <==>
                  && (if wire.at.eventTime.Some? && at.eventTime.Some?
                      then -2_000_000_000 <= at.eventTime.value - wire.at.eventTime.value <= 5_000_000_000
                      else -30_000_000_000 <= at.receivedAt - wire.at.receivedAt <= 30_000_000_000)
                  && PodCompatible(env, wire.fields, pt) && Admissible(f, w, p, dir)
                  && env.tcpPayload(wire.data) != Some(0))
            && (s >= 0 ==> s == RecordBase(f, p, dir) + TimeBonus(wire.at, at) + PayloadBonus(env, wire.data, pt))
  {
    var w, p, dir := EndpointsOf(env, wire.fields), EndpointsOf(env, pt), DirectionOf(pt);
    TimesMeaning(wire.at, at);
    hide EndpointsOf, DirectionOf, PodCompatible, TimesCorrelated, TimeBonus, PlaintextLen;
    if EndpointsCompatible(w, p, dir) && DirectionAllowed(w, p, dir) {
      TierIsFixedByRecord(f, w, p, dir);
      hide BaseScore, Admissible, EndpointsCompatible, DirectionAllowed;
    }
  }

  /** Every accepted packet already clears the threshold of its record. */
  lemma ThresholdAlwaysMet(env: Env, f: CaptureFilters, wire: WireCore, at: Arrival, pt: GenericMap)
    requires Score(env, f, wire, at, pt) >= 0
    ensures Score(env, f, wire, at, pt) >= MinAnnotationScore(EndpointsOf(env, pt), f)
  {
    ScoreMeaning(env, f, wire, at, pt);
    hide Score, EndpointsOf, DirectionOf, TimeBonus, PlaintextLen, Admissible;
  }

  /** Ten equal slices of the limit: the millisecond rounding never moves a packet to another. */
  function Slice(limit: int): int { limit / 10 }

  predicate BonusLimit(limit: int) {
    limit == 5_000_000_000 || limit == 2_000_000_000 || limit == 30_000_000_000
  }

  lemma ProximityClosedForm(delta: nat, limit: nat)
    requires BonusLimit(limit) && delta <= limit
    ensures Proximity(delta, limit) == (limit - delta) / Slice(limit)
  {
    var x := limit - delta;
    var q := x / MILLISECOND;
    assert q == x / 1_000_000;
    if limit == 5_000_000_000 {
      assert Proximity(delta, limit) == 10 * q / 5_000;
    } else if limit == 2_000_000_000 {
      assert Proximity(delta, limit) == 10 * q / 2_000;
    } else {
      assert Proximity(delta, limit) == 10 * q / 30_000;
    }
  }

  /** `near` is at least as close to the record as `far`, on the same side when both have event
      times, and by receive time when neither does (or the record does not). */
  predicate AtLeastAsClose(near: Arrival, far: Arrival, pt: Arrival) {
    if pt.eventTime.Some? && near.eventTime.Some? && far.eventTime.Some? then
      var n, d := pt.eventTime.value - near.eventTime.value, pt.eventTime.value - far.eventTime.value;
      0 <= n <= d || d <= n <= 0
    else
      && (pt.eventTime.None? || (near.eventTime.None? && far.eventTime.None?))
      && Abs(pt.receivedAt - near.receivedAt) <= Abs(pt.receivedAt - far.receivedAt)
  }

  /** Closer never scores lower, at any distance. */
  lemma TimeBonusMonotone(near: Arrival, far: Arrival, pt: Arrival)
    requires AtLeastAsClose(near, far, pt)
    ensures TimeBonus(far, pt) <= TimeBonus(near, pt) <= TIME_BONUS_MAX
    ensures pt.eventTime.Some? && near.eventTime == pt.eventTime ==> TimeBonus(near, pt) == TIME_BONUS_MAX
    ensures (pt.eventTime.Some? && far.eventTime.Some?
             && pt.eventTime.value - far.eventTime.value in {MAX_SKEW, MIN_DELTA}) ==> TimeBonus(far, pt) == 0
  {
    TimeBonusRange(near, pt);
    TimeBonusRange(far, pt);
    BonusClosedForm(near, pt);
    BonusClosedForm(far, pt);
    hide TimeBonus;
  }

  /** The bonus without its milliseconds: from 10 for simultaneous events down to 0 at the edge. */
  lemma BonusClosedForm(wire: Arrival, pt: Arrival)
    ensures TimeBonus(wire, pt) ==
            if wire.eventTime.Some? && pt.eventTime.Some? then
              var d := pt.eventTime.value - wire.eventTime.value;
              if 0 <= d <= 5_000_000_000 then (5_000_000_000 - d) / 500_000_000
              else if -2_000_000_000 <= d < 0 then (d + 2_000_000_000) / 200_000_000
              else 0
            else
              var d := if pt.receivedAt < wire.receivedAt then wire.receivedAt - pt.receivedAt else pt.receivedAt - wire.receivedAt;
              if d <= 30_000_000_000 then (30_000_000_000 - d) / 3_000_000_000 else 0
  {
    hide Proximity;
    if wire.eventTime.Some? && pt.eventTime.Some? {
      var d := pt.eventTime.value - wire.eventTime.value;
      if 0 <= d <= MAX_SKEW { ProximityClosedForm(d, MAX_SKEW); }
      if MIN_DELTA <= d < 0 { ProximityClosedForm(-d, -MIN_DELTA); }
    } else {
      var d := Abs(pt.receivedAt - wire.receivedAt);
      if d <= CORRELATION_WINDOW { ProximityClosedForm(d, CORRELATION_WINDOW); }
    }
  }

  /** Two packets that precede the record by delays at most 2.5 s apart, with equal payload
      bonus, are always within the ambiguity margin of each other. */
  lemma CloseDelaysAreAmbiguous(env: Env, f: CaptureFilters, a: WireCore, b: WireCore, at: Arrival, pt: GenericMap)
    requires at.eventTime.Some? && a.at.eventTime.Some? && b.at.eventTime.Some?
    requires 0 <= at.eventTime.value - a.at.eventTime.value
    requires 0 <= at.eventTime.value - b.at.eventTime.value
    requires Abs(a.at.eventTime.value - b.at.eventTime.value) <= 2_500_000_000
    requires Score(env, f, a, at, pt) >= 0 && Score(env, f, b, at, pt) >= 0
    requires PayloadBonus(env, a.data, pt) == PayloadBonus(env, b.data, pt)
    ensures Abs(Score(env, f, a, at, pt) - Score(env, f, b, at, pt)) <= AMBIGUITY_MARGIN
  {
    ScoreMeaning(env, f, a, at, pt);
    ScoreMeaning(env, f, b, at, pt);
    BonusClosedForm(a.at, at);
    BonusClosedForm(b.at, at);
    hide Score, Admissible, RecordBase, EndpointsOf, DirectionOf, PodCompatible, PayloadBonus, TimeBonus;
  }

  /** A frame with application bytes beats a frame without a TCP layer by more than the margin. */
  lemma PayloadFrameWins(env: Env, f: CaptureFilters, a: WireCore, b: WireCore, at: Arrival, pt: GenericMap)
    requires Score(env, f, a, at, pt) >= 0 && Score(env, f, b, at, pt) >= 0
    requires env.tcpPayload(a.data).Some? && env.tcpPayload(b.data).None?
    ensures Score(env, f, a, at, pt) - Score(env, f, b, at, pt) > AMBIGUITY_MARGIN
  {
    ScoreMeaning(env, f, a, at, pt);
    ScoreMeaning(env, f, b, at, pt);
    TimeBonusRange(a.at, at);
    TimeBonusRange(b.at, at);
    hide Score, Admissible, RecordBase, EndpointsOf, DirectionOf, PodCompatible, TimeBonus;
  }
}
