/** The record that is written for a plaintext event: overlaid with the packet that carries it, or
    restored from the agent's original when no packet does. */
module Exports {
  import opened Records
  import opened Scoring

  predicate HasPrefix(k: string, prefix: string) {
    |k| >= |prefix| && k[..|prefix|] == prefix
  }

  predicate IsEndpointK8s(k: string) { HasPrefix(k, "SrcK8S_") || HasPrefix(k, "DstK8S_") }
  predicate IsWireK8s(k: string) { IsEndpointK8s(k) || HasPrefix(k, "K8S_") }
  predicate IsTupleKey(k: string) { k in ["SrcAddr", "DstAddr", "SrcPort", "DstPort"] }

  predicate IsEndpointKey(k: string) { HasPrefix(k, "Src") || HasPrefix(k, "Dst") }

  lemma PrefixAt(k: string, prefix: string, i: nat)
    requires HasPrefix(k, prefix) && i < |prefix|
    ensures k[i] == prefix[i]
  {
    assert k[..|prefix|][i] == prefix[i];
  }

  /** How the key classes lie: tuple keys and endpoint metadata are endpoint keys and are disjoint,
      and plain `K8S_` keys are not endpoint keys. */
  lemma KeyClasses(k: string)
    ensures IsTupleKey(k) ==> IsEndpointKey(k) && !IsWireK8s(k)
    ensures IsEndpointK8s(k) ==> IsEndpointKey(k) && !HasPrefix(k, "K8S_")
    ensures HasPrefix(k, "K8S_") ==> !IsEndpointKey(k)
    ensures |k| > 0 && k[0] !in "SDK" ==> !IsEndpointKey(k) && !IsWireK8s(k)
  {
    if IsTupleKey(k) {
      assert k[..3] == "Src" || k[..3] == "Dst";
      assert k[3] != 'K' && k[0] != 'K';
      if HasPrefix(k, "SrcK8S_") { PrefixAt(k, "SrcK8S_", 3); }
      if HasPrefix(k, "DstK8S_") { PrefixAt(k, "DstK8S_", 3); }
      if HasPrefix(k, "K8S_") { PrefixAt(k, "K8S_", 0); }
    }
    if HasPrefix(k, "SrcK8S_") {
      PrefixAt(k, "SrcK8S_", 0);
      assert k[..3] == "SrcK8S_"[..3] == "Src";
    }
    if HasPrefix(k, "DstK8S_") {
      PrefixAt(k, "DstK8S_", 0);
      assert k[..3] == "DstK8S_"[..3] == "Dst";
    }
    if HasPrefix(k, "K8S_") { PrefixAt(k, "K8S_", 0); }
    if HasPrefix(k, "Src") { PrefixAt(k, "Src", 0); }
    if HasPrefix(k, "Dst") { PrefixAt(k, "Dst", 0); }
  }

  /** The key classes by their texts. */
  lemma KeyMeaning(k: string)
    ensures forall prefix: string :: HasPrefix(k, prefix) <==> exists rest :: k == prefix + rest
    ensures IsEndpointK8s(k) <==> exists rest :: k == "SrcK8S_" + rest || k == "DstK8S_" + rest
    ensures IsWireK8s(k) <==> exists rest :: k == "SrcK8S_" + rest || k == "DstK8S_" + rest || k == "K8S_" + rest
    ensures IsEndpointKey(k) <==> exists rest :: k == "Src" + rest || k == "Dst" + rest
    ensures IsTupleKey(k) <==> k == "SrcAddr" || k == "DstAddr" || k == "SrcPort" || k == "DstPort"
  {
    forall prefix: string ensures HasPrefix(k, prefix) <==> exists rest :: k == prefix + rest {
      PrefixMeaning(k, prefix);
    }
    PrefixMeaning(k, "SrcK8S_");
    PrefixMeaning(k, "DstK8S_");
    PrefixMeaning(k, "K8S_");
    PrefixMeaning(k, "Src");
    PrefixMeaning(k, "Dst");
    hide HasPrefix;
  }

  lemma PrefixMeaning(k: string, prefix: string)
    ensures HasPrefix(k, prefix) <==> exists rest :: k == prefix + rest
  {
    if HasPrefix(k, prefix) { assert k == prefix + k[|prefix|..]; }
  }

  /** Only empty text, zero and nothing at all are without meaning. */
  lemma MeaningfulMeaning(v: Value)
    ensures Meaningful(v) <==> v !in {Null, Str(""), Num(0.0), Int(0), Int64(0)}
  {
  }

  predicate Meaningful(v: Value) {
    match v
    case Null => false
    case Str(s) => s != ""
    case Num(x) => x != 0.0
    case Int(i) => i != 0
    case Int64(j) => j != 0
    case _ => true
  }

  predicate Verified(env: Env, m: GenericMap) {
    Get(m, "TupleSource") == Str("kernel") && HasTuple(EndpointsOf(env, m))
  }

  /** Adds the display text of the payload, when there is one. */
  function EnrichExport(env: Env, m: GenericMap): GenericMap {
    var display := env.preview(Get(m, "Plaintext"), Get(m, "PlaintextPreview"));
    if display != "" then m["PlaintextDisplay" := Str(display)] else m
  }

  // ---- Overlay of a confirmed packet ----

  function SetTuple(m: GenericMap, t: FlowTuple): GenericMap {
    m["SrcAddr" := Str(t.srcIP)]["DstAddr" := Str(t.dstIP)]["SrcPort" := U16(t.srcPort)]
     ["DstPort" := U16(t.dstPort)]["Proto" := Num(6.0)]
  }

  lemma SetTupleReads(env: Env, m: GenericMap, t: FlowTuple)
    requires ValidIP(env, Str(t.srcIP)) == Some(t.srcIP) && ValidIP(env, Str(t.dstIP)) == Some(t.dstIP)
    ensures TupleOf(EndpointsOf(env, SetTuple(m, t))) == Some(t)
  {
    hide ValidIP;
    var r := SetTuple(m, t);
    assert Get(r, "SrcAddr") == Str(t.srcIP);
    assert Get(r, "DstAddr") == Str(t.dstIP);
    assert Get(r, "SrcPort") == U16(t.srcPort);
    assert Get(r, "DstPort") == U16(t.dstPort);
  }

  function DropEndpointK8s(m: GenericMap): GenericMap {
    map k | k in m && !IsEndpointK8s(k) :: m[k]
  }

  predicate Copied(m: GenericMap, wire: GenericMap, k: string) {
    k in wire && IsWireK8s(k) && !Meaningful(Get(m, k))
  }

  function CopyWireK8s(m: GenericMap, wire: GenericMap): GenericMap {
    map k | k in m.Keys + wire.Keys && (k in m || Copied(m, wire, k)) ::
      if Copied(m, wire, k) then wire[k] else m[k]
  }

  function Overlay(env: Env, pt: GenericMap, wire: GenericMap): GenericMap {
    var t := TupleOf(EndpointsOf(env, wire));
    var m := if t.Some? then SetTuple(pt, t.value) else pt;
    CopyWireK8s(DropEndpointK8s(m), wire)
  }

  method DropEndpointK8sFields(m: GenericMap) returns (r: GenericMap)
    ensures r == DropEndpointK8s(m)
  {
    r := m;
    var keys := m.Keys;
    while keys != {}
      invariant keys <= m.Keys
      invariant r == map k | k in m && (k in keys || !IsEndpointK8s(k)) :: m[k]
      decreases |keys|
    {
      var key :| key in keys;
      keys := keys - {key};
      if IsEndpointK8s(key) { r := r - {key}; }
    }
  }

  lemma CopyWireK8sPointwise(m: GenericMap, wire: GenericMap, r: GenericMap)
    requires forall k :: k in r <==> k in m || Copied(m, wire, k)
    requires forall k :: k in r ==> r[k] == if Copied(m, wire, k) then wire[k] else m[k]
    ensures r == CopyWireK8s(m, wire)
  {
    assert forall k :: Copied(m, wire, k) ==> k in wire;
    hide Copied;
    assert r.Keys == CopyWireK8s(m, wire).Keys;
  }

  method CopyWireK8sFields(m: GenericMap, wire: GenericMap) returns (r: GenericMap)
    ensures r == CopyWireK8s(m, wire)
  {
    hide IsWireK8s, Meaningful;
    r := m;
    var keys := wire.Keys;
    while keys != {}
      invariant keys <= wire.Keys
      invariant forall k :: k in keys ==> (k in r <==> k in m) && Get(r, k) == Get(m, k)
      invariant forall k :: k !in keys ==>
                  (k in r <==> k in m || Copied(m, wire, k))
                  && (k in r ==> r[k] == if Copied(m, wire, k) then wire[k] else m[k])
      decreases |keys|
    {
      var key :| key in keys;
      keys := keys - {key};
      var copy := IsWireK8s(key) && !Meaningful(Get(r, key));
      assert copy == Copied(m, wire, key);
      hide Copied;
      if copy { r := r[key := wire[key]]; }
    }
    CopyWireK8sPointwise(m, wire, r);
  }

  method OverlayCorrelatedWire(env: Env, pt: GenericMap, wire: GenericMap) returns (r: GenericMap)
    ensures r == Overlay(env, pt, wire)
  {
    var t := TupleOf(EndpointsOf(env, wire));
    r := pt;
    if t.Some? { r := SetTuple(r, t.value); }
    r := DropEndpointK8sFields(r);
    r := CopyWireK8sFields(r, wire);
  }

  /** After an overlay the endpoint fields are the packet's and nothing else is lost: the tuple is
      the packet's, endpoint metadata is exactly the packet's, `K8S_` fields are only filled in. */
  lemma OverlayMeaning(env: Env, pt: GenericMap, wire: GenericMap)
    requires env.Ok()
    ensures var r, t := Overlay(env, pt, wire), TupleOf(EndpointsOf(env, wire));
            && (t.Some? ==>
                  && TupleOf(EndpointsOf(env, r)) == t && Get(r, "Proto") == Num(6.0)
                  && Get(r, "SrcAddr") == Str(t.value.srcIP) && Get(r, "SrcPort") == U16(t.value.srcPort)
                  && Get(r, "DstAddr") == Str(t.value.dstIP) && Get(r, "DstPort") == U16(t.value.dstPort))
            && (t.None? ==> forall k :: IsTupleKey(k) || k == "Proto" ==> Get(r, k) == Get(pt, k))
            && (forall k :: IsEndpointK8s(k) ==> (k in r <==> k in wire) && Get(r, k) == Get(wire, k))
            && (forall k :: HasPrefix(k, "K8S_") ==>
                  Get(r, k) == if Meaningful(Get(pt, k)) || k !in wire then Get(pt, k) else wire[k])
            && (forall k :: !IsWireK8s(k) && !IsTupleKey(k) && k != "Proto" ==> Get(r, k) == Get(pt, k))
  {
    hide Overlay, HasPrefix, Meaningful, SetTuple, EndpointsOf, IsTupleKey;
    OverlayFields(env, pt, wire);
    var t := TupleOf(EndpointsOf(env, wire));
    if t.Some? {
      SetTupleFields(pt, t.value);
      KnownTuple(env, wire);
      SetTupleReads(env, pt, t.value);
      SameTuple(env, Overlay(env, pt, wire), SetTuple(pt, t.value));
      TupleKeys();
    }
  }

  lemma TupleKeys()
    ensures IsTupleKey("SrcAddr") && IsTupleKey("DstAddr") && IsTupleKey("SrcPort") && IsTupleKey("DstPort")
  {
  }

  lemma KnownTuple(env: Env, wire: GenericMap)
    requires env.Ok() && TupleOf(EndpointsOf(env, wire)).Some?
    ensures var t := TupleOf(EndpointsOf(env, wire)).value;
            ValidIP(env, Str(t.srcIP)) == Some(t.srcIP) && ValidIP(env, Str(t.dstIP)) == Some(t.dstIP)
  {
  }

  lemma SetTupleFields(m: GenericMap, t: FlowTuple)
    ensures var r := SetTuple(m, t);
            && Get(r, "SrcAddr") == Str(t.srcIP) && Get(r, "SrcPort") == U16(t.srcPort)
            && Get(r, "DstAddr") == Str(t.dstIP) && Get(r, "DstPort") == U16(t.dstPort) && Get(r, "Proto") == Num(6.0)
            && forall k :: !IsTupleKey(k) && k != "Proto" ==> Get(r, k) == Get(m, k)
  {
  }

  /** Field by field, for the record with the packet's tuple already in it. */
  lemma OverlayFields(env: Env, pt: GenericMap, wire: GenericMap)
    ensures var t := TupleOf(EndpointsOf(env, wire));
            var m, r := if t.Some? then SetTuple(pt, t.value) else pt, Overlay(env, pt, wire);
            && (forall k :: IsTupleKey(k) || k == "Proto" ==> Get(r, k) == Get(m, k))
            && (forall k :: IsEndpointK8s(k) ==> (k in r <==> k in wire) && Get(r, k) == Get(wire, k))
            && (forall k :: HasPrefix(k, "K8S_") ==>
                  Get(r, k) == if Meaningful(Get(pt, k)) || k !in wire then Get(pt, k) else wire[k])
            && (forall k :: !IsWireK8s(k) && !IsTupleKey(k) && k != "Proto" ==> Get(r, k) == Get(pt, k))
  {
    var t := TupleOf(EndpointsOf(env, wire));
    var m := if t.Some? then SetTuple(pt, t.value) else pt;
    if t.Some? { SetTupleFields(pt, t.value); }
    var r := Overlay(env, pt, wire);
    hide EndpointsOf, SetTuple;
    forall k
      ensures IsTupleKey(k) || k == "Proto" ==> Get(r, k) == Get(m, k)
      ensures IsEndpointK8s(k) ==> (k in r <==> k in wire) && Get(r, k) == Get(wire, k)
      ensures HasPrefix(k, "K8S_") ==>
                Get(r, k) == if Meaningful(Get(pt, k)) || k !in wire then Get(pt, k) else wire[k]
      ensures !IsWireK8s(k) && !IsTupleKey(k) && k != "Proto" ==> Get(r, k) == Get(pt, k)
    {
      KeyClasses(k);
      hide HasPrefix, Meaningful;
    }
  }

  /** The connection of a record is read from four keys. */
  lemma SameTuple(env: Env, a: GenericMap, b: GenericMap)
    requires forall k :: IsTupleKey(k) ==> Get(a, k) == Get(b, k)
    ensures EndpointsOf(env, a) == EndpointsOf(env, b)
  {
    hide ValidIP;
    assert IsTupleKey("SrcAddr") && IsTupleKey("DstAddr") && IsTupleKey("SrcPort") && IsTupleKey("DstPort");
  }

  /** The record exported for a correlation, and the packet's comment. */
  function AnnotatedData(env: Env, data: GenericMap, wire: GenericMap): GenericMap {
    EnrichExport(env, Overlay(env, data, wire))
  }

  function AnnotatedRecord(env: Env, data: GenericMap, wire: GenericMap): GenericMap {
    AnnotatedData(env, data, wire)["PcapAnnotated" := Bool(true)]
  }

  // ---- Records without a packet ----

  function Scrubbed(m: GenericMap): GenericMap {
    map k | k in m && !IsTupleKey(k) && !IsEndpointK8s(k) :: m[k]
  }

  function SwapKey(k: string): string {
    if HasPrefix(k, "Src") then "Dst" + k[3..]
    else if HasPrefix(k, "Dst") then "Src" + k[3..]
    else k
  }

  lemma SwapKeyInvolution(k: string)
    ensures SwapKey(SwapKey(k)) == k
    ensures HasPrefix(SwapKey(k), "Src") <==> HasPrefix(k, "Dst")
    ensures HasPrefix(SwapKey(k), "Dst") <==> HasPrefix(k, "Src")
  {
    if HasPrefix(k, "Src") || HasPrefix(k, "Dst") {
      assert k == k[..3] + k[3..];
      assert SwapKey(k)[3..] == k[3..];
    }
  }

  /** Every `Src` field becomes the `Dst` field of the same suffix and the other way round. */
  function Swapped(m: GenericMap): GenericMap {
    map k | k in (set x | x in m :: SwapKey(x)) && SwapKey(k) in m :: m[SwapKey(k)]
  }

  lemma SwappedMeaning(m: GenericMap)
    ensures forall k :: Get(Swapped(m), SwapKey(k)) == Get(m, k) && (SwapKey(k) in Swapped(m) <==> k in m)
    ensures Swapped(Swapped(m)) == m
  {
    forall k ensures SwapKey(SwapKey(k)) == k { SwapKeyInvolution(k); }
    assert forall k :: SwapKey(k) in Swapped(m) <==> k in m;
  }

  lemma SwappedPointwise(m: GenericMap, r: GenericMap)
    requires forall k :: k in r <==> SwapKey(k) in m
    requires forall k :: k in r ==> r[k] == m[SwapKey(k)]
    ensures r == Swapped(m)
  {
    forall k ensures SwapKey(SwapKey(k)) == k { SwapKeyInvolution(k); }
    hide SwapKey;
    assert r.Keys == Swapped(m).Keys;
  }

  lemma SwapKeyFixes(k: string)
    ensures SwapKey(k) == k <==> !IsEndpointKey(k)
  {
    if HasPrefix(k, "Src") { assert SwapKey(k)[0] == 'D'; PrefixAt(k, "Src", 0); }
    else if HasPrefix(k, "Dst") { assert SwapKey(k)[0] == 'S'; PrefixAt(k, "Dst", 0); }
  }

  lemma SwapNames()
    ensures SwapKey("SrcAddr") == "DstAddr" && SwapKey("DstAddr") == "SrcAddr"
  {
    assert "SrcAddr"[3..] == "Addr" && "DstAddr"[3..] == "Addr";
  }

  lemma SwapPortNames()
    ensures SwapKey("SrcPort") == "DstPort" && SwapKey("DstPort") == "SrcPort"
  {
    assert "SrcPort"[3..] == "Port" && "DstPort"[3..] == "Port";
  }

  lemma SwappedEndpoints(env: Env, m: GenericMap)
    ensures var e := EndpointsOf(env, m);
            EndpointsOf(env, Swapped(m)) == Endpoints(e.dst, e.src, e.dport, e.sport)
  {
    hide ValidIP, SwapKey, HasPrefix, Swapped;
    SwappedMeaning(m);
    SwapNames();
    SwapPortNames();
    assert Get(Swapped(m), SwapKey("SrcAddr")) == Get(m, "SrcAddr");
    assert Get(Swapped(m), SwapKey("DstAddr")) == Get(m, "DstAddr");
    assert Get(Swapped(m), SwapKey("SrcPort")) == Get(m, "SrcPort");
    assert Get(Swapped(m), SwapKey("DstPort")) == Get(m, "DstPort");
  }

  function PrepareUnmatched(env: Env, m: GenericMap): GenericMap {
    if !Verified(env, m) then Scrubbed(m)
    else if DirectionOf(m) == Read then Swapped(m)
    else m
  }

  /** The loops of the source go over the keys of a map in any order. */
  method PrepareUnmatchedPlaintext(env: Env, m: GenericMap) returns (r: GenericMap)
    ensures r == PrepareUnmatched(env, m)
  {
    if !Verified(env, m) {
      r := ScrubEndpoints(m);
    } else if Get(m, "Direction") != Str("read") {
      r := m;
    } else {
      r := SwapEndpoints(m);
    }
  }

  method ScrubEndpoints(m: GenericMap) returns (r: GenericMap)
    ensures r == Scrubbed(m)
  {
    hide IsTupleKey, IsEndpointK8s;
    r := m;
    var keys := m.Keys;
    while keys != {}
      invariant keys <= m.Keys
      invariant r == map k | k in m && (k in keys || (!IsTupleKey(k) && !IsEndpointK8s(k))) :: m[k]
      decreases |keys|
    {
      var key :| key in keys;
      keys := keys - {key};
      if IsTupleKey(key) || IsEndpointK8s(key) { r := r - {key}; }
    }
  }

  method SwapEndpoints(m: GenericMap) returns (r: GenericMap)
    ensures r == Swapped(m)
  {
    var original := m;
    r := m;
    var keys := original.Keys;
    while keys != {}
      invariant keys <= m.Keys
      invariant r == map k | k in m && (k in keys || !IsEndpointKey(k)) :: m[k]
      decreases |keys|
    {
      hide HasPrefix;
      var key :| key in keys;
      keys := keys - {key};
      if IsEndpointKey(key) { r := r - {key}; }
    }
    forall k
      ensures SwapKey(SwapKey(k)) == k && (!IsEndpointKey(k) ==> SwapKey(k) == k)
      ensures IsEndpointKey(SwapKey(k)) <==> IsEndpointKey(k)
    {
      SwapKeyInvolution(k);
    }
    keys := original.Keys;
    while keys != {}
      invariant keys <= m.Keys
      invariant forall k :: k in r <==>
                  (SwapKey(k) in m && (!IsEndpointKey(k) || SwapKey(k) !in keys))
      invariant forall k :: k in r ==> r[k] == m[SwapKey(k)]
      decreases |keys|
    {
      var key :| key in keys;
      var value := original[key];
      keys := keys - {key};
      if HasPrefix(key, "Src") {
        r := r["Dst" + key[3..] := value];
        assert SwapKey(key) == "Dst" + key[3..];
        assert !HasPrefix(key, "Dst") by { PrefixAt(key, "Src", 0); assert "Dst"[0] == 'D'; }
      }
      if HasPrefix(key, "Dst") {
        r := r["Src" + key[3..] := value];
        assert SwapKey(key) == "Src" + key[3..];
      }
      hide HasPrefix, SwapKey;
    }
    SwappedPointwise(m, r);
  }

  /** What is exported for a record that no packet carries. */
  function Unmatched(env: Env, original: GenericMap): GenericMap {
    var rec := if Get(original, "TupleSource") == Str("kernel") then PrepareUnmatched(env, original) else original;
    rec["PcapAnnotated" := Bool(false)]
  }

  /** A verified record keeps its connection, turned into network direction; an unverified one
      that goes through the clean-up keeps no endpoint at all. Other fields survive. */
  lemma PrepareUnmatchedMeaning(env: Env, m: GenericMap)
    ensures var r := PrepareUnmatched(env, m);
            && (Verified(env, m) ==>
                  TupleOf(EndpointsOf(env, r)) ==
                  if DirectionOf(m) == Read then Some(Reverse(TupleOf(EndpointsOf(env, m)).value))
                  else TupleOf(EndpointsOf(env, m)))
            && (!Verified(env, m) ==> forall k :: IsTupleKey(k) || IsEndpointK8s(k) ==> k !in r)
            && (forall k :: !IsEndpointKey(k) ==> Get(r, k) == Get(m, k))
            && (Verified(env, m) && Get(m, "Direction") == Str("read") ==>
                  forall rest :: Get(r, "Src" + rest) == Get(m, "Dst" + rest) && Get(r, "Dst" + rest) == Get(m, "Src" + rest))
            && (Verified(env, m) && Get(m, "Direction") != Str("read") ==> r == m)
            && (!Verified(env, m) ==> forall k :: !IsTupleKey(k) && !IsEndpointK8s(k) ==> Get(r, k) == Get(m, k))
  {
    DirectionMeaning(m);
    SwappedSuffixes(m);
    hide Swapped, SwapKey, IsTupleKey, IsEndpointK8s, HasPrefix, EndpointsOf, DirectionOf;
    forall k
      ensures IsTupleKey(k) || IsEndpointK8s(k) ==> IsEndpointKey(k)
      ensures !IsEndpointKey(k) ==> Get(PrepareUnmatched(env, m), k) == Get(m, k)
    {
      KeyClasses(k);
      SwappedMeaning(m);
      SwapKeyFixes(k);
    }
    SwappedEndpoints(env, m);
  }

  /** For a verified record the exported connection does not depend on whether a packet of that
      connection was found. */
  lemma OrientationIndependentOfMatching(env: Env, m: GenericMap, wire: GenericMap)
    requires env.Ok() && Verified(env, m)
    requires TupleOf(EndpointsOf(env, wire)) ==
             if DirectionOf(m) == Read then Some(Reverse(TupleOf(EndpointsOf(env, m)).value))
             else TupleOf(EndpointsOf(env, m))
    ensures TupleOf(EndpointsOf(env, AnnotatedRecord(env, m, wire))) == TupleOf(EndpointsOf(env, wire))
    ensures TupleOf(EndpointsOf(env, Unmatched(env, m))) == TupleOf(EndpointsOf(env, wire))
  {
    hide Overlay, PrepareUnmatched, ValidIP, MapPort, IsTupleKey, IsEndpointK8s, HasPrefix, IsWireK8s, DirectionOf;
    OverlayMeaning(env, m, wire);
    PrepareUnmatchedMeaning(env, m);
    var o, u := Overlay(env, m, wire), PrepareUnmatched(env, m);
    KeysOfNote();
    SameTuple(env, AnnotatedRecord(env, m, wire), o);
    SameTuple(env, Unmatched(env, m), u);
    hide EndpointsOf;
  }

  lemma DirectionMeaning(m: GenericMap)
    ensures DirectionOf(m) == Read <==> Get(m, "Direction") == Str("read")
    ensures DirectionOf(m) == Write <==> Get(m, "Direction") == Str("write")
  {
  }

  /** A swap exchanges the two fields of every suffix. */
  lemma SwappedSuffixes(m: GenericMap)
    ensures forall rest :: Get(Swapped(m), "Src" + rest) == Get(m, "Dst" + rest)
                           && Get(Swapped(m), "Dst" + rest) == Get(m, "Src" + rest)
  {
    hide SwapKey, Swapped;
    forall rest
      ensures Get(Swapped(m), "Src" + rest) == Get(m, "Dst" + rest)
      ensures Get(Swapped(m), "Dst" + rest) == Get(m, "Src" + rest)
    {
      SwappedAt(m, rest);
    }
  }

  lemma SwappedAt(m: GenericMap, rest: string)
    ensures Get(Swapped(m), "Src" + rest) == Get(m, "Dst" + rest)
    ensures Get(Swapped(m), "Dst" + rest) == Get(m, "Src" + rest)
  {
    SwappedMeaning(m);
    SwapSuffix(rest);
    hide SwapKey, Swapped;
    assert Get(Swapped(m), SwapKey("Dst" + rest)) == Get(m, "Dst" + rest);
    assert Get(Swapped(m), SwapKey("Src" + rest)) == Get(m, "Src" + rest);
  }

  lemma SwapSuffix(rest: string)
    ensures SwapKey("Dst" + rest) == "Src" + rest && SwapKey("Src" + rest) == "Dst" + rest
  {
    assert ("Dst" + rest)[..3] == "Dst" && ("Src" + rest)[..3] == "Src";
    assert ("Dst" + rest)[3..] == rest && ("Src" + rest)[3..] == rest;
    assert !HasPrefix("Dst" + rest, "Src") by { assert ("Dst" + rest)[..3][0] == 'D'; }
  }

  /** The display text is the preview, when there is one; nothing else changes. */
  lemma DisplayMeaning(env: Env, m: GenericMap)
    ensures var r, text := EnrichExport(env, m), env.preview(Get(m, "Plaintext"), Get(m, "PlaintextPreview"));
            && Get(r, "PlaintextDisplay") == (if text != "" then Str(text) else Get(m, "PlaintextDisplay"))
            && forall k :: k != "PlaintextDisplay" ==> Get(r, k) == Get(m, k)
  {
  }

  /** A record of the kernel's is cleaned up on its way out unmatched; any other one is left as it is. */
  lemma UnmatchedMeaning(env: Env, m: GenericMap)
    ensures var r := Unmatched(env, m);
            && Get(r, "PcapAnnotated") == Bool(false)
            && forall k :: k != "PcapAnnotated" ==>
                 Get(r, k) == Get(if Get(m, "TupleSource") == Str("kernel") then PrepareUnmatched(env, m) else m, k)
  {
    hide PrepareUnmatched;
  }

  /** An annotated record is the overlay, with the display text and the mark. */
  lemma AnnotatedMeaning(env: Env, m: GenericMap, wire: GenericMap)
    ensures var r, o := AnnotatedRecord(env, m, wire), Overlay(env, m, wire);
            var text := env.preview(Get(o, "Plaintext"), Get(o, "PlaintextPreview"));
            && Get(r, "PcapAnnotated") == Bool(true)
            && Get(r, "PlaintextDisplay") == (if text != "" then Str(text) else Get(o, "PlaintextDisplay"))
            && forall k :: k !in ["PcapAnnotated", "PlaintextDisplay"] ==> Get(r, k) == Get(o, k)
  {
    hide Overlay;
  }

  lemma KeysOfNote()
    ensures !IsTupleKey("PcapAnnotated") && !IsTupleKey("PlaintextDisplay") && !IsTupleKey("PacketID")
  {
  }

  /** Exports keep the record's packet id and say whether a packet carries it. */
  lemma ExportKeepsId(env: Env, m: GenericMap, wire: GenericMap)
    requires env.Ok()
    ensures Get(AnnotatedRecord(env, m, wire), "PacketID") == Get(m, "PacketID")
    ensures Get(Unmatched(env, m), "PacketID") == Get(m, "PacketID")
    ensures Get(AnnotatedRecord(env, m, wire), "PcapAnnotated") == Bool(true)
    ensures Get(Unmatched(env, m), "PcapAnnotated") == Bool(false)
  {
    KeyClasses("PacketID");
    hide Overlay, PrepareUnmatched, EndpointsOf, IsTupleKey, IsEndpointK8s, HasPrefix, IsWireK8s, DirectionOf;
    OverlayMeaning(env, m, wire);
    PrepareUnmatchedMeaning(env, m);
  }
}
