/** The buffer itself: packets and records are shared objects that matching updates in place, and
    every method computes exactly the step of the state machine in BufferSpec. */
module WireBuffer {
  import opened Records
  import opened Scoring
  import opened Exports
  import opened BufferSpec
  import opened ScanProofs
  import RunProofs
  import PassProofs

  class BufferedWirePacket {
    const core: WireCore
    var annotations: seq<string>
    var packetID: Option<nat>
    var annotated: bool

    constructor (core: WireCore)
      ensures this.core == core && Valid() && Value() == Packet(core, None)
    {
      this.core := core;
      annotations, packetID, annotated := [], None, false;
    }

    ghost predicate Valid()
      reads this
    {
      (annotated <==> packetID.Some?) && |annotations| == if annotated then 1 else 0
    }

    ghost function Value(): Packet
      reads this
      requires Valid()
    {
      Packet(core, if annotated then Some(Mark(packetID.value, annotations[0])) else None)
    }
  }

  class PendingPlaintext {
    const at: Arrival
    const original: GenericMap
    const id: nat
    var data: GenericMap
    var connectionAmbiguous: bool

    constructor (at: Arrival, m: GenericMap, id: nat)
      ensures this.at == at && original == m && this.id == id && data == m && !connectionAmbiguous
    {
      this.at, this.original, this.id := at, m, id;
      data, connectionAmbiguous := m, false;
    }

    ghost function Value(): Pending
      reads this
    {
      Pending(at, data, original, id, connectionAmbiguous)
    }

    /** Adds the capture-filter hints, field by field. */
    method PrepareForMatch(c: Config)
      modifies this`data
      ensures data == Enrich(c.env, c.filters, old(data))
    {
      var e := EndpointsOf(c.env, data);
      if HasTuple(e) { return; }
      var port := SinglePort(c.filters);
      if |c.filters.peerIPs| == 1 {
        var peer := c.filters.peerIPs[0];
        var src := ValidIP(c.env, Get(data, "SrcAddr"));
        if src.Some? && src.value != peer { return; }
        data := data["Proto" := Num(6.0)];
        data := data["SrcAddr" := Str(peer)];
        var p := MapPort(data, "SrcPort");
        if port > 0 && (p.None? || p.value == 0) { data := data["SrcPort" := U16(port)]; }
        return;
      }
      if port > 0 {
        var p := MapPort(data, "SrcPort");
        if p.Some? && p.value > 0 { return; }
        data := data["Proto" := Num(6.0)];
        data := data["SrcPort" := U16(port)];
      }
    }
  }

  ghost predicate AllValid(ps: seq<BufferedWirePacket>)
    reads ps
  {
    forall i :: 0 <= i < |ps| ==> ps[i].Valid()
  }

  ghost function PacketValues(ps: seq<BufferedWirePacket>): (r: seq<Packet>)
    reads ps
    requires AllValid(ps)
    ensures |r| == |ps| && forall i :: 0 <= i < |ps| ==> r[i] == ps[i].Value()
  {
    seq(|ps|, i requires 0 <= i < |ps| && AllValid(ps) reads ps => ps[i].Value())
  }

  ghost function PendingValues(pts: seq<PendingPlaintext>): (r: seq<Pending>)
    reads pts
    ensures |r| == |pts| && forall i :: 0 <= i < |pts| ==> r[i] == pts[i].Value()
  {
    seq(|pts|, i requires 0 <= i < |pts| reads pts => pts[i].Value())
  }

  predicate Distinct<T(==)>(s: seq<T>) {
    forall i, j :: 0 <= i < j < |s| ==> s[i] != s[j]
  }

  /** `some` are elements of the first `i` of `all`, each once. */
  ghost predicate Chosen<T>(some: seq<T>, all: seq<T>, i: nat) {
    i <= |all| && Distinct(some) && forall x :: x in some ==> x in all[..i]
  }

  lemma NoneChosen<T>(all: seq<T>)
    ensures Chosen([], all, 0)
  {
  }

  lemma ChosenAll<T>(some: seq<T>, all: seq<T>)
    requires Chosen(some, all, |all|)
    ensures Distinct(some) && forall x :: x in some ==> x in all
  {
    assert all[..|all|] == all;
  }

  lemma ChosenNext<T>(some: seq<T>, all: seq<T>, i: nat)
    requires Chosen(some, all, i) && i < |all| && Distinct(all)
    ensures all[i] !in some && Chosen(some, all, i + 1) && Chosen(some + [all[i]], all, i + 1)
  {
    forall x | x in some ensures x != all[i] && x in all[..i + 1] {
      var j :| 0 <= j < i && all[j] == x;
      assert all[..i + 1][j] == x;
    }
    assert all[..i + 1][i] == all[i];
  }

  lemma LaterDiffer<T>(s: seq<T>, i: nat)
    requires Distinct(s) && i < |s|
    ensures forall j :: i < j < |s| ==> s[j] != s[i]
  {
  }

  class WirePacketBuffer {
    const c: Config
    var packets: seq<BufferedWirePacket>
    var pendingPlaintext: seq<PendingPlaintext>
    // the pcapng stream and the finished records, as seen by the outside
    ghost var written: seq<Packet>
    ghost var exported: seq<Export>

    ghost function PacketSet(): set<BufferedWirePacket>
      reads this
    {
      set p | p in packets
    }

    ghost function PendingSet(): set<PendingPlaintext>
      reads this
    {
      set p | p in pendingPlaintext
    }

    ghost predicate Valid()
      reads this, packets, pendingPlaintext
    {
      Distinct(packets) && Distinct(pendingPlaintext) && AllValid(packets)
    }

    ghost function Abs(): State
      reads this, packets, pendingPlaintext
      requires Valid()
    {
      State(PacketValues(packets), PendingValues(pendingPlaintext), written, exported)
    }

    constructor (env: Env, filters: CaptureFilters, window: int)
      ensures Valid() && Abs() == EMPTY
      ensures c.env == env && c.filters == filters
      ensures c.window == if window <= 0 then 30_000_000_000 else window
    {
      c := Config(env, filters, if window <= 0 then CORRELATION_WINDOW else window);
      packets, pendingPlaintext := [], [];
      written, exported := [], [];
    }

    /** One scan; returns the best index and score, and whether the match would be ambiguous. */
    method BestWireMatchWithAmbiguity(pt: PendingPlaintext) returns (bestIdx: int, bestScore: int, ambiguous: bool)
      requires Valid()
      modifies pt
      ensures Valid() && PacketValues(packets) == old(PacketValues(packets))
      ensures var data := Enrich(c.env, c.filters, old(pt.data));
              var scan := Scan(c, PacketValues(packets), pt.at, data);
              && bestIdx == scan.bestIdx && bestScore == scan.best
              && pt.data == data
              && pt.connectionAmbiguous == (old(pt.connectionAmbiguous) || (!Complete(c, pt.original) && scan.multiple))
              && ambiguous == (CloseCall(scan) || pt.connectionAmbiguous)
    {
      hide Scan, Enrich, Score, EndpointsOf, ScoredTuple;
      pt.PrepareForMatch(c);
      ghost var ps := PacketValues(packets);
      ScanNone(c, ps, pt.at, pt.data);
      bestIdx, bestScore := -1, -1;
      var secondBest := -1;
      var connection: Option<FlowTuple> := None;
      var multipleConnections := false;
      for i := 0 to |packets|
        invariant pt.data == Enrich(c.env, c.filters, old(pt.data)) && pt.connectionAmbiguous == old(pt.connectionAmbiguous)
        invariant Valid() && PacketValues(packets) == ps
        invariant Scan(c, ps[..i], pt.at, pt.data) ==
                  ScanResult(bestIdx, bestScore, secondBest, connection, multipleConnections)
      {
        var pkt := packets[i];
        ScanOneMore(c, ps, i, pt.at, pt.data);
        ScoredTupleMeaning(c, pkt.core, pt.at, pt.data);
        assert ps[i] == pkt.Value();
        var score := Score(c.env, c.filters, pkt.core, pt.at, pt.data);
        if score >= 0 {
          var tuple := TupleOf(EndpointsOf(c.env, pkt.core.fields));
          if tuple.Some? {
            if connection.Some? && !TuplesEqual(connection.value, tuple.value)
               && !TuplesReverseEqual(connection.value, tuple.value) {
              multipleConnections := true;
            }
            connection := tuple;
          }
        }
        if pkt.annotated { continue; }
        if score > bestScore {
          secondBest := bestScore;
          bestScore := score;
          bestIdx := i;
          continue;
        }
        if score > secondBest { secondBest := score; }
      }
      assert ps[..|packets|] == ps;
      ambiguous := bestIdx >= 0 && secondBest >= 0 && bestScore - secondBest <= AMBIGUITY_MARGIN;
      if !HasTuple(EndpointsOf(c.env, pt.original)) && multipleConnections {
        pt.connectionAmbiguous := true;
      }
      ambiguous := ambiguous || pt.connectionAmbiguous;
    }

    /** Writes the packet's endpoints into the record and the record's id onto the packet. */
    method Annotate(pt: PendingPlaintext, i: int)
      requires Valid() && 0 <= i < |packets|
      modifies pt`data, packets[i]
      ensures Valid()
      ensures pt.data == AnnotatedRecord(c.env, old(pt.data), packets[i].core.fields)
      ensures PacketValues(packets) == old(PacketValues(packets))[i := Packet(packets[i].core,
                Some(Mark(pt.id, c.env.comment(AnnotatedData(c.env, old(pt.data), packets[i].core.fields), pt.id))))]
    {
      hide Overlay, EnrichExport;
      var pkt := packets[i];
      var overlaid := OverlayCorrelatedWire(c.env, pt.data, pkt.core.fields);
      pt.data := EnrichExport(c.env, overlaid);
      pkt.annotated := true;
      pkt.annotations := [c.env.comment(pt.data, pt.id)];
      pkt.packetID := Some(pt.id);
      pt.data := pt.data["PcapAnnotated" := Bool(true)];
    }

    method TryAnnotate(pt: PendingPlaintext, clock: Reading, final: bool) returns (ok: bool, ghost wire: Option<GenericMap>)
      requires Valid()
      modifies pt, PacketSet()
      ensures Valid()
      ensures var o := Try(c, old(PacketValues(packets)), old(pt.Value()), clock, final);
              && PacketValues(packets) == o.packets && pt.Value() == o.pt
              && ok == o.matched.Some?
              && (ok ==> o.matched.value == Export(pt.id, pt.original, pt.data, wire))
    {
      hide Scan, Score, Enrich, EndpointsOf, Overlay, EnrichExport, MinAnnotationScore, Try;
      wire := None;
      ghost var ps, was := PacketValues(packets), pt.Value();
      var bestIdx, bestScore, ambiguous := BestWireMatchWithAmbiguity(pt);
      if bestIdx < 0 || ambiguous || bestScore < MinAnnotationScore(EndpointsOf(c.env, pt.data), c.filters) {
        TryRefusal(c, ps, was, clock, final);
        return false, None;
      }
      var pkt := packets[bestIdx];
      if !final && !HasTuple(EndpointsOf(c.env, pt.original))
         && clock.first - pt.at.receivedAt < c.window && clock.second - pkt.core.at.receivedAt < c.window {
        TryDeferral(c, ps, was, clock, final);
        return false, None;
      }
      TryAcceptance(c, ps, was, clock, final);
      hide AnnotatedRecord, AnnotatedData;
      Annotate(pt, bestIdx);
      return true, Some(pkt.core.fields);
    }

    /** The finished record of a correlated plaintext event goes out. */
    ghost method Finalize(pt: PendingPlaintext, wire: Option<GenericMap>)
      modifies this`exported
      ensures exported == old(exported) + [Export(pt.id, pt.original, pt.data, wire)]
    {
      exported := exported + [Export(pt.id, pt.original, pt.data, wire)];
    }

    method FinalizeUnmatched(pt: PendingPlaintext)
      modifies this`exported
      ensures exported == old(exported) + [UnmatchedExport(c, pt.Value())]
    {
      var rec := pt.original;
      if Get(rec, "TupleSource") == Str("kernel") { rec := PrepareUnmatchedPlaintext(c.env, rec); }
      rec := rec["PcapAnnotated" := Bool(false)];
      hide PrepareUnmatched;
      exported := exported + [Export(pt.id, pt.original, rec, None)];
    }

    /** One waiting record: annotate and export it, or leave it as the attempt left it. */
    method Attempt(pt: PendingPlaintext, clock: Reading, final: bool) returns (ok: bool)
      requires Valid()
      modifies pt, PacketSet(), this`exported
      ensures Valid()
      ensures var o := Try(c, old(PacketValues(packets)), old(pt.Value()), clock, final);
              && PacketValues(packets) == o.packets && pt.Value() == o.pt && ok == o.matched.Some?
              && exported == old(exported) + if ok then [o.matched.value] else []
    {
      hide Try;
      ghost var wire;
      ok, wire := TryAnnotate(pt, clock, final);
      if ok { Finalize(pt, wire); }
    }

    method MatchPendingAgainstWire(clock: Clock, final: bool)
      requires Valid()
      modifies this, PacketSet(), PendingSet()
      ensures Valid() && packets == old(packets)
      ensures PacketSet() <= old(PacketSet()) && PendingSet() <= old(PendingSet())
      ensures Abs() == MatchAll(c, old(Abs()), clock, final)
    {
      hide MatchPass, Distinct;
      var remaining := TryAll(clock, final);
      pendingPlaintext := remaining;
    }

    /** Tries every waiting record; returns those that go on waiting. */
    method TryAll(clock: Clock, final: bool) returns (remaining: seq<PendingPlaintext>)
      requires Valid()
      modifies PacketSet(), PendingSet(), this`exported
      ensures Valid() && Distinct(remaining) && forall p :: p in remaining ==> p in pendingPlaintext
      ensures var r := MatchPass(c, old(PacketValues(packets)), old(PendingValues(pendingPlaintext)), clock, 0, final);
              && PacketValues(packets) == r.packets && PendingValues(remaining) == r.kept
              && exported == old(exported) + r.exports
    {
      hide Try, MatchPass, Progress, Distinct, Chosen;
      ghost var waiting := PendingValues(pendingPlaintext);
      ghost var total := MatchPass(c, PacketValues(packets), waiting, clock, 0, final);
      remaining := [];
      ghost var kept: seq<Pending> := [];
      ghost var exports: seq<Export> := [];
      NoneChosen(pendingPlaintext);
      PassBegins(c, PacketValues(packets), waiting, clock, final);
      for i := 0 to |pendingPlaintext|
        invariant Valid()
        invariant forall j :: i <= j < |pendingPlaintext| ==> pendingPlaintext[j].Value() == waiting[j]
        invariant Chosen(remaining, pendingPlaintext, i) && PendingValues(remaining) == kept
        invariant exported == old(exported) + exports
        invariant Progress(total, kept, exports, MatchPass(c, PacketValues(packets), waiting[i..], clock, i, final))
      {
        var pt := pendingPlaintext[i];
        ChosenNext(remaining, pendingPlaintext, i);
        LaterDiffer(pendingPlaintext, i);
        ghost var o := Try(c, PacketValues(packets), pt.Value(), clock(i), final);
        PassContinues(c, total, kept, exports, PacketValues(packets), waiting, clock, i, final, o);
        var ok := Attempt(pt, clock(i), final);
        assert PendingValues(remaining) == kept;
        if ok {
          exports := exports + [o.matched.value];
          continue;
        }
        remaining := remaining + [pt];
        kept := kept + [o.pt];
        assert PendingValues(remaining) == kept;
      }
      PassEnds(c, total, kept, exports, PacketValues(packets), waiting, clock, |pendingPlaintext|, final);
      ChosenAll(remaining, pendingPlaintext);
    }

    /** Writes the expired packets and keeps the others, in place and in order. */
    method WriteExpiredPackets(now: int)
      requires Valid()
      modifies this`packets, this`written
      ensures Valid() && PacketSet() <= old(PacketSet())
      ensures Abs() == ExpirePackets(c, old(Abs()), now)
    {
      hide SelectPackets, Distinct, Chosen;
      ghost var ps := PacketValues(packets);
      var remaining: seq<BufferedWirePacket> := [];
      assert ps[..0] == [];
      NoneChosen(packets);
      SelectNone(c, now, true);
      SelectNone(c, now, false);
      for i := 0 to |packets|
        invariant unchanged(this`packets)
        invariant Chosen(remaining, packets, i)
        invariant AllValid(remaining) && PacketValues(remaining) == SelectPackets(c, ps[..i], now, false)
        invariant written == old(written) + SelectPackets(c, ps[..i], now, true)
      {
        var pkt := packets[i];
        ChosenNext(remaining, packets, i);
        SelectOneMorePacket(c, ps, i, now);
        assert ps[i] == pkt.Value();
        if now - pkt.core.at.receivedAt >= c.window {
          written := written + [pkt.Value()];
          continue;
        }
        ghost var kept := PacketValues(remaining);
        remaining := remaining + [pkt];
        assert PacketValues(remaining) == kept + [pkt.Value()];
      }
      assert ps[..|packets|] == ps;
      ChosenAll(remaining, packets);
      packets := remaining;
      assert PacketValues(packets) == SelectPackets(c, ps, now, false);
    }

    method ExportExpiredRecords(now: int)
      requires Valid()
      modifies this`pendingPlaintext, this`exported
      ensures Valid() && PendingSet() <= old(PendingSet())
      ensures Abs() == ExpirePending(c, old(Abs()), now)
    {
      hide SelectPending, UnmatchedExports, UnmatchedExport, Distinct, Chosen;
      ghost var pts := PendingValues(pendingPlaintext);
      var remaining: seq<PendingPlaintext> := [];
      assert pts[..0] == [];
      NoneChosen(pendingPlaintext);
      SelectNone(c, now, true);
      SelectNone(c, now, false);
      for i := 0 to |pendingPlaintext|
        invariant unchanged(this`pendingPlaintext)
        invariant Chosen(remaining, pendingPlaintext, i)
        invariant PendingValues(remaining) == SelectPending(c, pts[..i], now, false)
        invariant exported == old(exported) + UnmatchedExports(c, SelectPending(c, pts[..i], now, true))
      {
        var pt := pendingPlaintext[i];
        ChosenNext(remaining, pendingPlaintext, i);
        SelectOneMoreRecord(c, pts, i, now);
        assert pts[i] == pt.Value();
        if now - pt.at.receivedAt >= c.window {
          FinalizeUnmatched(pt);
          continue;
        }
        ghost var kept := PendingValues(remaining);
        remaining := remaining + [pt];
        assert PendingValues(remaining) == kept + [pt.Value()];
      }
      assert pts[..|pendingPlaintext|] == pts;
      ChosenAll(remaining, pendingPlaintext);
      pendingPlaintext := remaining;
      assert PendingValues(pendingPlaintext) == SelectPending(c, pts, now, false);
    }

    method FlushExpiredLocked(now: int, clock: Clock)
      requires Valid()
      modifies this, PacketSet(), PendingSet()
      ensures Valid()
      ensures PacketSet() <= old(PacketSet()) && PendingSet() <= old(PendingSet())
      ensures Abs() == FlushExpired(c, old(Abs()), now, clock)
    {
      hide MatchPass, SelectPackets, SelectPending, UnmatchedExports;
      if |packets| > 0 {
        MatchPendingAgainstWire(clock, false);
        WriteExpiredPackets(now);
      }
      ExportExpiredRecords(now);
    }

    /** The ticker. */
    method Tick(now: int, clock: Clock)
      requires Valid()
      modifies this, PacketSet(), PendingSet()
      ensures Valid()
      ensures PacketSet() <= old(PacketSet()) && PendingSet() <= old(PendingSet())
      ensures Abs() == Step(c, old(Abs()), TickOp(now, clock))
      ensures forall p :: p in packets ==> now - p.core.at.receivedAt < c.window
      ensures forall pt :: pt in pendingPlaintext ==> now - pt.at.receivedAt < c.window
      ensures old(written) <= written && old(exported) <= exported
    {
      hide FlushExpired;
      ghost var s := Abs();
      FlushExpiredLocked(now, clock);
      RunProofs.ExpiryIsPunctual(c, s, now, clock);
      PassProofs.FlushExports(c, s, now, clock);
      forall p | p in packets ensures now - p.core.at.receivedAt < c.window {
        var i :| 0 <= i < |packets| && packets[i] == p;
        assert Abs().packets[i] in Abs().packets && Abs().packets[i].core == p.core;
      }
      forall pt | pt in pendingPlaintext ensures now - pt.at.receivedAt < c.window {
        var i :| 0 <= i < |pendingPlaintext| && pendingPlaintext[i] == pt;
        assert Abs().pending[i] in Abs().pending && Abs().pending[i].at == pt.at;
      }
    }

    /** Appends a packet; the oldest one is written out when the buffer is over its cap. */
    method AppendPacket(pkt: BufferedWirePacket)
      requires Valid() && pkt.Valid() && pkt.Value() == Packet(pkt.core, None) && pkt !in packets
      modifies this`packets, this`written
      ensures Valid() && PacketSet() <= old(PacketSet()) + {pkt}
      ensures Abs() == Append(c, old(Abs()), pkt.core)
    {
      packets := packets + [pkt];
      if |packets| > MAX_BUFFERED {
        written := written + [packets[0].Value()];
        packets := packets[1..];
      }
    }

    /** Buffers a packet; false when its data does not decode. */
    method Enqueue(now: int, fields: GenericMap, dataB64: string, first: Clock, second: Clock) returns (ok: bool)
      requires Valid()
      modifies this, PacketSet(), PendingSet()
      ensures Valid()
      ensures ok == c.env.decode(dataB64).Some?
      ensures Abs() == Step(c, old(Abs()), EnqueueOp(now, fields, dataB64, first, second))
    {
      hide MatchAll, FlushExpired, Append;
      var data := c.env.decode(dataB64);
      if data.None? { return false; }
      var pkt := new BufferedWirePacket(EnqueueCore(now, fields, data.value));
      FlushExpiredLocked(now, first);
      assert pkt !in old(packets) && pkt !in PacketSet();
      AppendPacket(pkt);
      MatchPendingAgainstWire(second, false);
      return true;
    }

    /** A first attempt for a new record, which otherwise waits. */
    method OfferRecord(pt: PendingPlaintext, reading: Reading)
      requires Valid() && pt !in pendingPlaintext
      modifies this, PacketSet(), pt
      ensures Valid()
      ensures Abs() == Offer(c, old(Abs()), old(pt.Value()), reading)
    {
      hide Try;
      ghost var s, waiting := Abs(), PendingValues(pendingPlaintext);
      ghost var o := Try(c, s.packets, pt.Value(), reading, false);
      RefusalKeepsPackets(c, s.packets, pt.Value(), reading, false);
      var ok := Attempt(pt, reading, false);
      assert PendingValues(pendingPlaintext) == waiting;
      assert Abs() == State(o.packets, waiting, s.written, s.exported + if ok then [o.matched.value] else []);
      if !ok {
        pendingPlaintext := pendingPlaintext + [pt];
        assert PendingValues(pendingPlaintext) == waiting + [pt.Value()];
      }
    }

    method HandlePlaintext(now: int, m: GenericMap, id: nat, first: Clock, reading: Reading)
      requires Valid()
      modifies this, PacketSet(), PendingSet()
      ensures Valid()
      ensures Abs() == Step(c, old(Abs()), HandleOp(now, m, id, first, reading))
    {
      hide FlushExpired, Offer;
      FlushExpiredLocked(now, first);
      ghost var s := Abs();
      var pt := new PendingPlaintext(Arrival(now, Timestamp(m)), m, id);
      assert Abs() == s && pt.Value() == NewPending(now, m, id);
      OfferRecord(pt, reading);
    }

    /** Close: a last pass that no longer waits, then everything goes out. */
    method FlushAllBuffered(clock: Clock)
      requires Valid()
      modifies this, PacketSet(), PendingSet()
      ensures Valid() && packets == [] && pendingPlaintext == []
      ensures Abs() == Step(c, old(Abs()), FlushOp(clock))
    {
      hide MatchAll, Unmatched, UnmatchedExports;
      MatchPendingAgainstWire(clock, true);
      WriteAllPackets();
      ExportAllRecords();
    }

    method WriteAllPackets()
      requires Valid()
      modifies this`packets, this`written
      ensures Valid() && packets == []
      ensures written == old(written) + old(PacketValues(packets))
    {
      ghost var ps := PacketValues(packets);
      for i := 0 to |packets|
        invariant Valid() && PacketValues(packets) == ps
        invariant written == old(written) + ps[..i]
      {
        written := written + [packets[i].Value()];
      }
      assert ps[..|packets|] == ps;
      packets := [];
    }

    method ExportAllRecords()
      requires Valid()
      modifies this`pendingPlaintext, this`exported
      ensures Valid() && pendingPlaintext == []
      ensures exported == old(exported) + UnmatchedExports(c, old(PendingValues(pendingPlaintext)))
    {
      hide Unmatched;
      ghost var pts := PendingValues(pendingPlaintext);
      assert pts[..0] == [];
      for i := 0 to |pendingPlaintext|
        invariant Valid() && PendingValues(pendingPlaintext) == pts
        invariant exported == old(exported) + UnmatchedExports(c, pts[..i])
      {
        assert pts[..i + 1][..i] == pts[..i];
        FinalizeUnmatched(pendingPlaintext[i]);
      }
      assert pts[..|pendingPlaintext|] == pts;
      pendingPlaintext := [];
    }
  }

  // One more element of a scan or of a selection.

  lemma ScanNone(c: Config, ps: seq<Packet>, at: Arrival, data: GenericMap)
    ensures Scan(c, ps[..0], at, data) == ScanResult(-1, -1, -1, None, false)
  {
  }

  lemma ScanOneMore(c: Config, ps: seq<Packet>, i: nat, at: Arrival, data: GenericMap)
    requires i < |ps|
    ensures Scan(c, ps[..i + 1], at, data) ==
            ScanStep(Scan(c, ps[..i], at, data), i, ps[i].mark.Some?,
                     Score(c.env, c.filters, ps[i].core, at, data), ScoredTuple(c, ps[i].core, at, data))
  {
    assert ps[..i + 1][..i] == ps[..i];
    hide Score, ScanStep, ScoredTuple;
  }

  lemma ScoredTupleMeaning(c: Config, core: WireCore, at: Arrival, data: GenericMap)
    ensures ScoredTuple(c, core, at, data) ==
            if Score(c.env, c.filters, core, at, data) >= 0 then TupleOf(EndpointsOf(c.env, core.fields)) else None
  {
    hide Score, EndpointsOf;
  }

  lemma SelectOneMorePacket(c: Config, ps: seq<Packet>, i: nat, now: int)
    requires i < |ps|
    ensures var out := now - ps[i].core.at.receivedAt >= c.window;
            && SelectPackets(c, ps[..i + 1], now, true) == SelectPackets(c, ps[..i], now, true) + (if out then [ps[i]] else [])
            && SelectPackets(c, ps[..i + 1], now, false) == SelectPackets(c, ps[..i], now, false) + (if out then [] else [ps[i]])
  {
    assert ps[..i + 1][..i] == ps[..i];
  }

  lemma SelectOneMoreRecord(c: Config, pts: seq<Pending>, i: nat, now: int)
    requires i < |pts|
    ensures var out := now - pts[i].at.receivedAt >= c.window;
            && UnmatchedExports(c, SelectPending(c, pts[..i + 1], now, true)) ==
               UnmatchedExports(c, SelectPending(c, pts[..i], now, true)) + (if out then [UnmatchedExport(c, pts[i])] else [])
            && SelectPending(c, pts[..i + 1], now, false) == SelectPending(c, pts[..i], now, false) + (if out then [] else [pts[i]])
  {
    assert pts[..i + 1][..i] == pts[..i];
    var expired := SelectPending(c, pts[..i], now, true);
    assert (expired + [pts[i]])[..|expired|] == expired;
    hide UnmatchedExport;
  }

  lemma SelectNone(c: Config, now: int, expired: bool)
    ensures SelectPackets(c, [], now, expired) == [] && SelectPending(c, [], now, expired) == []
    ensures UnmatchedExports(c, SelectPending(c, [], now, expired)) == []
  {
  }

  // One element of a pass.

  /** A pass that has `kept` and `exports` behind it and `rest` ahead of it. */
  ghost predicate Progress(total: PassResult, kept: seq<Pending>, exports: seq<Export>, rest: PassResult) {
    total == PassResult(rest.packets, kept + rest.kept, exports + rest.exports)
  }

  lemma PassBegins(c: Config, packets: seq<Packet>, pending: seq<Pending>, clock: Clock, final: bool)
    ensures Progress(MatchPass(c, packets, pending, clock, 0, final), [], [],
                     MatchPass(c, packets, pending[0..], clock, 0, final))
  {
    assert pending[0..] == pending;
    hide MatchPass;
  }

  lemma PassContinues(c: Config, total: PassResult, kept: seq<Pending>, exports: seq<Export>, packets: seq<Packet>,
                      pending: seq<Pending>, clock: Clock, i: nat, final: bool, o: Outcome)
    requires i < |pending| && o == Try(c, packets, pending[i], clock(i), final)
    requires Progress(total, kept, exports, MatchPass(c, packets, pending[i..], clock, i, final))
    ensures Progress(total,
                     if o.matched.Some? then kept else kept + [o.pt],
                     if o.matched.Some? then exports + [o.matched.value] else exports,
                     MatchPass(c, o.packets, pending[i + 1..], clock, i + 1, final))
  {
    hide Try;
    assert pending[i..][0] == pending[i] && pending[i..][1..] == pending[i + 1..];
    var rest := MatchPass(c, o.packets, pending[i + 1..], clock, i + 1, final);
    assert MatchPass(c, packets, pending[i..], clock, i, final) ==
           if o.matched.Some? then rest.(exports := [o.matched.value] + rest.exports)
           else rest.(kept := [o.pt] + rest.kept);
    hide MatchPass;
  }

  lemma PassEnds(c: Config, total: PassResult, kept: seq<Pending>, exports: seq<Export>, packets: seq<Packet>,
                 pending: seq<Pending>, clock: Clock, i: nat, final: bool)
    requires i == |pending|
    requires Progress(total, kept, exports, MatchPass(c, packets, pending[i..], clock, i, final))
    ensures total == PassResult(packets, kept, exports)
  {
  }
}
