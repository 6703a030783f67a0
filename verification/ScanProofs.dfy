/** What one scan and one matching attempt decide. */
module ScanProofs {
  import opened Records
  import opened Scoring
  import opened Exports
  import opened BufferSpec

  function Cores(ps: seq<Packet>): (r: seq<WireCore>)
    ensures |r| == |ps| && forall i :: 0 <= i < |ps| ==> r[i] == ps[i].core
  {
    seq(|ps|, i requires 0 <= i < |ps| => ps[i].core)
  }

  /** Two of the packets are accepted for the record and belong to different connections. */
  ghost predicate Competing(c: Config, cores: seq<WireCore>, at: Arrival, data: GenericMap) {
    exists a, b :: a in cores && b in cores && Rivals(c, a, b, at, data)
  }

  predicate Rivals(c: Config, a: WireCore, b: WireCore, at: Arrival, data: GenericMap) {
    var s, t := ScoredTuple(c, a, at, data), ScoredTuple(c, b, at, data);
    s.Some? && t.Some? && !SameConnection(s.value, t.value)
  }

  lemma CompetingMonotone(c: Config, few: seq<WireCore>, many: seq<WireCore>, at: Arrival, data: GenericMap)
    requires forall x :: x in few ==> x in many
    requires Competing(c, few, at, data)
    ensures Competing(c, many, at, data)
  {
  }

  // ---- Connections ----

  function Tuples(c: Config, cores: seq<WireCore>, at: Arrival, data: GenericMap): (r: seq<Option<FlowTuple>>)
    ensures |r| == |cores| && forall i :: 0 <= i < |cores| ==> r[i] == ScoredTuple(c, cores[i], at, data)
  {
    seq(|cores|, i requires 0 <= i < |cores| => ScoredTuple(c, cores[i], at, data))
  }

  predicate Differ(s: Option<FlowTuple>, t: Option<FlowTuple>) {
    s.Some? && t.Some? && !SameConnection(s.value, t.value)
  }

  ghost predicate SeesConnections(ts: seq<Option<FlowTuple>>, multiple: bool, last: Option<FlowTuple>) {
    && (multiple <==> exists i, j :: 0 <= i < |ts| && 0 <= j < |ts| && Differ(ts[i], ts[j]))
    && (last.Some? ==> last in ts)
    && (forall i :: 0 <= i < |ts| && ts[i].Some? ==> last.Some? && (!multiple ==> !Differ(ts[i], last)))
  }

  /** Comparing with the last accepted tuple alone is enough. */
  lemma AdjacentComparisonSuffices(ts: seq<Option<FlowTuple>>, multiple: bool, last: Option<FlowTuple>, t: Option<FlowTuple>)
    requires SeesConnections(ts, multiple, last)
    ensures SeesConnections(ts + [t], multiple || Differ(last, t), if t.Some? then t else last)
  {
    var all, now := ts + [t], multiple || Differ(last, t);
    assert all[|ts|] == t && forall i :: 0 <= i < |ts| ==> all[i] == ts[i];
    if multiple {
      var i, j :| 0 <= i < |ts| && 0 <= j < |ts| && Differ(ts[i], ts[j]);
      assert Differ(all[i], all[j]);
    } else if now {
      var i :| 0 <= i < |ts| && ts[i] == last;
      assert Differ(all[i], all[|ts|]);
    } else {
      forall i, j | 0 <= i < |all| && 0 <= j < |all| ensures !Differ(all[i], all[j]) {
        if all[i].Some? && all[j].Some? && last.Some? {
          SameConnectionIsEquivalence(all[i].value, last.value, all[j].value);
          SameConnectionIsEquivalence(last.value, all[j].value, last.value);
          SameConnectionIsEquivalence(all[j].value, last.value, all[j].value);
          SameConnectionIsEquivalence(all[i].value, last.value, all[i].value);
        }
      }
    }
  }

  lemma {:induction false} ScanSeesConnections(c: Config, packets: seq<Packet>, at: Arrival, data: GenericMap)
    ensures var r := Scan(c, packets, at, data);
            SeesConnections(Tuples(c, Cores(packets), at, data), r.multiple, r.last)
  {
    hide ScoredTuple, ScoreOf, SameConnection, EndpointsOf, TupleOf;
    if packets != [] {
      var n := |packets| - 1;
      ScanSeesConnections(c, packets[..n], at, data);
      var before := Scan(c, packets[..n], at, data);
      var ts := Tuples(c, Cores(packets[..n]), at, data);
      var t := ScoredTuple(c, packets[n].core, at, data);
      AdjacentComparisonSuffices(ts, before.multiple, before.last, t);
      var after := ScanStep(before, n, packets[n].mark.Some?, ScoreOf(c, packets[n].core, at, data), t);
      assert after.multiple == (before.multiple || Differ(before.last, t));
      assert after.last == if t.Some? then t else before.last;
      assert Tuples(c, Cores(packets), at, data) == ts + [t];
      hide SeesConnections, ScanStep, Differ;
    }
  }

  /** The scan keeps only the last accepted connection, and yet notices a second one exactly when
      some pair of accepted packets, consumed ones included, belongs to different connections. */
  lemma ScanSeesEveryConnection(c: Config, packets: seq<Packet>, at: Arrival, data: GenericMap)
    ensures Scan(c, packets, at, data).multiple <==> Competing(c, Cores(packets), at, data)
  {
    ScanSeesConnections(c, packets, at, data);
    var cores := Cores(packets);
    var ts := Tuples(c, cores, at, data);
    hide ScoredTuple, ScoreOf, Scan, SameConnection;
    if i, j :| 0 <= i < |ts| && 0 <= j < |ts| && Differ(ts[i], ts[j]) {
      assert Rivals(c, cores[i], cores[j], at, data);
    }
    if a, b :| a in cores && b in cores && Rivals(c, a, b, at, data) {
      var i :| 0 <= i < |cores| && cores[i] == a;
      var j :| 0 <= j < |cores| && cores[j] == b;
      assert Differ(ts[i], ts[j]);
    }
  }

  // ---- The best packet ----

  /** The score of each packet for the record; -1 also for a packet that already carries one. */
  function FreeScores(c: Config, packets: seq<Packet>, at: Arrival, data: GenericMap): (r: seq<int>)
    ensures |r| == |packets|
    ensures forall i :: 0 <= i < |packets| ==>
              r[i] == if packets[i].mark.Some? then -1 else ScoreOf(c, packets[i].core, at, data)
  {
    seq(|packets|, i requires 0 <= i < |packets| =>
      if packets[i].mark.Some? then -1 else ScoreOf(c, packets[i].core, at, data))
  }

  ghost predicate IsTopTwo(v: seq<int>, idx: int, best: int, second: int) {
    && -1 <= second <= best && -1 <= idx < |v|
    && (idx == -1 ==> best == -1)
    && (forall i :: 0 <= i < |v| ==> v[i] <= best && (i != idx ==> v[i] <= second))
    && (idx >= 0 ==> v[idx] == best >= 0 && forall i :: 0 <= i < idx ==> v[i] < best)
    && (second >= 0 ==> exists i :: 0 <= i < |v| && i != idx && v[i] == second)
  }

  lemma ScanStepKeepsTopTwo(v: seq<int>, r: ScanResult, consumed: bool, score: int, tuple: Option<FlowTuple>)
    requires IsTopTwo(v, r.bestIdx, r.best, r.second) && score >= -1
    ensures var r' := ScanStep(r, |v|, consumed, score, tuple);
            IsTopTwo(v + [if consumed then -1 else score], r'.bestIdx, r'.best, r'.second)
  {
    var w := v + [if consumed then -1 else score];
    assert forall i :: 0 <= i < |v| ==> w[i] == v[i];
    if r.second >= 0 {
      var i :| 0 <= i < |v| && i != r.bestIdx && v[i] == r.second;
      assert w[i] == r.second;
    }
    if r.bestIdx >= 0 { assert w[r.bestIdx] == r.best; }
    assert w[|v|] == if consumed then -1 else score;
  }

  lemma ScoreAtLeast(c: Config, core: WireCore, at: Arrival, data: GenericMap)
    ensures ScoreOf(c, core, at, data) >= -1
  {
    ScoreMeaning(c.env, c.filters, core, at, data);
    hide Score;
  }

  /** The one-pass scan finds the earliest best free packet and the best score of the others. */
  lemma {:induction false} ScanFindsTopTwo(c: Config, packets: seq<Packet>, at: Arrival, data: GenericMap)
    ensures var r := Scan(c, packets, at, data);
            IsTopTwo(FreeScores(c, packets, at, data), r.bestIdx, r.best, r.second)
  {
    hide Score, ScoreOf, ScoredTuple, FreeScores, ScanStep;
    if packets != [] {
      var n := |packets| - 1;
      var core := packets[n].core;
      ScoreAtLeast(c, core, at, data);
      ScanFindsTopTwo(c, packets[..n], at, data);
      var v, before := FreeScores(c, packets[..n], at, data), Scan(c, packets[..n], at, data);
      var score, tuple := ScoreOf(c, core, at, data), ScoredTuple(c, core, at, data);
      ScanStepKeepsTopTwo(v, before, packets[n].mark.Some?, score, tuple);
      hide IsTopTwo;
      assert Scan(c, packets, at, data) == ScanStep(before, n, packets[n].mark.Some?, score, tuple);
      assert FreeScores(c, packets, at, data) == v + [if packets[n].mark.Some? then -1 else score];
    }
  }

  /** Packet `i` stands out: accepted, and every other free packet is refused or trails by more
      than the margin. */
  ghost predicate Winner(c: Config, packets: seq<Packet>, at: Arrival, data: GenericMap, i: int) {
    var v := FreeScores(c, packets, at, data);
    && 0 <= i < |packets|
    && v[i] >= 0
    && forall j :: 0 <= j < |packets| && j != i ==> v[j] < 0 || v[j] < v[i] - 5
  }

  /** A partial record waits until its own window, or that of its packet, is over. */
  predicate MayInfer(c: Config, pt: Pending, core: WireCore, clock: Reading, final: bool) {
    final || Complete(c, pt.original)
    || clock.first - pt.at.receivedAt >= c.window || clock.second - core.at.receivedAt >= c.window
  }

  /** The record is matched with packet `i`, and only that packet changes. */
  ghost predicate MatchedWith(c: Config, packets: seq<Packet>, pt: Pending, o: Outcome, i: int) {
    && 0 <= i < |packets| && packets[i].mark.None?
    && |o.packets| == |packets| && o.packets == packets[i := o.packets[i]]
    && o.packets[i].core == packets[i].core
    && o.packets[i].mark == Some(Mark(pt.id, c.env.comment(
         AnnotatedData(c.env, Enrich(c.env, c.filters, pt.data), packets[i].core.fields), pt.id)))
    && o.matched == Some(Export(pt.id, pt.original,
         AnnotatedRecord(c.env, Enrich(c.env, c.filters, pt.data), packets[i].core.fields), Some(packets[i].core.fields)))
  }

  ghost predicate Latched(c: Config, packets: seq<Packet>, pt: Pending) {
    pt.ambiguous
    || (!Complete(c, pt.original) && Competing(c, Cores(packets), pt.at, Enrich(c.env, c.filters, pt.data)))
  }

  // ---- The three ways out of an attempt ----

  predicate Refuses(c: Config, scan: ScanResult, ambiguous: bool, data: GenericMap) {
    scan.bestIdx < 0 || CloseCall(scan) || ambiguous
    || scan.best < MinAnnotationScore(EndpointsOf(c.env, data), c.filters)
  }

  predicate Defers(c: Config, pt: Pending, core: WireCore, clock: Reading, final: bool) {
    !final && !Complete(c, pt.original) && clock.first - pt.at.receivedAt < c.window
    && clock.second - core.at.receivedAt < c.window
  }

  function Attempted(c: Config, packets: seq<Packet>, pt: Pending): Pending {
    var data := Enrich(c.env, c.filters, pt.data);
    pt.(data := data,
        ambiguous := pt.ambiguous || (!Complete(c, pt.original) && Scan(c, packets, pt.at, data).multiple))
  }

  lemma TryRefusal(c: Config, packets: seq<Packet>, pt: Pending, clock: Reading, final: bool)
    requires var pt1 := Attempted(c, packets, pt);
             Refuses(c, Scan(c, packets, pt.at, pt1.data), pt1.ambiguous, pt1.data)
    ensures Try(c, packets, pt, clock, final) == Outcome(packets, Attempted(c, packets, pt), None)
  {
    hide Scan, Enrich, EndpointsOf, MinAnnotationScore, AnnotatedRecord, AnnotatedData;
  }

  lemma TryDeferral(c: Config, packets: seq<Packet>, pt: Pending, clock: Reading, final: bool)
    requires var pt1 := Attempted(c, packets, pt);
             var scan := Scan(c, packets, pt.at, pt1.data);
             !Refuses(c, scan, pt1.ambiguous, pt1.data) && Defers(c, pt, packets[scan.bestIdx].core, clock, final)
    ensures Try(c, packets, pt, clock, final) == Outcome(packets, Attempted(c, packets, pt), None)
  {
    hide Scan, Enrich, EndpointsOf, MinAnnotationScore, AnnotatedRecord, AnnotatedData;
  }

  lemma TryAcceptance(c: Config, packets: seq<Packet>, pt: Pending, clock: Reading, final: bool)
    ensures var pt1 := Attempted(c, packets, pt);
            var scan := Scan(c, packets, pt.at, pt1.data);
            var i := scan.bestIdx;
            !Refuses(c, scan, pt1.ambiguous, pt1.data) && !Defers(c, pt, packets[i].core, clock, final) ==>
            var wire := packets[i].core.fields;
            var d, rec := AnnotatedData(c.env, pt1.data, wire), AnnotatedRecord(c.env, pt1.data, wire);
            Try(c, packets, pt, clock, final) ==
            Outcome(packets[i := Packet(packets[i].core, Some(Mark(pt.id, c.env.comment(d, pt.id))))],
                    pt1.(data := rec), Some(Export(pt.id, pt.original, rec, Some(wire))))
  {
    hide Scan, Enrich, EndpointsOf, MinAnnotationScore, AnnotatedRecord, AnnotatedData;
  }

  lemma RefusalKeepsPackets(c: Config, packets: seq<Packet>, pt: Pending, clock: Reading, final: bool)
    ensures var o := Try(c, packets, pt, clock, final); o.matched.None? ==> o.packets == packets
  {
    hide Scan, Enrich, EndpointsOf, MinAnnotationScore, AnnotatedRecord, AnnotatedData;
  }

  /** When a record is matched, and to which packet, for every record and every buffer. */
  lemma TryMatchesExactlyTheWinner(c: Config, packets: seq<Packet>, pt: Pending, clock: Reading, final: bool) returns (i: int)
    ensures var o, data := Try(c, packets, pt, clock, final), Enrich(c.env, c.filters, pt.data);
            && (o.matched.Some? <==> !Latched(c, packets, pt) && exists j ::
                  Winner(c, packets, pt.at, data, j) && MayInfer(c, pt, packets[j].core, clock, final))
            && (o.matched.Some? ==> Winner(c, packets, pt.at, data, i) && MatchedWith(c, packets, pt, o, i))
            && (o.matched.None? ==> o.packets == packets && o.pt == pt.(data := data, ambiguous := Latched(c, packets, pt)))
  {
    hide Scan, Score, ScoredTuple, Enrich, AnnotatedRecord, AnnotatedData, MinAnnotationScore, EndpointsOf, Competing,
      Winner, Try;
    var data := Enrich(c.env, c.filters, pt.data);
    var scan := Scan(c, packets, pt.at, data);
    i := scan.bestIdx;
    ScanSeesEveryConnection(c, packets, pt.at, data);
    ScanPicksTheWinner(c, packets, pt.at, data);
    if scan.bestIdx >= 0 && !CloseCall(scan) {
      ThresholdAlwaysMet(c.env, c.filters, packets[scan.bestIdx].core, pt.at, data);
    }
    var pt1 := Attempted(c, packets, pt);
    assert pt1.ambiguous == Latched(c, packets, pt) && pt1.data == data;
    hide CloseCall, Latched;
    if Refuses(c, scan, pt1.ambiguous, data) {
      TryRefusal(c, packets, pt, clock, final);
    } else {
      assert !Latched(c, packets, pt);
      assert Winner(c, packets, pt.at, data, i);
      if Defers(c, pt, packets[i].core, clock, final) {
        TryDeferral(c, packets, pt, clock, final);
      } else {
        TryAcceptance(c, packets, pt, clock, final);
        assert MayInfer(c, pt, packets[i].core, clock, final);
      }
    }
  }

  /** The scan's verdict: there is a winner exactly if the best is no close call, and it is the best. */
  lemma ScanPicksTheWinner(c: Config, packets: seq<Packet>, at: Arrival, data: GenericMap)
    ensures var scan := Scan(c, packets, at, data);
            && (scan.bestIdx >= 0 && !CloseCall(scan) ==>
                  && Winner(c, packets, at, data, scan.bestIdx) && packets[scan.bestIdx].mark.None?
                  && ScoreOf(c, packets[scan.bestIdx].core, at, data) == scan.best >= 0)
            && (forall j :: Winner(c, packets, at, data, j) ==> j == scan.bestIdx >= 0 && !CloseCall(scan))
  {
    ScanFindsTopTwo(c, packets, at, data);
    hide Scan, ScoreOf;
  }

  /** A complete record is matched as soon as, and only when, one free packet stands out. */
  lemma CompleteMatchesIffWinner(c: Config, packets: seq<Packet>, pt: Pending, clock: Reading, final: bool)
    requires Complete(c, pt.original) && !pt.ambiguous && pt.data == pt.original
    ensures Try(c, packets, pt, clock, final).matched.Some?
            <==> exists i :: Winner(c, packets, pt.at, pt.original, i)
  {
    var i := TryMatchesExactlyTheWinner(c, packets, pt, clock, final);
    assert Enrich(c.env, c.filters, pt.data) == pt.data;
    hide Try, Winner, Enrich;
  }
}
