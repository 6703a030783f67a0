/** What the passes of the operations do for each waiting record: all are tried, in order, on the
    packets as the earlier ones have left them. */
module PassProofs {
  import opened Records
  import opened Scoring
  import opened Exports
  import opened BufferSpec
  import opened ScanProofs
  import opened BufferProofs
  import opened RunProofs

  // ---- One pass ----

  /** The record gets a packet of `ps`: it is not latched, one free packet stands out, and, for a
      partial record, waiting is over. */
  ghost predicate Stands(c: Config, ps: seq<Packet>, pt: Pending, reading: Reading, final: bool) {
    && !Latched(c, ps, pt)
    && exists j :: Winner(c, ps, pt.at, Enrich(c.env, c.filters, pt.data), j) && MayInfer(c, pt, ps[j].core, reading, final)
  }

  /** The record as an attempt in vain leaves it. */
  ghost function Tried(c: Config, ps: seq<Packet>, pt: Pending): Pending {
    pt.(data := Enrich(c.env, c.filters, pt.data), ambiguous := Latched(c, ps, pt))
  }

  ghost predicate Annotates(e: Export, pt: Pending) {
    e.id == pt.id && e.original == pt.original && e.wire.Some?
  }

  ghost predicate GreedyStep(c: Config, before: seq<Packet>, after: seq<Packet>, pt: Pending, reading: Reading, final: bool, r: PassResult) {
    && |after| == |before| && Extends(before, after)
    && if Stands(c, before, pt, reading, final) then exists e :: e in r.exports && Annotates(e, pt)
       else after == before && Tried(c, before, pt) in r.kept
  }

  /** `hs[i]` are the packets as record `i` finds them. */
  ghost predicate Greedy(c: Config, hs: seq<seq<Packet>>, pending: seq<Pending>, clock: Clock, k: nat, final: bool, r: PassResult) {
    && |hs| == |pending| + 1 && hs[|pending|] == r.packets
    && forall i :: 0 <= i < |pending| ==> GreedyStep(c, hs[i], hs[i + 1], pending[i], clock(k + i), final, r)
  }

  lemma MarkedExtends(c: Config, packets: seq<Packet>, pt: Pending, o: Outcome, i: int)
    requires MatchedWith(c, packets, pt, o, i)
    ensures |o.packets| == |packets| && Extends(packets, o.packets)
  {
    hide Enrich, AnnotatedData, AnnotatedRecord;
  }

  lemma TryIsGreedy(c: Config, packets: seq<Packet>, pt: Pending, clock: Reading, final: bool)
    ensures var o := Try(c, packets, pt, clock, final);
            && |o.packets| == |packets| && Extends(packets, o.packets)
            && (o.matched.Some? <==> Stands(c, packets, pt, clock, final))
            && (o.matched.Some? ==> Annotates(o.matched.value, pt))
            && (o.matched.None? ==> o.packets == packets && o.pt == Tried(c, packets, pt))
  {
    hide Try, Latched, Winner, MayInfer, Enrich, AnnotatedData, AnnotatedRecord;
    var i := TryMatchesExactlyTheWinner(c, packets, pt, clock, final);
    var o := Try(c, packets, pt, clock, final);
    if o.matched.Some? { MarkedExtends(c, packets, pt, o, i); }
  }

  lemma GreedyStepGrows(c: Config, a: seq<Packet>, b: seq<Packet>, pt: Pending, reading: Reading, final: bool, r: PassResult, r': PassResult)
    requires GreedyStep(c, a, b, pt, reading, final, r)
    requires forall e :: e in r.exports ==> e in r'.exports
    requires forall p :: p in r.kept ==> p in r'.kept
    ensures GreedyStep(c, a, b, pt, reading, final, r')
  {
    hide Stands, Tried, Annotates, Extends;
  }

  lemma {:induction false} PassIsGreedy(c: Config, packets: seq<Packet>, pending: seq<Pending>, clock: Clock, k: nat, final: bool)
    returns (hs: seq<seq<Packet>>)
    ensures |hs| > 0 && hs[0] == packets && Greedy(c, hs, pending, clock, k, final, MatchPass(c, packets, pending, clock, k, final))
    decreases |pending|
  {
    hide Try, Stands, Tried, Annotates, Extends;
    if pending == [] {
      hs := [packets];
    } else {
      var pt, o := pending[0], Try(c, packets, pending[0], clock(k), final);
      var rest := MatchPass(c, o.packets, pending[1..], clock, k + 1, final);
      var r := MatchPass(c, packets, pending, clock, k, final);
      var tail := PassIsGreedy(c, o.packets, pending[1..], clock, k + 1, final);
      TryIsGreedy(c, packets, pt, clock(k), final);
      hs := [packets] + tail;
      FirstIsGreedy(c, packets, pending, clock, k, final);
      forall i | 0 <= i < |pending| ensures GreedyStep(c, hs[i], hs[i + 1], pending[i], clock(k + i), final, r) {
        if i > 0 {
          assert hs[i] == tail[i - 1] && hs[i + 1] == tail[i] && pending[i] == pending[1..][i - 1] && k + i == k + 1 + (i - 1);
          hide GreedyStep;
          RestIsPart(c, packets, pending, clock, k, final);
          GreedyStepGrows(c, hs[i], hs[i + 1], pending[i], clock(k + i), final, rest, r);
        }
      }
    }
  }

  lemma RestIsPart(c: Config, packets: seq<Packet>, pending: seq<Pending>, clock: Clock, k: nat, final: bool)
    requires pending != []
    ensures var o := Try(c, packets, pending[0], clock(k), final);
            var rest := MatchPass(c, o.packets, pending[1..], clock, k + 1, final);
            var r := MatchPass(c, packets, pending, clock, k, final);
            && (forall e :: e in rest.exports ==> e in r.exports) && (forall p :: p in rest.kept ==> p in r.kept)
  {
    hide Try;
  }

  lemma FirstIsGreedy(c: Config, packets: seq<Packet>, pending: seq<Pending>, clock: Clock, k: nat, final: bool)
    requires pending != []
    ensures var o := Try(c, packets, pending[0], clock(k), final);
            GreedyStep(c, packets, o.packets, pending[0], clock(k), final, MatchPass(c, packets, pending, clock, k, final))
  {
    hide Try, Stands, Tried, Annotates, Extends;
    TryIsGreedy(c, packets, pending[0], clock(k), final);
    var o, r := Try(c, packets, pending[0], clock(k), final), MatchPass(c, packets, pending, clock, k, final);
    if o.matched.Some? { assert r.exports[0] == o.matched.value; } else { assert r.kept[0] == o.pt; }
  }

  lemma {:induction false} GreedyExtends(c: Config, hs: seq<seq<Packet>>, pending: seq<Pending>, clock: Clock, k: nat, final: bool, r: PassResult, i: nat, j: nat)
    requires Greedy(c, hs, pending, clock, k, final, r) && i <= j < |hs|
    ensures |hs[i]| == |hs[j]| && Extends(hs[i], hs[j])
    decreases j
  {
    if i < j {
      hide Greedy, Extends;
      GreedyExtends(c, hs, pending, clock, k, final, r, i, j - 1);
      GreedyStepExtends(c, hs, pending, clock, k, final, r, j - 1);
      ExtendsTransitive(hs[i], hs[j - 1], hs[j]);
    } else {
      SelfExtends(hs[i]);
    }
  }

  lemma GreedyStepExtends(c: Config, hs: seq<seq<Packet>>, pending: seq<Pending>, clock: Clock, k: nat, final: bool, r: PassResult, i: nat)
    requires Greedy(c, hs, pending, clock, k, final, r) && i + 1 < |hs|
    ensures |hs[i]| == |hs[i + 1]| && Extends(hs[i], hs[i + 1])
  {
    hide Stands, Tried, Annotates, Extends;
    assert GreedyStep(c, hs[i], hs[i + 1], pending[i], clock(k + i), final, r);
  }

  // ---- One pass over the whole state ----

  /** The step from `s` to `t` exports the record with a packet. */
  ghost predicate ExportedWith(s: State, t: State, pt: Pending) {
    exists k :: |s.exported| <= k < |t.exported| && Annotates(t.exported[k], pt)
  }

  /** The record is tried in a pass on packets between `from` and `to`. */
  ghost predicate MatchedOn(c: Config, s: State, t: State, pt: Pending, ps: seq<Packet>, reading: Reading, final: bool) {
    && |ps| == |s.packets| == |t.packets| && Extends(s.packets, ps) && Extends(ps, t.packets)
    && if Stands(c, ps, pt, reading, final) then ExportedWith(s, t, pt) else Tried(c, ps, pt) in t.pending
  }

  lemma MatchAllTries(c: Config, s: State, clock: Clock, final: bool, pt: Pending)
    requires pt in s.pending
    ensures exists ps, i :: MatchedOn(c, s, MatchAll(c, s, clock, final), pt, ps, clock(i), final)
  {
    hide MatchPass, Stands, Tried, Annotates, Extends;
    var t := MatchAll(c, s, clock, final);
    var r := MatchPass(c, s.packets, s.pending, clock, 0, final);
    var hs := PassIsGreedy(c, s.packets, s.pending, clock, 0, final);
    var i :| 0 <= i < |s.pending| && s.pending[i] == pt;
    GreedyExtends(c, hs, s.pending, clock, 0, final, r, 0, i);
    GreedyExtends(c, hs, s.pending, clock, 0, final, r, i, |s.pending|);
    assert GreedyStep(c, hs[i], hs[i + 1], pt, clock(0 + i), final, r);
    if Stands(c, hs[i], pt, clock(i), final) {
      var e :| e in r.exports && Annotates(e, pt);
      var x :| 0 <= x < |r.exports| && r.exports[x] == e;
      assert t.exported[|s.exported| + x] == e;
    }
    assert MatchedOn(c, s, t, pt, hs[i], clock(i), final);
  }

  // ---- The operations ----

  ghost predicate Attended(c: Config, s: State, t: State, pt: Pending, ps: seq<Packet>, reading: Reading, final: bool) {
    && |ps| == |s.packets| && Extends(s.packets, ps) && Extends(s.written + ps, Timeline(t))
    && (Stands(c, ps, pt, reading, final) ==> ExportedWith(s, t, pt))
  }

  lemma ExtendsBehind(w: seq<Packet>, a: seq<Packet>, b: seq<Packet>)
    requires Extends(a, b)
    ensures Extends(w + a, w + b)
  {
  }

  lemma ExportedWithGrows(s: State, t: State, u: State, pt: Pending)
    requires ExportedWith(s, t, pt) && t.exported <= u.exported
    ensures ExportedWith(s, u, pt)
  {
    hide Annotates;
    var k :| |s.exported| <= k < |t.exported| && Annotates(t.exported[k], pt);
    assert u.exported[k] == t.exported[k];
  }

  lemma AttendedLater(c: Config, s: State, t: State, u: State, pt: Pending, ps: seq<Packet>, reading: Reading, final: bool)
    requires Attended(c, s, t, pt, ps, reading, final)
    requires Extends(Timeline(t), Timeline(u)) && t.exported <= u.exported
    ensures Attended(c, s, u, pt, ps, reading, final)
  {
    hide Stands, Timeline, ExportedWith;
    ExtendsTransitive(s.written + ps, Timeline(t), Timeline(u));
    if ExportedWith(s, t, pt) { ExportedWithGrows(s, t, u, pt); }
  }

  lemma PassAttends(c: Config, s: State, clock: Clock, final: bool, pt: Pending) returns (ps: seq<Packet>, i: nat)
    requires c.Ok() && Books(c, s) && pt in s.pending
    ensures Attended(c, s, MatchAll(c, s, clock, final), pt, ps, clock(i), final)
  {
    hide MatchAll, Stands, Extends, Books;
    MatchAllTries(c, s, clock, final, pt);
    var t := MatchAll(c, s, clock, final);
    ps, i :| MatchedOn(c, s, t, pt, ps, clock(i), final);
    MatchAllKeeps(c, s, clock, final);
    ExtendsBehind(s.written, ps, t.packets);
  }

  /** Expiry moves packets along the timeline and only adds exports. */
  lemma ExpiryAfterPass(c: Config, s: State, now: int)
    requires InOrder(Cores(s.packets))
    ensures var t := ExpirePending(c, ExpirePackets(c, s, now), now);
            Timeline(t) == Timeline(s) && s.exported <= t.exported
  {
    ExpiryTakesAPrefix(c, s.packets, now);
    hide SelectPackets, SelectPending, UnmatchedExports, InOrder;
  }

  lemma FlushAttends(c: Config, s: State, now: int, clock: Clock, pt: Pending) returns (ps: seq<Packet>, i: nat)
    requires c.Ok() && Inv(c, s) && InOrder(Cores(Timeline(s))) && s.packets != [] && pt in s.pending
    ensures Attended(c, s, FlushExpired(c, s, now, clock), pt, ps, clock(i), false)
  {
    hide MatchAll, Attended, InOrder, ExpirePackets, ExpirePending;
    ps, i := PassAttends(c, s, clock, false, pt);
    var u := MatchAll(c, s, clock, false);
    MatchAllKeeps(c, s, clock, false);
    InOrderSuffix(s);
    ExpiryAfterPass(c, u, now);
    SelfExtends(Timeline(u));
    AttendedLater(c, s, u, FlushExpired(c, s, now, clock), pt, ps, clock(i), false);
  }

  lemma SelfExtends(ps: seq<Packet>)
    ensures Extends(ps, ps)
  {
  }

  lemma OfferExports(c: Config, s: State, pt: Pending, reading: Reading)
    ensures s.exported <= Offer(c, s, pt, reading).exported
  {
    hide Try;
  }

  lemma AppendExports(c: Config, s: State, core: WireCore)
    ensures Append(c, s, core).exported == s.exported && Append(c, s, core).pending == s.pending
  {
  }

  predicate PassRuns(c: Config, s: State, op: Op) {
    op.FlushOp? || (s.packets != [] && (op.EnqueueOp? ==> c.env.decode(op.dataB64).Some?))
  }

  /** Every operation on a non-empty buffer, and Close on any, first tries every waiting record on
      the buffered packets: on the way from the packets before to the timeline after it there are
      packets on which the record would have got one only if the operation exported it with one. */
  lemma FirstPassTries(c: Config, s: State, op: Op, pt: Pending)
    requires c.Ok() && Inv(c, s) && InOrder(Cores(Timeline(s))) && PassRuns(c, s, op) && pt in s.pending
    ensures exists ps, i :: Attended(c, s, Step(c, s, op), pt, ps, op.first(i), op.FlushOp?)
  {
    hide FlushExpired, MatchAll, Inv, Attended, InOrder, Append, Offer;
    var t := Step(c, s, op);
    if op.FlushOp? {
      assert Books(c, s) by { InvHasBooks(c, s); }
      var ps, i := PassAttends(c, s, op.first, true, pt);
      FlushAllMoves(c, s, op.first);
      AttendedLater(c, s, MatchAll(c, s, op.first, true), t, pt, ps, op.first(i), true);
    } else {
      var ps, i := FlushAttends(c, s, op.at, op.first, pt);
      var v := FlushExpired(c, s, op.at, op.first);
      FlushExpiredKeeps(c, s, op.at, op.first);
      RestMoves(c, s, op);
      AttendedLater(c, s, v, t, pt, ps, op.first(i), false);
    }
  }

  lemma InvHasBooks(c: Config, s: State)
    requires Inv(c, s)
    ensures Books(c, s)
  {
  }

  lemma FlushAllMoves(c: Config, s: State, clock: Clock)
    ensures var u, t := MatchAll(c, s, clock, true), FlushAll(c, s, clock);
            Extends(Timeline(u), Timeline(t)) && u.exported <= t.exported
  {
    hide MatchAll, UnmatchedExports;
    assert Timeline(FlushAll(c, s, clock)) == Timeline(MatchAll(c, s, clock, true));
  }

  /** What an operation does after its expiry keeps the timeline and the exports. */
  lemma RestMoves(c: Config, s: State, op: Op)
    requires c.Ok() && !op.FlushOp? && PassRuns(c, s, op) && Inv(c, FlushExpired(c, s, op.at, op.first))
    ensures var v, t := FlushExpired(c, s, op.at, op.first), Step(c, s, op);
            Extends(Timeline(v), Timeline(t)) && v.exported <= t.exported
  {
    hide FlushExpired, Inv, Append, MatchAll, Offer;
    var v := FlushExpired(c, s, op.at, op.first);
    match op
    case EnqueueOp(now, fields, dataB64, first, second) =>
      var core := EnqueueCore(now, fields, c.env.decode(dataB64).value);
      AppendAndMatchAdvances(c, v, core, second);
      AppendKeeps(c, v, core);
      AppendExports(c, v, core);
      MatchAllKeeps(c, Append(c, v, core), second, false);
      hide Extends, Timeline;
    case HandleOp(now, m, id, first, reading) =>
      OfferKeeps(c, v, NewPending(now, m, id), reading);
      OfferExports(c, v, NewPending(now, m, id), reading);
      ExtendsBehind(v.written, v.packets, Offer(c, v, NewPending(now, m, id), reading).packets);
    case TickOp(_, _) => SelfExtends(Timeline(v));
  }

  /** The record is tried on all packets that are buffered after the operation. */
  ghost predicate AttendedAfter(c: Config, s: State, t: State, pt: Pending, ps: seq<Packet>, reading: Reading) {
    && |ps| == |t.packets| && Extends(Timeline(s), t.written + ps) && Extends(ps, t.packets)
    && (Stands(c, ps, pt, reading, false) ==> ExportedWith(s, t, pt))
  }

  /** A waiting record that is tried again is as it was. */
  lemma TriedIsSame(c: Config, packets: seq<Packet>, ps: seq<Packet>, pt: Pending)
    requires c.Ok() && PendingOk(c, Cores(packets), pt) && |ps| == |packets| && Extends(packets, ps)
    ensures Tried(c, ps, pt) == pt
  {
    EnrichIdempotent(c.env, c.filters, pt.original);
    assert Cores(ps) == Cores(packets);
    hide Cores, Enrich, Competing, Complete;
  }

  /** A record whose window is not over goes on waiting, unless it gets a packet. */
  lemma FlushKeepsWaiting(c: Config, s: State, now: int, clock: Clock, pt: Pending)
    requires c.Ok() && Inv(c, s) && pt in s.pending && now - pt.at.receivedAt < c.window
    ensures var v := FlushExpired(c, s, now, clock);
            (ExportedWith(s, v, pt) || pt in v.pending) && s.exported <= v.exported
  {
    hide MatchAll, Tried, Stands, Extends, PendingOk, Books, SelectPackets, SelectPending, UnmatchedExports, Annotates;
    var u := s;
    if s.packets != [] {
      assert Books(c, s) && PendingOk(c, Cores(s.packets), pt);
      hide Inv;
      MatchAllTries(c, s, clock, false, pt);
      var m := MatchAll(c, s, clock, false);
      var ps, i :| MatchedOn(c, s, m, pt, ps, clock(i), false);
      TriedIsSame(c, s.packets, ps, pt);
      MatchAllKeeps(c, s, clock, false);
      u := ExpirePackets(c, m, now);
      if ExportedWith(s, m, pt) { ExportedWithGrows(s, m, FlushExpired(c, s, now, clock), pt); }
    }
    if pt in u.pending { SelectPendingMembers(c, u.pending, now, false); }
  }

  predicate Accepts(c: Config, op: Op) { op.EnqueueOp? && c.env.decode(op.dataB64).Some? }

  /** A packet that is accepted is offered to every record that goes on waiting: it is tried on the
      buffered packets, the new one included. */
  lemma SecondPassTries(c: Config, s: State, op: Op, pt: Pending)
    requires c.Ok() && Inv(c, s) && InOrder(Cores(Timeline(s))) && Accepts(c, op)
    requires pt in s.pending && op.at - pt.at.receivedAt < c.window
    ensures exists ps, i :: AttendedAfter(c, s, Step(c, s, op), pt, ps, op.second(i))
  {
    hide FlushExpired, MatchAll, Inv, InOrder, Append, Extends, Stands, Timeline, Annotates, Tried, ExportedWith;
    var t := Step(c, s, op);
    var core := EnqueueCore(op.at, op.fields, c.env.decode(op.dataB64).value);
    var v := FlushExpired(c, s, op.at, op.first);
    var u := Append(c, v, core);
    FlushKeepsWaiting(c, s, op.at, op.first, pt);
    FlushExpiredKeeps(c, s, op.at, op.first);
    FlushExpiredAdvances(c, s, op.at, op.first);
    AppendAdvances(c, v, core);
    AppendExports(c, v, core);
    AppendKeeps(c, v, core);
    MatchAllKeeps(c, u, op.second, false);
    ExtendsTransitive(Timeline(s), Timeline(v), Timeline(u));
    if ExportedWith(s, v, pt) {
      ExportedWithGrows(s, v, t, pt);
      SelfExtends(t.packets);
      MatchedTimeline(s, u, t.packets, t);
      assert AttendedAfter(c, s, t, pt, t.packets, op.second(0));
    } else {
      MatchAllTries(c, u, op.second, false, pt);
      var ps, i :| MatchedOn(c, u, t, pt, ps, op.second(i), false);
      MatchedTimeline(s, u, ps, t);
      if ExportedWith(u, t, pt) { LaterExport(s, u, t, pt); }
      assert AttendedAfter(c, s, t, pt, ps, op.second(i));
    }
  }

  lemma MatchedTimeline(s: State, u: State, ps: seq<Packet>, t: State)
    requires Extends(Timeline(s), Timeline(u)) && Extends(u.packets, ps) && t.written == u.written
    ensures Extends(Timeline(s), t.written + ps)
  {
    ExtendsBehind(u.written, u.packets, ps);
    ExtendsTransitive(Timeline(s), Timeline(u), u.written + ps);
    hide Extends;
  }

  lemma LaterExport(s: State, u: State, t: State, pt: Pending)
    requires ExportedWith(u, t, pt) && s.exported <= u.exported
    ensures ExportedWith(s, t, pt)
  {
    hide Annotates;
  }

  /** A new record as it comes in. */
  function Arrived(op: Op): Pending
    requires op.HandleOp?
  {
    Pending(Arrival(op.at, Timestamp(op.m)), op.m, op.m, op.id, false)
  }

  /** The record is tried on `ps` at once, and is the last export or the last to wait. */
  ghost predicate Received(c: Config, s: State, t: State, pt: Pending, ps: seq<Packet>, reading: Reading) {
    && |ps| == |t.packets| && Extends(Timeline(s), t.written + ps) && Extends(ps, t.packets)
    && if Stands(c, ps, pt, reading, false)
       then |t.exported| > |s.exported| && Annotates(t.exported[|t.exported| - 1], pt)
       else |t.pending| > 0 && t.pending[|t.pending| - 1] == Tried(c, ps, pt)
  }

  /** A new record is tried on the buffered packets at once. */
  lemma NewRecordIsTried(c: Config, s: State, op: Op)
    requires c.Ok() && Inv(c, s) && InOrder(Cores(Timeline(s))) && op.HandleOp?
    ensures exists ps :: Received(c, s, Step(c, s, op), Arrived(op), ps, op.reading)
  {
    hide FlushExpired, Try, Inv, InOrder, Extends, Stands, Timeline, Annotates, Tried;
    var t, pt := Step(c, s, op), Arrived(op);
    var v := FlushExpired(c, s, op.at, op.first);
    FlushExpiredKeeps(c, s, op.at, op.first);
    FlushExpiredAdvances(c, s, op.at, op.first);
    FlushExports(c, s, op.at, op.first);
    TryIsGreedy(c, v.packets, pt, op.reading, false);
    SelfExtends(v.packets);
    MatchedTimeline(s, v, v.packets, v);
    assert Received(c, s, t, pt, v.packets, op.reading);
  }

  lemma FlushExports(c: Config, s: State, now: int, clock: Clock)
    ensures s.exported <= FlushExpired(c, s, now, clock).exported
  {
    hide MatchPass, SelectPackets, SelectPending, UnmatchedExports;
  }

  // ---- Complete records ----

  /** A complete record gets a packet if and only if one free packet stands out. */
  lemma CompleteStands(c: Config, ps: seq<Packet>, pt: Pending, reading: Reading, final: bool)
    requires Complete(c, pt.original) && pt.data == pt.original && !pt.ambiguous
    ensures Stands(c, ps, pt, reading, final) <==> exists j :: Winner(c, ps, pt.at, pt.original, j)
  {
    assert Enrich(c.env, c.filters, pt.data) == pt.data;
    hide Winner, Enrich, Competing, Complete;
  }

  ghost predicate NoWinner(c: Config, ps: seq<Packet>, pt: Pending) {
    forall j :: !Winner(c, ps, pt.at, pt.original, j)
  }

  lemma WaitingComplete(c: Config, s: State, pt: Pending)
    requires Inv(c, s) && pt in s.pending && Complete(c, pt.original)
    ensures pt.data == pt.original && !pt.ambiguous
  {
    assert PendingOk(c, Cores(s.packets), pt);
    hide Complete, Competing;
    assert Enrich(c.env, c.filters, pt.original) == pt.original by { CompleteIsNotEnriched(c, pt.original); }
  }

  lemma CompleteIsNotEnriched(c: Config, m: GenericMap)
    requires Complete(c, m)
    ensures Enrich(c.env, c.filters, m) == m
  {
  }

  /** A complete record that an operation does not export with a packet has had none to take: not
      among the packets before it and, if a packet is accepted, not among those after it. */
  lemma CompleteRecordsGetTheirPacket(c: Config, s: State, op: Op, pt: Pending)
    requires c.Ok() && Inv(c, s) && InOrder(Cores(Timeline(s))) && pt in s.pending && Complete(c, pt.original)
    ensures var t := Step(c, s, op);
            PassRuns(c, s, op) && !ExportedWith(s, t, pt) ==>
              exists ps :: |ps| == |s.packets| && Extends(s.packets, ps) && Extends(s.written + ps, Timeline(t)) && NoWinner(c, ps, pt)
    ensures var t := Step(c, s, op);
            Accepts(c, op) && op.at - pt.at.receivedAt < c.window && !ExportedWith(s, t, pt) ==>
              exists ps :: |ps| == |t.packets| && Extends(Timeline(s), t.written + ps) && Extends(ps, t.packets) && NoWinner(c, ps, pt)
  {
    WaitingComplete(c, s, pt);
    hide Step, Stands, Winner, Extends, Timeline, ExportedWith, Inv, InOrder, Complete, PassRuns;
    var t := Step(c, s, op);
    if PassRuns(c, s, op) {
      FirstPassTries(c, s, op, pt);
      var ps, i :| Attended(c, s, t, pt, ps, op.first(i), op.FlushOp?);
      CompleteStands(c, ps, pt, op.first(i), op.FlushOp?);
    }
    if Accepts(c, op) && op.at - pt.at.receivedAt < c.window {
      SecondPassTries(c, s, op, pt);
      var ps, i :| AttendedAfter(c, s, t, pt, ps, op.second(i));
      CompleteStands(c, ps, pt, op.second(i), false);
    }
  }

  // ---- Windows ----

  predicate Expires(c: Config, op: Op) { op.TickOp? || op.HandleOp? || Accepts(c, op) }

  /** The packets written by the step leave because their window is over, except for one that has to
      make room in a buffer that stays full. */
  ghost predicate WrittenInTime(c: Config, s: State, op: Op, t: State)
    requires !op.FlushOp?
  {
    && s.written <= t.written
    && forall i :: |s.written| <= i < |t.written| && op.at - t.written[i].core.at.receivedAt < c.window ==>
         op.EnqueueOp? && i == |t.written| - 1 && |t.packets| == 20000
  }

  /** After a tick, a record or an accepted packet, nothing in the buffer is as old as the window,
      and nothing was written before its time. */
  lemma NothingOverstays(c: Config, s: State, op: Op)
    requires c.Ok() && Inv(c, s) && Expires(c, op)
    ensures var t := Step(c, s, op);
            && (forall p <- t.packets :: op.at - p.core.at.receivedAt < c.window)
            && (forall pt <- t.pending :: op.at - pt.at.receivedAt < c.window)
            && WrittenInTime(c, s, op, t)
  {
    hide FlushExpired, MatchAll, Append, Offer, Inv;
    FlushExpiredKeeps(c, s, op.at, op.first);
    ExpiryIsPunctual(c, s, op.at, op.first);
    var v := FlushExpired(c, s, op.at, op.first);
    match op
    case TickOp(_, _) =>
    case HandleOp(now, m, id, _, reading) => OfferIsPunctual(c, v, now, NewPending(now, m, id), reading);
    case EnqueueOp(now, fields, dataB64, _, second) =>
      var core := EnqueueCore(now, fields, c.env.decode(dataB64).value);
      assert |v.packets| <= 20000 by { BufferWithinCap(c, v); }
      AppendIsPunctual(c, v, core);
      hide WrittenInTime;
      MatchIsPunctual(c, Append(c, v, core), now, second, false);
      WrittenInTurn(c, s, v, op, Step(c, s, op));
  }

  lemma WrittenInTurn(c: Config, s: State, v: State, op: Op, t: State)
    requires op.EnqueueOp? && s.written <= v.written
    requires forall i :: |s.written| <= i < |v.written| ==> op.at - v.written[i].core.at.receivedAt >= c.window
    requires t.written == v.written || (|t.packets| == 20000 && |t.written| == |v.written| + 1 && v.written <= t.written)
    ensures WrittenInTime(c, s, op, t)
  {
  }

  ghost predicate InWindow(c: Config, s: State, now: int) {
    && (forall p <- s.packets :: now - p.core.at.receivedAt < c.window)
    && (forall pt <- s.pending :: now - pt.at.receivedAt < c.window)
  }

  lemma AppendIsPunctual(c: Config, s: State, core: WireCore)
    requires c.window > 0 && InWindow(c, s, core.at.receivedAt) && |s.packets| <= 20000
    ensures var t := Append(c, s, core);
            && InWindow(c, t, core.at.receivedAt)
            && (t.written == s.written
                || (|t.packets| == 20000 && |t.written| == |s.written| + 1 && s.written <= t.written))
  {
  }

  lemma OfferIsPunctual(c: Config, s: State, now: int, pt: Pending, reading: Reading)
    requires c.window > 0 && InWindow(c, s, now) && pt.at.receivedAt == now
    ensures InWindow(c, Offer(c, s, pt, reading), now) && Offer(c, s, pt, reading).written == s.written
  {
    hide Stands, Annotates;
    TryIsGreedy(c, s.packets, pt, reading, false);
    var o := Try(c, s.packets, pt, reading, false);
    hide Try;
    SameTimes(c, s.packets, o.packets, now);
  }

  lemma SameTimes(c: Config, a: seq<Packet>, b: seq<Packet>, now: int)
    requires |a| == |b| && Extends(a, b) && forall p <- a :: now - p.core.at.receivedAt < c.window
    ensures forall p <- b :: now - p.core.at.receivedAt < c.window
  {
    forall p <- b ensures now - p.core.at.receivedAt < c.window {
      var i :| 0 <= i < |b| && b[i] == p;
      assert a[i] in a;
    }
  }

  lemma MatchIsPunctual(c: Config, s: State, now: int, clock: Clock, final: bool)
    requires InWindow(c, s, now)
    ensures InWindow(c, MatchAll(c, s, clock, final), now)
    ensures MatchAll(c, s, clock, final).written == s.written && |MatchAll(c, s, clock, final).packets| == |s.packets|
  {
    hide MatchPass, Stands, Tried, Annotates, Extends;
    var r := MatchPass(c, s.packets, s.pending, clock, 0, final);
    var hs := PassIsGreedy(c, s.packets, s.pending, clock, 0, final);
    GreedyExtends(c, hs, s.pending, clock, 0, final, r, 0, |s.pending|);
    SameTimes(c, s.packets, r.packets, now);
    KeptTimes(c, s.packets, s.pending, clock, 0, final);
  }

  /** Records that go on waiting are those of before, with their ids and times. */
  lemma {:induction false} KeptTimes(c: Config, packets: seq<Packet>, pending: seq<Pending>, clock: Clock, k: nat, final: bool)
    ensures forall p <- MatchPass(c, packets, pending, clock, k, final).kept ::
              exists q :: q in pending && p.at == q.at && p.id == q.id && p.original == q.original
    decreases |pending|
  {
    if pending != [] {
      hide Stands, Annotates, Try;
      var o := Try(c, packets, pending[0], clock(k), final);
      KeptTimes(c, o.packets, pending[1..], clock, k + 1, final);
      TryIsGreedy(c, packets, pending[0], clock(k), final);
      assert o.matched.None? ==> o.pt.at == pending[0].at && o.pt.id == pending[0].id && o.pt.original == pending[0].original;
      hide Tried, Extends;
    }
  }

  // ---- Records whose window is over ----

  /** The step exports the record, with a packet or without one. */
  ghost predicate Leaves(s: State, t: State, pt: Pending) {
    exists k :: |s.exported| <= k < |t.exported| && t.exported[k].id == pt.id && t.exported[k].original == pt.original
  }

  lemma LeavesLater(s: State, t: State, u: State, pt: Pending)
    requires Leaves(s, t, pt) && t.exported <= u.exported
    ensures Leaves(s, u, pt)
  {
    var k :| |s.exported| <= k < |t.exported| && t.exported[k].id == pt.id && t.exported[k].original == pt.original;
    assert u.exported[k] == t.exported[k];
  }

  lemma ExportedWithLeaves(s: State, t: State, pt: Pending)
    requires ExportedWith(s, t, pt)
    ensures Leaves(s, t, pt)
  {
  }

  lemma {:induction false} UnmatchedExportsAt(c: Config, pts: seq<Pending>)
    ensures var es := UnmatchedExports(c, pts);
            |es| == |pts| && forall i :: 0 <= i < |pts| ==> es[i] == UnmatchedExport(c, pts[i])
  {
    hide UnmatchedExport;
    if pts != [] { UnmatchedExportsAt(c, pts[..|pts| - 1]); }
  }

  lemma OverdueLeaves(c: Config, s: State, now: int, pt: Pending)
    requires pt in s.pending && now - pt.at.receivedAt >= c.window
    ensures Leaves(s, ExpirePending(c, s, now), pt)
  {
    hide UnmatchedExports, SelectPending, Unmatched;
    var out := SelectPending(c, s.pending, now, true);
    SelectPendingMembers(c, s.pending, now, true);
    UnmatchedExportsAt(c, out);
    var i :| 0 <= i < |out| && out[i] == pt;
    assert ExpirePending(c, s, now).exported[|s.exported| + i] == UnmatchedExport(c, pt);
  }

  lemma FlushExpels(c: Config, s: State, now: int, clock: Clock, pt: Pending)
    requires c.Ok() && Inv(c, s) && pt in s.pending && now - pt.at.receivedAt >= c.window
    ensures Leaves(s, FlushExpired(c, s, now, clock), pt)
  {
    hide MatchAll, Tried, Stands, Extends, Inv, ExpirePending, Annotates, SelectPackets;
    var v := FlushExpired(c, s, now, clock);
    if s.packets == [] {
      OverdueLeaves(c, s, now, pt);
    } else {
      MatchAllTries(c, s, clock, false, pt);
      var m := MatchAll(c, s, clock, false);
      var ps, i :| MatchedOn(c, s, m, pt, ps, clock(i), false);
      var u := ExpirePackets(c, m, now);
      PendingExpiryExports(c, u, now);
      if ExportedWith(s, m, pt) {
        ExportedWithLeaves(s, m, pt);
        LeavesLater(s, m, v, pt);
      } else {
        var tried := Tried(c, ps, pt);
        TriedKeepsNames(c, ps, pt);
        OverdueLeaves(c, u, now, tried);
        MatchExports(c, s, clock, false);
        hide ExpirePackets;
        LeavesSince(s, u, v, tried, pt);
      }
    }
  }

  lemma TriedKeepsNames(c: Config, ps: seq<Packet>, pt: Pending)
    ensures Tried(c, ps, pt).id == pt.id && Tried(c, ps, pt).original == pt.original && Tried(c, ps, pt).at == pt.at
  {
  }

  lemma LeavesSince(s: State, u: State, v: State, tried: Pending, pt: Pending)
    requires Leaves(u, v, tried) && |s.exported| <= |u.exported| && tried.id == pt.id && tried.original == pt.original
    ensures Leaves(s, v, pt)
  {
  }

  lemma PendingExpiryExports(c: Config, s: State, now: int)
    ensures s.exported <= ExpirePending(c, s, now).exported
  {
    hide UnmatchedExports, SelectPending;
  }

  lemma MatchExports(c: Config, s: State, clock: Clock, final: bool)
    ensures s.exported <= MatchAll(c, s, clock, final).exported
  {
    hide MatchPass;
  }

  /** A record whose window is over does not stay: the operation exports it. */
  lemma OverdueRecordsLeave(c: Config, s: State, op: Op, pt: Pending)
    requires c.Ok() && Inv(c, s) && Expires(c, op) && pt in s.pending && op.at - pt.at.receivedAt >= c.window
    ensures Leaves(s, Step(c, s, op), pt)
  {
    hide FlushExpired, MatchAll, Append, Offer, Inv, Leaves;
    FlushExpels(c, s, op.at, op.first, pt);
    var v := FlushExpired(c, s, op.at, op.first);
    StepExports(c, s, op);
    LeavesLater(s, v, Step(c, s, op), pt);
  }

  lemma StepExports(c: Config, s: State, op: Op)
    requires Expires(c, op)
    ensures FlushExpired(c, s, op.at, op.first).exported <= Step(c, s, op).exported
  {
    hide FlushExpired, MatchAll, Append, Offer;
    var v := FlushExpired(c, s, op.at, op.first);
    match op
    case TickOp(_, _) =>
    case HandleOp(now, m, id, _, reading) => OfferExports(c, v, NewPending(now, m, id), reading);
    case EnqueueOp(now, fields, dataB64, _, second) =>
      var core := EnqueueCore(now, fields, c.env.decode(dataB64).value);
      AppendExports(c, v, core);
      MatchExports(c, Append(c, v, core), second, false);
  }

  /** A waiting record that the export belongs to, and whose window is over. */
  ghost predicate Overdue(c: Config, s: State, now: int, e: Export) {
    exists pt :: pt in s.pending && pt.id == e.id && pt.original == e.original && now - pt.at.receivedAt >= c.window
  }

  ghost predicate WithPackets(s: State, t: State) {
    && s.exported <= t.exported
    && forall k :: |s.exported| <= k < |t.exported| ==> t.exported[k].wire.Some?
  }

  lemma MatchExportsWithPackets(c: Config, s: State, clock: Clock, final: bool)
    requires c.Ok() && forall pt <- s.pending :: Fresh(c, pt)
    ensures WithPackets(s, MatchAll(c, s, clock, final))
  {
    hide MatchPass, Fresh, ExportOk;
    var r := MatchPass(c, s.packets, s.pending, clock, 0, final);
    PassExports(c, s.packets, s.pending, clock, 0, final);
    forall k | 0 <= k < |r.exports| ensures r.exports[k].wire.Some? { assert r.exports[k] in r.exports; }
  }

  lemma ExpiryExports(c: Config, s: State, now: int)
    ensures var t := ExpirePending(c, s, now);
            && s.exported <= t.exported
            && forall k :: |s.exported| <= k < |t.exported| ==> Overdue(c, s, now, t.exported[k])
  {
    hide UnmatchedExports, SelectPending, Unmatched;
    var out := SelectPending(c, s.pending, now, true);
    SelectPendingMembers(c, s.pending, now, true);
    UnmatchedExportsAt(c, out);
    var t := ExpirePending(c, s, now);
    forall k | |s.exported| <= k < |t.exported| ensures Overdue(c, s, now, t.exported[k]) {
      var pt := out[k - |s.exported|];
      assert pt in out && t.exported[k] == UnmatchedExport(c, pt);
    }
  }

  ghost predicate InTime(c: Config, s: State, t: State, now: int) {
    && s.exported <= t.exported
    && forall k :: |s.exported| <= k < |t.exported| && t.exported[k].wire.None? ==> Overdue(c, s, now, t.exported[k])
  }

  lemma InTimeAfterMatch(c: Config, s: State, m: State, t: State, now: int)
    requires WithPackets(s, m) && InTime(c, m, t, now)
    requires forall p <- m.pending :: exists q :: q in s.pending && p.at == q.at && p.id == q.id && p.original == q.original
    ensures InTime(c, s, t, now)
  {
    assert forall k :: |s.exported| <= k < |m.exported| ==> t.exported[k] == m.exported[k];
    forall k | |s.exported| <= k < |t.exported| && t.exported[k].wire.None? ensures Overdue(c, s, now, t.exported[k]) {
      assert Overdue(c, m, now, t.exported[k]);
    }
  }

  lemma InTimeBeforeMatch(c: Config, s: State, m: State, t: State, now: int)
    requires InTime(c, s, m, now) && WithPackets(m, t)
    ensures InTime(c, s, t, now)
  {
    hide Overdue;
    forall k | |s.exported| <= k < |t.exported| && t.exported[k].wire.None? ensures Overdue(c, s, now, t.exported[k]) {
      assert k < |m.exported| && t.exported[k] == m.exported[k];
    }
  }

  lemma FlushIsInTime(c: Config, s: State, now: int, clock: Clock)
    requires c.Ok() && Inv(c, s)
    ensures InTime(c, s, FlushExpired(c, s, now, clock), now)
  {
    hide MatchAll, SelectPackets, ExpirePending, Fresh, PendingOk, ExportOk, Claims, ExportClaims, Overdue;
    var u := s;
    if s.packets != [] {
      u := ExpirePackets(c, MatchAll(c, s, clock, false), now);
      MatchExportsWithPackets(c, s, clock, false);
      MatchPending(c, s, clock, false);
    }
    ExpiryExports(c, u, now);
    InTimeAfterMatch(c, s, u, FlushExpired(c, s, now, clock), now);
  }

  lemma MatchPending(c: Config, s: State, clock: Clock, final: bool)
    ensures forall p <- MatchAll(c, s, clock, final).pending ::
              exists q :: q in s.pending && p.at == q.at && p.id == q.id && p.original == q.original
  {
    hide MatchPass;
    KeptTimes(c, s.packets, s.pending, clock, 0, final);
  }

  /** Before Close a record is exported without a packet only when its window is over. */
  lemma UnmatchedOnlyWhenOverdue(c: Config, s: State, op: Op)
    requires c.Ok() && Inv(c, s) && Expires(c, op)
    ensures InTime(c, s, Step(c, s, op), op.at)
  {
    hide FlushExpired, MatchAll, Append, Offer, Inv, InTime, WithPackets;
    FlushIsInTime(c, s, op.at, op.first);
    FlushExpiredKeeps(c, s, op.at, op.first);
    var v := FlushExpired(c, s, op.at, op.first);
    match op
    case TickOp(_, _) =>
    case HandleOp(now, m, id, _, reading) =>
      OfferWithPackets(c, v, NewPending(now, m, id), reading);
      InTimeBeforeMatch(c, s, v, Offer(c, v, NewPending(now, m, id), reading), now);
    case EnqueueOp(now, fields, dataB64, _, second) =>
      var core := EnqueueCore(now, fields, c.env.decode(dataB64).value);
      AcceptedWithPackets(c, v, core, second);
      InTimeBeforeMatch(c, s, v, MatchAll(c, Append(c, v, core), second, false), now);
  }

  lemma OfferWithPackets(c: Config, s: State, pt: Pending, reading: Reading)
    ensures WithPackets(s, Offer(c, s, pt, reading))
  {
    hide Try, Stands, Tried, Extends;
    TryIsGreedy(c, s.packets, pt, reading, false);
  }

  lemma AcceptedWithPackets(c: Config, s: State, core: WireCore, clock: Clock)
    requires c.Ok() && Inv(c, s)
    ensures WithPackets(s, MatchAll(c, Append(c, s, core), clock, false))
  {
    hide MatchAll, Append, Inv, Books, Fresh;
    AppendExports(c, s, core);
    AppendKeeps(c, s, core);
    var u := Append(c, s, core);
    BooksAreFresh(c, u);
    MatchExportsWithPackets(c, u, clock, false);
  }

  lemma BooksAreFresh(c: Config, s: State)
    requires Books(c, s)
    ensures forall pt <- s.pending :: Fresh(c, pt)
  {
  }

  /** With non-decreasing receive times the records that expire are the oldest ones. */
  lemma {:induction false} RecordsExpireInOrder(c: Config, pts: seq<Pending>, now: int)
    requires forall i, j :: 0 <= i < j < |pts| ==> pts[i].at.receivedAt <= pts[j].at.receivedAt
    ensures SelectPending(c, pts, now, true) + SelectPending(c, pts, now, false) == pts
    ensures pts != [] && Expired(c, pts[|pts| - 1].at.receivedAt, now) ==> SelectPending(c, pts, now, false) == []
  {
    if pts != [] {
      var n := |pts| - 1;
      RecordsExpireInOrder(c, pts[..n], now);
      assert pts[..n] + [pts[n]] == pts;
    }
  }

  // ---- One record and one packet ----

  lemma SingleTry(c: Config, core: WireCore, pt: Pending, reading: Reading, final: bool)
    requires Complete(c, pt.original) && pt.data == pt.original && !pt.ambiguous
    ensures var o := Try(c, [Packet(core, None)], pt, reading, final);
            && (o.matched.Some? <==> Score(c.env, c.filters, core, pt.at, pt.original) >= 0)
            && (o.matched.Some? ==> Annotates(o.matched.value, pt))
            && (o.matched.None? ==> o.packets == [Packet(core, None)] && o.pt == pt)
  {
    hide Try, Stands, Score, Complete, Competing;
    var ps := [Packet(core, None)];
    TryIsGreedy(c, ps, pt, reading, final);
    CompleteStands(c, ps, pt, reading, final);
    CompleteIsNotEnriched(c, pt.original);
    assert Winner(c, ps, pt.at, pt.original, 0) <==> Score(c.env, c.filters, core, pt.at, pt.original) >= 0;
  }

  lemma NothingToTry(c: Config, packets: seq<Packet>, clock: Clock, k: nat, final: bool)
    ensures MatchPass(c, packets, [], clock, k, final) == PassResult(packets, [], [])
  {
  }

  lemma SingleMatchAll(c: Config, core: WireCore, pt: Pending, clock: Clock, final: bool)
    requires Complete(c, pt.original) && pt.data == pt.original && !pt.ambiguous
    ensures var t := MatchAll(c, State([Packet(core, None)], [pt], [], []), clock, final);
            if Score(c.env, c.filters, core, pt.at, pt.original) >= 0
            then t.pending == [] && |t.exported| == 1 && Annotates(t.exported[0], pt)
            else t == State([Packet(core, None)], [pt], [], [])
  {
    hide Try, Score, Complete, Annotates;
    SingleTry(c, core, pt, clock(0), final);
    var o := Try(c, [Packet(core, None)], pt, clock(0), final);
    assert [pt][1..] == [];
    NothingToTry(c, o.packets, clock, 1, final);
  }

  lemma NothingExpires(c: Config, now: int)
    ensures SelectPending(c, [], now, true) == [] && SelectPending(c, [], now, false) == [] && UnmatchedExports(c, []) == []
    ensures SelectPackets(c, [], now, true) == [] && SelectPackets(c, [], now, false) == []
  {
  }

  lemma OneExpires(c: Config, p: Packet, pt: Pending, now: int)
    ensures SelectPackets(c, [p], now, true) == if now - p.core.at.receivedAt >= c.window then [p] else []
    ensures SelectPackets(c, [p], now, false) == if now - p.core.at.receivedAt >= c.window then [] else [p]
    ensures SelectPending(c, [pt], now, true) == if now - pt.at.receivedAt >= c.window then [pt] else []
    ensures SelectPending(c, [pt], now, false) == if now - pt.at.receivedAt >= c.window then [] else [pt]
    ensures UnmatchedExports(c, [pt]) == [UnmatchedExport(c, pt)]
  {
    hide UnmatchedExport;
    assert [p][..0] == [] && [pt][..0] == [];
    NothingExpires(c, now);
  }

  /** After the two have come, if they are to meet, and after Close. */
  ghost predicate Met(s: State, pt: Pending, meet: bool) {
    |s.exported| == 1 && s.exported[0].id == pt.id && s.exported[0].original == pt.original
    && (s.exported[0].wire.Some? <==> meet)
  }

  lemma CloseAlone(c: Config, s: State, pt: Pending, meet: bool, clock: Clock)
    requires s.pending == [] && Met(s, pt, meet)
    ensures Met(FlushAll(c, s, clock), pt, meet)
  {
    NothingToTry(c, s.packets, clock, 0, true);
    NothingExpires(c, 0);
  }

  lemma CloseWaiting(c: Config, core: WireCore, pt: Pending, clock: Clock)
    requires Complete(c, pt.original) && pt.data == pt.original && !pt.ambiguous
    requires Score(c.env, c.filters, core, pt.at, pt.original) < 0
    ensures Met(FlushAll(c, State([Packet(core, None)], [pt], [], []), clock), pt, false)
  {
    hide MatchAll, Score, Complete, Unmatched;
    SingleMatchAll(c, core, pt, clock, true);
    OneExpires(c, Packet(core, None), pt, 0);
  }

  lemma TryNothing(c: Config, pt: Pending, reading: Reading, final: bool)
    requires Complete(c, pt.original) && pt.data == pt.original && !pt.ambiguous
    ensures Try(c, [], pt, reading, final) == Outcome([], pt, None)
  {
    hide Stands, Complete;
    TryIsGreedy(c, [], pt, reading, final);
    CompleteStands(c, [], pt, reading, final);
    CompleteIsNotEnriched(c, pt.original);
    hide Try, Competing;
  }

  lemma CloseWithoutPacket(c: Config, w: seq<Packet>, pt: Pending, clock: Clock)
    requires Complete(c, pt.original) && pt.data == pt.original && !pt.ambiguous
    ensures Met(FlushAll(c, State([], [pt], w, []), clock), pt, false)
  {
    hide Unmatched, Complete;
    NothingToTry(c, [], clock, 1, true);
    TryNothing(c, pt, clock(0), true);
    hide Try;
    assert [pt][1..] == [];
    assert MatchPass(c, [], [pt], clock, 0, true) == PassResult([], [pt], []);
    hide MatchPass;
    UnmatchedExportsAt(c, [pt]);
    hide UnmatchedExports;
  }

  lemma PacketAlone(c: Config, op: Op)
    requires Accepts(c, op)
    ensures Step(c, EMPTY, op) ==
            State([Packet(WireCore(Arrival(op.at, Timestamp(op.fields)), op.fields, c.env.decode(op.dataB64).value), None)], [], [], [])
  {
    NothingExpires(c, op.at);
    var p := Packet(EnqueueCore(op.at, op.fields, c.env.decode(op.dataB64).value), None);
    assert [] + [p] == [p];
    NothingToTry(c, [p], op.second, 0, false);
    hide MatchPass, SelectPending, UnmatchedExports;
  }

  lemma RecordAlone(c: Config, op: Op)
    requires op.HandleOp? && Complete(c, op.m)
    ensures Step(c, EMPTY, op) == State([], [Arrived(op)], [], [])
  {
    hide Complete, Try;
    NothingExpires(c, op.at);
    TryNothing(c, Arrived(op), op.reading, false);
    assert [] + [Arrived(op)] == [Arrived(op)];
    hide SelectPending, UnmatchedExports;
  }

  lemma RecordMeetsPacket(c: Config, core: WireCore, op: Op, clock: Clock)
    requires op.HandleOp? && Complete(c, op.m)
    ensures var s := State([Packet(core, None)], [], [], []);
            Met(FlushAll(c, Step(c, s, op), clock), Arrived(op),
                Score(c.env, c.filters, core, Arrived(op).at, op.m) >= 0 && op.at - core.at.receivedAt < c.window)
  {
    hide Complete, Try, Score, Unmatched, FlushAll, Timestamp;
    var p, pt, s := Packet(core, None), Arrived(op), State([Packet(core, None)], [], [], []);
    NothingToTry(c, [p], op.first, 0, false);
    NothingExpires(c, op.at);
    OneExpires(c, p, pt, op.at);
    hide MatchPass, SelectPackets, SelectPending, UnmatchedExports;
    assert [] + [pt] == [pt] && [] + [p] == [p];
    if op.at - core.at.receivedAt >= c.window {
      assert FlushExpired(c, s, op.at, op.first) == State([], [], [p], []);
      TryNothing(c, pt, op.reading, false);
      CloseWithoutPacket(c, [p], pt, clock);
    } else {
      assert FlushExpired(c, s, op.at, op.first) == s;
      SingleTry(c, core, pt, op.reading, false);
      if Score(c.env, c.filters, core, pt.at, op.m) >= 0 {
        CloseAlone(c, Step(c, s, op), pt, true, clock);
      } else {
        CloseWaiting(c, core, pt, clock);
      }
    }
  }

  lemma PacketMeetsRecord(c: Config, pt: Pending, op: Op, clock: Clock)
    requires c.Ok() && Accepts(c, op) && Complete(c, pt.original) && pt.data == pt.original && !pt.ambiguous
    ensures var core := EnqueueCore(op.at, op.fields, c.env.decode(op.dataB64).value);
            Met(FlushAll(c, Step(c, State([], [pt], [], []), op), clock), pt,
                Score(c.env, c.filters, core, pt.at, pt.original) >= 0 && op.at - pt.at.receivedAt < c.window)
  {
    hide Complete, Try, Score, Unmatched, FlushAll, Timestamp;
    var core := EnqueueCore(op.at, op.fields, c.env.decode(op.dataB64).value);
    var p, s := Packet(core, None), State([], [pt], [], []);
    OneExpires(c, p, pt, op.at);
    NothingExpires(c, op.at);
    NothingToTry(c, [p], op.second, 0, false);
    hide SelectPackets, SelectPending, UnmatchedExports;
    assert [] + [p] == [p];
    if op.at - pt.at.receivedAt >= c.window {
      hide MatchPass;
      assert FlushExpired(c, s, op.at, op.first) == State([], [], [], [UnmatchedExport(c, pt)]);
      CloseAlone(c, Step(c, s, op), pt, false, clock);
    } else {
      hide MatchPass;
      assert FlushExpired(c, s, op.at, op.first) == s;
      SingleMatchAll(c, core, pt, op.second, false);
      if Score(c.env, c.filters, core, pt.at, pt.original) >= 0 {
        CloseAlone(c, Step(c, s, op), pt, true, clock);
      } else {
        CloseWaiting(c, core, pt, clock);
      }
    }
  }

  /** One packet, one complete record, in either order, and Close: the record is exported once, and
      with the packet if and only if the packet is acceptable and the second of the two came before
      the window of the first was over. */
  lemma OneRecordOnePacket(c: Config, packet: Op, record: Op, clock: Clock)
    requires c.Ok() && Accepts(c, packet) && record.HandleOp? && Complete(c, record.m)
    ensures var core := WireCore(Arrival(packet.at, Timestamp(packet.fields)), packet.fields, c.env.decode(packet.dataB64).value);
            var fits := Score(c.env, c.filters, core, Arrival(record.at, Timestamp(record.m)), record.m) >= 0;
            && Met(Run(c, EMPTY, [packet, record, FlushOp(clock)]), Arrived(record), fits && record.at - packet.at < c.window)
            && Met(Run(c, EMPTY, [record, packet, FlushOp(clock)]), Arrived(record), fits && packet.at - record.at < c.window)
  {
    hide Step, Score, Complete, Timestamp, Met;
    RunThree(c, packet, record, FlushOp(clock));
    RunThree(c, record, packet, FlushOp(clock));
    PacketAlone(c, packet);
    RecordAlone(c, record);
    var core := EnqueueCore(packet.at, packet.fields, c.env.decode(packet.dataB64).value);
    RecordMeetsPacket(c, core, record, clock);
    PacketMeetsRecord(c, Arrived(record), packet, clock);
    CloseIsFlush(c, Step(c, Step(c, EMPTY, packet), record), clock);
    CloseIsFlush(c, Step(c, Step(c, EMPTY, record), packet), clock);
  }

  lemma CloseIsFlush(c: Config, s: State, clock: Clock)
    ensures Step(c, s, FlushOp(clock)) == FlushAll(c, s, clock)
  {
  }

  lemma RunThree(c: Config, x: Op, y: Op, z: Op)
    ensures Run(c, EMPTY, [x, y, z]) == Step(c, Step(c, Step(c, EMPTY, x), y), z)
  {
    hide Step;
    assert [x, y, z][..2] == [x, y] && [x, y][..1] == [x] && [x][..0] == [];
    assert Run(c, EMPTY, [x]) == Step(c, EMPTY, x);
    assert Run(c, EMPTY, [x, y]) == Step(c, Step(c, EMPTY, x), y);
  }
}
