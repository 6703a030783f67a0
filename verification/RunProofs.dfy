/** Whole runs: any interleaving of packets, records and ticks, with any clock readings. */
module RunProofs {
  import opened Records
  import opened Scoring
  import opened Exports
  import opened BufferSpec
  import opened ScanProofs
  import opened BufferProofs

  /** The records handed in by a run. */
  function Handled(ops: seq<Op>): Bag {
    if ops == [] then multiset{} else Handled(ops[..|ops| - 1]) + Arriving(ops[|ops| - 1])
  }

  function AcceptedBy(c: Config, op: Op): seq<WireCore> {
    if !op.EnqueueOp? || c.env.decode(op.dataB64).None? then []
    else [EnqueueCore(op.at, op.fields, c.env.decode(op.dataB64).value)]
  }

  /** The packets accepted by a run, in order. */
  function Accepted(c: Config, ops: seq<Op>): seq<WireCore> {
    if ops == [] then [] else Accepted(c, ops[..|ops| - 1]) + AcceptedBy(c, ops[|ops| - 1])
  }

  /** One goroutine receives packets, so their receive times do not decrease. */
  ghost predicate InOrder(cores: seq<WireCore>) {
    forall i, j :: 0 <= i < j < |cores| ==> cores[i].at.receivedAt <= cores[j].at.receivedAt
  }

  lemma {:induction false} RunKeeps(c: Config, ops: seq<Op>)
    requires c.Ok()
    ensures Inv(c, Run(c, EMPTY, ops)) && AllRecords(Run(c, EMPTY, ops)) == Handled(ops)
  {
    if ops == [] {
    } else {
      hide Inv, AllRecords, Step, Arriving;
      RunKeeps(c, ops[..|ops| - 1]);
      StepKeeps(c, Run(c, EMPTY, ops[..|ops| - 1]), ops[|ops| - 1]);
    }
  }

  // ---- Packets: first in, first out ----

  lemma {:induction false} ExpiryTakesAPrefix(c: Config, ps: seq<Packet>, now: int)
    requires InOrder(Cores(ps))
    ensures SelectPackets(c, ps, now, true) + SelectPackets(c, ps, now, false) == ps
    ensures ps != [] && Expired(c, ps[|ps| - 1].core.at.receivedAt, now) ==> SelectPackets(c, ps, now, false) == []
  {
    if ps != [] {
      var n := |ps| - 1;
      var init := ps[..n];
      assert forall i :: 0 <= i < n ==> Cores(init)[i] == Cores(ps)[i];
      ExpiryTakesAPrefix(c, init, now);
      if n > 0 {
        assert Cores(ps)[n - 1].at.receivedAt <= Cores(ps)[n].at.receivedAt;
      }
      assert init + [ps[n]] == ps;
    }
  }

  /** From `s` to `t` nothing is reordered, dropped or un-annotated, and `added` is new at the end. */
  ghost predicate Advances(s: State, t: State, added: seq<WireCore>) {
    && Extends(Timeline(s), Timeline(t))
    && Cores(Timeline(t)) == Cores(Timeline(s)) + added
    && s.written <= t.written
  }

  lemma AdvancesTransitive(s: State, t: State, u: State, a: seq<WireCore>, b: seq<WireCore>)
    requires Advances(s, t, a) && Advances(t, u, b)
    ensures Advances(s, u, a + b)
  {
    hide Cores;
    ExtendsTransitive(Timeline(s), Timeline(t), Timeline(u));
    assert Cores(Timeline(s)) + (a + b) == Cores(Timeline(s)) + a + b;
    hide Extends;
  }

  lemma CoresConcat(a: seq<Packet>, b: seq<Packet>)
    ensures Cores(a + b) == Cores(a) + Cores(b)
  {
  }

  /** Annotating buffered packets advances the timeline. */
  lemma AnnotatingAdvances(s: State, t: State)
    requires t.written == s.written && Cores(t.packets) == Cores(s.packets) && Extends(s.packets, t.packets)
    ensures Advances(s, t, [])
  {
    CoresConcat(s.written, s.packets);
    CoresConcat(t.written, t.packets);
    assert Cores(Timeline(s)) + [] == Cores(Timeline(s));
    assert |t.packets| == |s.packets|;
    hide Cores;
  }

  /** Writing the oldest packets does not move them on the timeline. */
  lemma SameTimelineAdvances(s: State, t: State)
    requires Timeline(t) == Timeline(s) && s.written <= t.written
    ensures Advances(s, t, [])
  {
    assert Cores(Timeline(s)) + [] == Cores(Timeline(s));
    hide Cores;
  }

  lemma InOrderSuffix(s: State)
    requires InOrder(Cores(Timeline(s)))
    ensures InOrder(Cores(s.packets))
  {
    CoresConcat(s.written, s.packets);
    InOrderParts(Cores(s.written), Cores(s.packets));
    hide InOrder, Cores;
  }

  lemma InOrderParts(a: seq<WireCore>, b: seq<WireCore>)
    requires InOrder(a + b)
    ensures InOrder(a) && InOrder(b)
  {
    forall i, j | 0 <= i < j < |b| ensures b[i].at.receivedAt <= b[j].at.receivedAt {
      assert (a + b)[|a| + i] == b[i] && (a + b)[|a| + j] == b[j];
    }
    forall i, j | 0 <= i < j < |a| ensures a[i].at.receivedAt <= a[j].at.receivedAt {
      assert (a + b)[i] == a[i] && (a + b)[j] == a[j];
    }
  }

  lemma FlushExpiredAdvances(c: Config, s: State, now: int, clock: Clock)
    requires c.Ok() && Inv(c, s) && InOrder(Cores(Timeline(s)))
    ensures Advances(s, FlushExpired(c, s, now, clock), [])
  {
    hide MatchAll, Cores, Fresh, PendingOk, ExportOk, Claims, ExportClaims, SelectPackets, SelectPending, InOrder;
    var t := FlushExpired(c, s, now, clock);
    if s.packets == [] {
      SameTimelineAdvances(s, t);
    } else {
      MatchAllKeeps(c, s, clock, false);
      var u := MatchAll(c, s, clock, false);
      AnnotatingAdvances(s, u);
      assert Cores(Timeline(s)) + [] == Cores(Timeline(s));
      InOrderSuffix(u);
      ExpiryTakesAPrefix(c, u.packets, now);
      assert Timeline(t) == Timeline(u);
      SameTimelineAdvances(u, t);
      AdvancesTransitive(s, u, t, [], []);
    }
  }

  lemma AppendAdvances(c: Config, s: State, core: WireCore)
    requires Inv(c, s)
    ensures Advances(s, Append(c, s, core), [core])
  {
    hide Inv, Cores, Books;
    AppendTimeline(c, s, core) by { assert |s.packets| <= MAX_BUFFERED by { BufferWithinCap(c, s); } }
    CoresConcat(Timeline(s), [Packet(core, None)]);
    assert Cores([Packet(core, None)]) == [core] by { CoresOne(Packet(core, None)); }
    assert s.written <= Append(c, s, core).written;
    hide Append, Timeline;
  }

  lemma BufferWithinCap(c: Config, s: State)
    requires Inv(c, s)
    ensures |s.packets| <= MAX_BUFFERED
  {
  }

  lemma CoresOne(p: Packet)
    ensures Cores([p]) == [p.core]
  {
  }

  lemma FlushAllAdvances(c: Config, s: State, clock: Clock)
    requires c.Ok() && Inv(c, s)
    ensures Advances(s, FlushAll(c, s, clock), [])
  {
    hide MatchAll, Cores, Fresh, PendingOk, ExportOk, Claims, ExportClaims;
    MatchAllKeeps(c, s, clock, true);
    var u := MatchAll(c, s, clock, true);
    AnnotatingAdvances(s, u);
    assert Timeline(FlushAll(c, s, clock)) == Timeline(u);
    SameTimelineAdvances(u, FlushAll(c, s, clock));
    AdvancesTransitive(s, u, FlushAll(c, s, clock), [], []);
  }

  lemma StepAdvances(c: Config, s: State, op: Op)
    requires c.Ok() && Inv(c, s) && InOrder(Cores(Timeline(s)))
    ensures Advances(s, Step(c, s, op), AcceptedBy(c, op))
  {
    hide Inv, Advances, FlushExpired, FlushAll, InOrder, Enqueue, HandlePlaintext;
    match op
    case EnqueueOp(now, fields, dataB64, first, second) =>
      var data := c.env.decode(dataB64);
      if data.Some? {
        EnqueueAdvances(c, s, EnqueueCore(now, fields, data.value), first, second);
      } else {
        SameTimelineAdvances(s, s);
      }
    case HandleOp(now, m, id, first, reading) => HandleAdvances(c, s, now, m, id, first, reading);
    case TickOp(now, first) => FlushExpiredAdvances(c, s, now, first);
    case FlushOp(first) => FlushAllAdvances(c, s, first);
  }

  lemma EnqueueAdvances(c: Config, s: State, core: WireCore, first: Clock, second: Clock)
    requires c.Ok() && Inv(c, s) && InOrder(Cores(Timeline(s)))
    ensures Advances(s, Enqueue(c, s, core, first, second), [core])
  {
    hide Inv, Advances, FlushExpired, InOrder, Cores, MatchAll, Append;
    var now := core.at.receivedAt;
    FlushExpiredAdvances(c, s, now, first);
    FlushExpiredKeeps(c, s, now, first);
    var t := FlushExpired(c, s, now, first);
    AppendAndMatchAdvances(c, t, core, second);
    assert [] + [core] == [core];
    AdvancesTransitive(s, t, MatchAll(c, Append(c, t, core), second, false), [], [core]);
  }

  lemma AppendAndMatchAdvances(c: Config, t: State, core: WireCore, second: Clock)
    requires c.Ok() && Inv(c, t)
    ensures Advances(t, MatchAll(c, Append(c, t, core), second, false), [core])
  {
    hide Books, Advances, InOrder, Cores, MatchAll, Append, PendingOk, AllRecords;
    AppendAdvances(c, t, core);
    AppendKeeps(c, t, core);
    hide Inv;
    var u := Append(c, t, core);
    MatchAllKeeps(c, u, second, false);
    AnnotatingAdvances(u, MatchAll(c, u, second, false));
    assert [core] + [] == [core];
    AdvancesTransitive(t, u, MatchAll(c, u, second, false), [core], []);
  }

  lemma HandleAdvances(c: Config, s: State, now: int, m: GenericMap, id: nat, first: Clock, reading: Reading)
    requires c.Ok() && Inv(c, s) && InOrder(Cores(Timeline(s)))
    ensures Advances(s, HandlePlaintext(c, s, now, m, id, first, reading), [])
  {
    hide Inv, Advances, FlushExpired, InOrder, Cores, Offer, AllRecords;
    FlushExpiredAdvances(c, s, now, first);
    FlushExpiredKeeps(c, s, now, first);
    var t := FlushExpired(c, s, now, first);
    var pt := NewPending(now, m, id);
    OfferKeeps(c, t, pt, reading);
    AnnotatingAdvances(t, Offer(c, t, pt, reading));
    var none: seq<WireCore> := [];
    assert none + none == none;
    AdvancesTransitive(s, t, Offer(c, t, pt, reading), none, none);
  }

  /** In every reachable state the written packets followed by the buffered ones are exactly the
      accepted packets in order of arrival, and the buffer is within its cap. */
  lemma {:induction false} WirePacketsAreFifo(c: Config, ops: seq<Op>)
    requires c.Ok() && InOrder(Accepted(c, ops))
    ensures var s := Run(c, EMPTY, ops);
            Cores(s.written + s.packets) == Accepted(c, ops) && |s.packets| <= 20000
  {
    RunKeeps(c, ops);
    hide Step, Cores, InOrder, AcceptedBy;
    if ops == [] {
      assert Cores([]) == [];
    } else {
      var init, op := ops[..|ops| - 1], ops[|ops| - 1];
      InOrderParts(Accepted(c, init), AcceptedBy(c, op));
      RunKeeps(c, init);
      WirePacketsAreFifo(c, init);
      StepAdvances(c, Run(c, EMPTY, init), op);
    }
  }

  /** Annotations are never changed or removed, and what is written stays written. */
  lemma {:induction false} AnnotationsAreFinal(c: Config, ops: seq<Op>, more: seq<Op>)
    requires c.Ok() && InOrder(Accepted(c, ops + more))
    ensures var s, t := Run(c, EMPTY, ops), Run(c, EMPTY, ops + more);
            Extends(Timeline(s), Timeline(t)) && s.written <= t.written
    decreases |more|
  {
    hide Step, Cores, InOrder, AcceptedBy, Inv;
    var s := Run(c, EMPTY, ops);
    if more == [] {
      assert ops + more == ops;
    } else {
      var init, op := more[..|more| - 1], more[|more| - 1];
      assert (ops + more)[..|ops + more| - 1] == ops + init;
      InOrderParts(Accepted(c, ops + init), AcceptedBy(c, op));
      AnnotationsAreFinal(c, ops, init);
      RunKeeps(c, ops + init);
      WirePacketsAreFifo(c, ops + init);
      var t := Run(c, EMPTY, ops + init);
      StepAdvances(c, t, op);
      ExtendsTransitive(Timeline(s), Timeline(t), Timeline(Step(c, t, op)));
    }
  }

  lemma {:induction false} SelectedPacketsExpired(c: Config, ps: seq<Packet>, now: int, expired: bool)
    ensures forall p :: p in SelectPackets(c, ps, now, expired)
                        <==> p in ps && Expired(c, p.core.at.receivedAt, now) == expired
  {
    hide Expired;
    if ps != [] {
      var n := |ps| - 1;
      SelectedPacketsExpired(c, ps[..n], now, expired);
      assert ps == ps[..n] + [ps[n]];
    }
  }

  lemma ExpiryIsPunctual(c: Config, s: State, now: int, clock: Clock)
    ensures var t := FlushExpired(c, s, now, clock);
            && (forall p <- t.packets :: now - p.core.at.receivedAt < c.window)
            && (forall pt <- t.pending :: now - pt.at.receivedAt < c.window)
            && s.written <= t.written
            && (forall i :: |s.written| <= i < |t.written| ==> now - t.written[i].core.at.receivedAt >= c.window)
  {
    hide MatchPass, SelectPackets, SelectPending, UnmatchedExports;
    var u := if s.packets == [] then s else MatchAll(c, s, clock, false);
    var v := if s.packets == [] then u else ExpirePackets(c, u, now);
    SelectedPacketsExpired(c, u.packets, now, true);
    SelectedPacketsExpired(c, u.packets, now, false);
    SelectPendingMembers(c, v.pending, now, false);
    var out := SelectPackets(c, u.packets, now, true);
    assert forall p <- out :: now - p.core.at.receivedAt >= c.window;
    assert s.packets != [] ==> v.written == s.written + out;
  }

  // ---- Records: exactly once, one packet each ----

  /** No two handled records share an id. */
  ghost predicate DistinctIds(ops: seq<Op>) {
    forall i, j :: 0 <= i < j < |ops| && ops[i].HandleOp? && ops[j].HandleOp? ==> ops[i].id != ops[j].id
  }

  /** Ids determine the entries of a bag, and each entry occurs once. */
  ghost predicate Unique(b: Bag) {
    forall p, q :: p in b && q in b && p.0 == q.0 ==> p == q && b[p] == 1
  }

  lemma UniquePart(a: Bag, b: Bag)
    requires Unique(a + b)
    ensures Unique(a)
  {
    forall p, q | p in a && q in a && p.0 == q.0 ensures p == q && a[p] == 1 {
      assert p in a + b && q in a + b;
      assert (a + b)[p] == a[p] + b[p];
    }
  }

  lemma {:induction false} HandledMembers(ops: seq<Op>, p: (nat, GenericMap))
    requires p in Handled(ops)
    ensures exists i :: 0 <= i < |ops| && ops[i].HandleOp? && p == (ops[i].id, ops[i].m)
  {
    var n := |ops| - 1;
    if p in Handled(ops[..n]) {
      HandledMembers(ops[..n], p);
      var i :| 0 <= i < n && ops[..n][i].HandleOp? && p == (ops[..n][i].id, ops[..n][i].m);
      assert ops[i] == ops[..n][i];
    } else {
      assert p in Arriving(ops[n]);
    }
  }

  lemma {:induction false} DistinctIdsAreUnique(ops: seq<Op>)
    requires DistinctIds(ops)
    ensures Unique(Handled(ops))
  {
    if ops != [] {
      var n := |ops| - 1;
      assert forall i :: 0 <= i < n ==> ops[..n][i] == ops[i];
      DistinctIdsAreUnique(ops[..n]);
      forall p | p in Handled(ops[..n]) ensures ops[n].HandleOp? ==> p.0 != ops[n].id {
        HandledMembers(ops[..n], p);
      }
      UniqueExtended(Handled(ops[..n]), ops[n]);
    }
  }

  lemma UniqueExtended(b: Bag, op: Op)
    requires Unique(b) && forall p :: p in b && op.HandleOp? ==> p.0 != op.id
    ensures Unique(b + Arriving(op))
  {
  }

  lemma {:induction false} ExportSourceAt(es: seq<Export>, i: nat)
    requires i < |es|
    ensures (es[i].id, es[i].original) in ExportSources(es)
    ensures es[i].wire.Some? ==> (es[i].id, es[i].wire.value) in ExportClaims(es)
  {
    var n := |es| - 1;
    if i < n { ExportSourceAt(es[..n], i); }
  }

  /** No entry of the bag has this id. */
  ghost predicate Absent(id: nat, b: Bag) { forall p <- b :: p.0 != id }

  lemma AbsentPart(id: nat, a: Bag, b: Bag)
    requires Absent(id, a + b)
    ensures Absent(id, b)
  {
    assert forall p <- b :: p in a + b;
  }

  lemma AbsentOther(id: nat, e: Export, b: Bag)
    requires Absent(id, ExportSource(e) + b)
    ensures id != e.id
  {
    assert (e.id, e.original) in ExportSource(e) + b;
  }

  lemma {:induction false} UniqueSourcesGiveDistinctExports(es: seq<Export>, rest: Bag)
    requires Unique(ExportSources(es) + rest)
    ensures forall i, j :: 0 <= i < j < |es| ==> es[i].id != es[j].id
    ensures forall i :: 0 <= i < |es| ==> Absent(es[i].id, rest)
  {
    if es != [] {
      var n := |es| - 1;
      var init, last := es[..n], ExportSource(es[n]);
      LastSource(es, rest);
      hide ExportSources, ExportSource, Unique, Absent;
      UniqueSourcesGiveDistinctExports(init, last + rest);
      UniquePart(last + rest, ExportSources(init));
      LastIsNew(es[n], rest);
      forall i | 0 <= i < n ensures es[i].id != es[n].id && Absent(es[i].id, rest) {
        assert init[i] == es[i];
        AbsentPart(es[i].id, last, rest);
        AbsentOther(es[i].id, es[n], rest);
      }
      forall i, j | 0 <= i < j < |es| ensures es[i].id != es[j].id {
        if j < n { assert init[i] == es[i] && init[j] == es[j]; }
      }
    }
  }

  lemma LastSource(es: seq<Export>, rest: Bag)
    requires es != []
    ensures var n := |es| - 1;
            && ExportSources(es) + rest == ExportSources(es[..n]) + (ExportSource(es[n]) + rest)
            && ExportSources(es) + rest == (ExportSource(es[n]) + rest) + ExportSources(es[..n])
  {
    hide ExportSource;
  }

  lemma LastIsNew(e: Export, rest: Bag)
    requires Unique(ExportSource(e) + rest)
    ensures Absent(e.id, rest)
  {
    hide Unique;
    forall q <- rest ensures q.0 != e.id {
      OnceInUnique((e.id, e.original), rest, q);
    }
  }

  lemma OnceInUnique(p: (nat, GenericMap), rest: Bag, q: (nat, GenericMap))
    requires Unique(multiset{p} + rest) && q in rest
    ensures q.0 != p.0
  {
    var b := multiset{p} + rest;
    assert p in b && q in b && b[p] == 1 + rest[p];
  }

  lemma {:induction false} ExportClaimWitness(es: seq<Export>, p: (nat, GenericMap)) returns (i: nat)
    requires p in ExportClaims(es)
    ensures i < |es| && es[i].id == p.0 && es[i].wire == Some(p.1)
  {
    var n := |es| - 1;
    if p in ExportClaims(es[..n]) { i := ExportClaimWitness(es[..n], p); } else { i := n; }
  }

  lemma {:induction false} DistinctExportsClaimOnce(es: seq<Export>, p: (nat, GenericMap))
    requires forall i, j :: 0 <= i < j < |es| ==> es[i].id != es[j].id
    ensures ExportClaims(es)[p] <= 1
  {
    if es != [] {
      var n := |es| - 1;
      assert forall i :: 0 <= i < n ==> es[..n][i] == es[i];
      DistinctExportsClaimOnce(es[..n], p);
      if p in ExportClaims(es[..n]) {
        var i := ExportClaimWitness(es[..n], p);
        assert es[i].id != es[n].id;
      }
    }
  }

  lemma {:induction false} ClaimWitness(ps: seq<Packet>, p: (nat, GenericMap)) returns (i: nat)
    requires p in Claims(ps)
    ensures i < |ps| && ps[i].mark.Some? && ps[i].mark.value.id == p.0 && ps[i].core.fields == p.1
  {
    var n := |ps| - 1;
    if p in Claims(ps[..n]) { i := ClaimWitness(ps[..n], p); } else { i := n; }
  }

  function ClaimAt(ps: seq<Packet>, i: nat): (nat, GenericMap)
    requires i < |ps| && ps[i].mark.Some?
  {
    (ps[i].mark.value.id, ps[i].core.fields)
  }

  lemma {:induction false} ClaimsCount(ps: seq<Packet>, i: nat, j: nat)
    requires i <= j < |ps| && ps[i].mark.Some? && ps[j].mark.Some? && ClaimAt(ps, i) == ClaimAt(ps, j)
    ensures Claims(ps)[ClaimAt(ps, i)] >= if i < j then 2 else 1
  {
    hide Claims, Claim;
    var n := |ps| - 1;
    var p := ClaimAt(ps, i);
    ClaimsLast(ps, p);
    assert ClaimAt(ps[..n + 1], i) == p;
    if j < n {
      assert ClaimAt(ps[..n], i) == p && ClaimAt(ps[..n], j) == p;
      ClaimsCount(ps[..n], i, j);
    } else if i < n {
      assert ClaimAt(ps[..n], i) == p;
      ClaimsCount(ps[..n], i, i);
    }
  }

  /** The last packet adds at most one claim, its own. */
  lemma ClaimsLast(ps: seq<Packet>, p: (nat, GenericMap))
    requires ps != []
    ensures var n := |ps| - 1;
            Claims(ps)[p] == Claims(ps[..n])[p] + if ps[n].mark.Some? && ClaimAt(ps, n) == p then 1 else 0
  {
    ClaimOf(ps[|ps| - 1], p);
    hide Claim;
  }

  lemma ClaimOf(x: Packet, p: (nat, GenericMap))
    ensures Claim(x)[p] == if x.mark.Some? && (x.mark.value.id, x.core.fields) == p then 1 else 0
  {
  }

  /** Annotated packets and annotated records correspond one to one. */
  ghost predicate OneToOne(ps: seq<Packet>, es: seq<Export>) {
    && (forall i, j :: 0 <= i < j < |ps| && ps[i].mark.Some? && ps[j].mark.Some? ==>
          ps[i].mark.value.id != ps[j].mark.value.id)
    && (forall i, j :: 0 <= i < j < |es| ==> es[i].id != es[j].id)
    && (forall i :: 0 <= i < |ps| && ps[i].mark.Some? ==>
          exists k :: 0 <= k < |es| && Carries(ps[i], es[k]))
    && (forall k :: 0 <= k < |es| && es[k].wire.Some? ==>
          exists i :: 0 <= i < |ps| && Carries(ps[i], es[k]))
  }

  predicate Carries(p: Packet, e: Export) {
    p.mark.Some? && p.mark.value.id == e.id && e.wire == Some(p.core.fields)
  }

  lemma ClaimsMatchOneToOne(ps: seq<Packet>, es: seq<Export>)
    requires Claims(ps) == ExportClaims(es)
    requires forall i, j :: 0 <= i < j < |es| ==> es[i].id != es[j].id
    ensures OneToOne(ps, es)
  {
    hide Claims, ExportClaims, Claim, ExportClaim;
    forall i, j | 0 <= i < j < |ps| && ps[i].mark.Some? && ps[j].mark.Some?
      ensures ps[i].mark.value.id != ps[j].mark.value.id
    {
      ClaimsCount(ps, i, i);
      ClaimsCount(ps, j, j);
      if ps[i].mark.value.id == ps[j].mark.value.id {
        var k := ExportClaimWitness(es, ClaimAt(ps, i));
        var l := ExportClaimWitness(es, ClaimAt(ps, j));
        assert k == l;
        ClaimsCount(ps, i, j);
        DistinctExportsClaimOnce(es, ClaimAt(ps, i));
      }
    }
    forall i | 0 <= i < |ps| && ps[i].mark.Some? ensures exists k :: 0 <= k < |es| && Carries(ps[i], es[k]) {
      ClaimsCount(ps, i, i);
      var k := ExportClaimWitness(es, ClaimAt(ps, i));
      assert Carries(ps[i], es[k]);
    }
    forall k | 0 <= k < |es| && es[k].wire.Some? ensures exists i :: 0 <= i < |ps| && Carries(ps[i], es[k]) {
      ExportSourceAt(es, k);
      var i := ClaimWitness(ps, (es[k].id, es[k].wire.value));
      assert Carries(ps[i], es[k]);
    }
  }

  /** In every reachable state: annotated packets, written or buffered, correspond one to one to
      the annotated exports, and no record is both exported and waiting. */
  lemma AnnotationBijection(c: Config, ops: seq<Op>)
    requires c.Ok() && DistinctIds(ops)
    ensures var s := Run(c, EMPTY, ops);
            && OneToOne(Timeline(s), s.exported)
            && (forall pt <- s.pending, k | 0 <= k < |s.exported| :: s.exported[k].id != pt.id)
  {
    var s := Run(c, EMPTY, ops);
    RunKeeps(c, ops);
    DistinctIdsAreUnique(ops);
    hide Run, Handled, OneToOne, Claims, ExportClaims, ExportSources, Unique, DistinctIds, Fresh, PendingOk, ExportOk;
    UniqueSourcesGiveDistinctExports(s.exported, PendingSources(s.pending));
    ClaimsMatchOneToOne(Timeline(s), s.exported);
    forall pt | pt in s.pending ensures (pt.id, pt.original) in PendingSources(s.pending) {
      PendingSourceOf(s.pending, pt);
    }
  }

  lemma {:induction false} PendingSourceOf(pts: seq<Pending>, pt: Pending)
    requires pt in pts
    ensures (pt.id, pt.original) in PendingSources(pts)
  {
    var n := |pts| - 1;
    assert pts == pts[..n] + [pts[n]];
    if pt != pts[n] { PendingSourceOf(pts[..n], pt); }
  }

  /** A run that ends in Close: every accepted packet is written in order, every record is
      exported exactly once, and the packet ids on the written packets are exactly the ids of
      the records exported as annotated, one packet each. */
  lemma CloseCompletesEverything(c: Config, ops: seq<Op>, clock: Clock)
    requires c.Ok() && DistinctIds(ops) && InOrder(Accepted(c, ops))
    ensures var s := Run(c, EMPTY, ops + [FlushOp(clock)]);
            && s.packets == [] && s.pending == []
            && Cores(s.written) == Accepted(c, ops)
            && ExportSources(s.exported) == Handled(ops)
            && OneToOne(s.written, s.exported)
            && (forall e <- s.exported :: ExportOk(c, e))
  {
    hide Run, Accepted, Handled, OneToOne, Cores, ExportSources, ExportOk, PendingOk, Fresh, Claims, DistinctIds, InOrder;
    var all := ops + [FlushOp(clock)];
    ClosedRun(c, ops, clock);
    FlushAddsNothing(c, ops, clock);
    var s := Run(c, EMPTY, all);
    assert s.written + s.packets == s.written;
    AnnotationBijection(c, all);
    WirePacketsAreFifo(c, all);
  }

  lemma FlushAddsNothing(c: Config, ops: seq<Op>, clock: Clock)
    ensures Accepted(c, ops + [FlushOp(clock)]) == Accepted(c, ops)
    ensures DistinctIds(ops) ==> DistinctIds(ops + [FlushOp(clock)])
  {
    var all := ops + [FlushOp(clock)];
    assert all[..|all| - 1] == ops && all[|ops|] == FlushOp(clock);
    assert AcceptedBy(c, FlushOp(clock)) == [];
    hide Accepted, AcceptedBy;
  }

  lemma ClosedRun(c: Config, ops: seq<Op>, clock: Clock)
    requires c.Ok()
    ensures var s := Run(c, EMPTY, ops + [FlushOp(clock)]);
            && s.packets == [] && s.pending == []
            && ExportSources(s.exported) == Handled(ops)
            && (forall e <- s.exported :: ExportOk(c, e))
  {
    var all := ops + [FlushOp(clock)];
    assert all[..|all| - 1] == ops;
    var s := Run(c, EMPTY, all);
    assert s.packets == [] && s.pending == [];
    assert Handled(all) == Handled(ops);
    hide Run, Handled, ExportSources, ExportOk, PendingOk, Fresh, Claims;
    RunKeeps(c, all);
    PendingSourcesNil();
  }

  // ---- Records: what an export depends on ----

  /** An export's record is a function of the agent's original and, if there is one, of the fields
      of the packet that carries it; a record without a packet shows no trace of any packet. */
  lemma NothingLeaksFromFailedMatching(c: Config, ops: seq<Op>)
    requires c.Ok()
    ensures forall e <- Run(c, EMPTY, ops).exported ::
              && Get(e.rec, "PcapAnnotated") == Bool(e.wire.Some?)
              && e.rec == match e.wire
                          case None => Unmatched(c.env, e.original)
                          case Some(w) => AnnotatedRecord(c.env, Enrich(c.env, c.filters, e.original), w)
  {
    RunKeeps(c, ops);
    hide Run, Enrich, AnnotatedRecord, Unmatched;
    forall e <- Run(c, EMPTY, ops).exported ensures Get(e.rec, "PcapAnnotated") == Bool(e.wire.Some?) {
      if e.wire.Some? { ExportKeepsId(c.env, Enrich(c.env, c.filters, e.original), e.wire.value); }
      else { ExportKeepsId(c.env, e.original, e.original); }
    }
  }

  /** Waiting records are untouched by matching, and one that misses part of its tuple is latched
      as soon as two accepted packets in the buffer belong to different connections. */
  lemma WaitingRecordsAreHonest(c: Config, ops: seq<Op>)
    requires c.Ok()
    ensures var s := Run(c, EMPTY, ops);
            forall pt <- s.pending ::
              && pt.data == Enrich(c.env, c.filters, pt.original)
              && (!Complete(c, pt.original) && Competing(c, Cores(s.packets), pt.at, pt.data) ==> pt.ambiguous)
              && (Complete(c, pt.original) ==> !pt.ambiguous)
  {
    hide Run, Enrich, Complete, Competing;
    RunKeeps(c, ops);
  }

  /** For a kernel-verified record the exported connection is the same whether or not a packet was
      found: the record's own, turned into network direction. */
  lemma OrientationIsStable(c: Config, ops: seq<Op>, e: Export)
    requires c.Ok() && e in Run(c, EMPTY, ops).exported && Verified(c.env, e.original)
    ensures TupleOf(EndpointsOf(c.env, e.rec)) ==
            var t := TupleOf(EndpointsOf(c.env, e.original)).value;
            Some(if DirectionOf(e.original) == Read then Reverse(t) else t)
  {
    RunKeeps(c, ops);
    hide Run, AnnotatedRecord, Unmatched, EndpointsOf, DirectionOf;
    if e.wire.Some? {
      EnrichKeepsWhatIsKnown(c.env, c.filters, e.original);
      hide Enrich;
      OrientationIndependentOfMatching(c.env, e.original, e.wire.value);
    } else {
      hide Enrich;
      UnmatchedOrientation(c.env, e.original);
    }
  }

  lemma UnmatchedOrientation(env: Env, m: GenericMap)
    requires Verified(env, m)
    ensures TupleOf(EndpointsOf(env, Unmatched(env, m))) ==
            var t := TupleOf(EndpointsOf(env, m)).value;
            Some(if DirectionOf(m) == Read then Reverse(t) else t)
  {
    PrepareUnmatchedMeaning(env, m);
    hide PrepareUnmatched, IsTupleKey, IsEndpointK8s, HasPrefix, DirectionOf;
    KeysOfNote();
    SameTuple(env, Unmatched(env, m), PrepareUnmatched(env, m));
  }

  // ---- The ambiguity latch ----

  /** A latched record comes out of a pass exactly as it went in. */
  lemma {:induction false} PassKeepsLatched(c: Config, packets: seq<Packet>, pending: seq<Pending>, clock: Clock, k: nat, final: bool, pt: Pending)
    requires c.Ok() && forall p <- pending :: Fresh(c, p)
    requires pt in pending && pt.ambiguous && pt.data == Enrich(c.env, c.filters, pt.original)
    ensures pt in MatchPass(c, packets, pending, clock, k, final).kept
    decreases |pending|
  {
    hide Try, Fresh, Enrich, Claim, ExportClaim, ExportOk;
    var o := Try(c, packets, pending[0], clock(k), final);
    if o.matched.Some? { TryAccepted(c, packets, pending[0], clock(k), final); }
    else { TryRefused(c, packets, pending[0], clock(k), final); }
    if pt == pending[0] {
      LatchedStays(c, packets, pt, clock(k), final);
      assert [o.pt][0] == pt;
    } else {
      assert pt in pending[1..];
      PassKeepsLatched(c, o.packets, pending[1..], clock, k + 1, final, pt);
    }
  }

  lemma LatchedStays(c: Config, packets: seq<Packet>, pt: Pending, clock: Reading, final: bool)
    requires c.Ok() && pt.ambiguous && pt.data == Enrich(c.env, c.filters, pt.original)
    ensures Try(c, packets, pt, clock, final) == Outcome(packets, pt, None)
  {
    EnrichIdempotent(c.env, c.filters, pt.original);
    hide Scan, Enrich, Complete, MinAnnotationScore, AnnotatedData, AnnotatedRecord;
  }

  /** The record is still waiting, latched, or has been exported without a packet. */
  ghost predicate Unannotated(s: State, pt: Pending) {
    pt in s.pending || exists e :: e in s.exported && e.id == pt.id && e.original == pt.original && e.wire.None?
  }

  lemma {:induction false} UnmatchedExportOf(c: Config, pts: seq<Pending>, pt: Pending)
    requires pt in pts
    ensures UnmatchedExport(c, pt) in UnmatchedExports(c, pts)
  {
    hide UnmatchedExport;
    var n := |pts| - 1;
    assert pts == pts[..n] + [pts[n]];
    if pt != pts[n] { UnmatchedExportOf(c, pts[..n], pt); }
  }

  lemma MatchAllLatched(c: Config, s: State, clock: Clock, final: bool, pt: Pending)
    requires c.Ok() && Books(c, s) && pt.ambiguous && pt.data == Enrich(c.env, c.filters, pt.original)
    requires Unannotated(s, pt)
    ensures Unannotated(MatchAll(c, s, clock, final), pt)
  {
    hide MatchPass, Fresh, Enrich, ExportOk, Claims, ExportClaims;
    if pt in s.pending { PassKeepsLatched(c, s.packets, s.pending, clock, 0, final, pt); }
  }

  lemma FlushExpiredLatched(c: Config, s: State, now: int, clock: Clock, pt: Pending)
    requires c.Ok() && Books(c, s) && pt.ambiguous && pt.data == Enrich(c.env, c.filters, pt.original)
    requires Unannotated(s, pt)
    ensures Unannotated(FlushExpired(c, s, now, clock), pt)
  {
    hide MatchAll, Books, Enrich, Unmatched, Expired, SelectPackets, SelectPending, UnmatchedExports;
    var s1 := s;
    if s.packets != [] {
      MatchAllLatched(c, s, clock, false, pt);
      s1 := ExpirePackets(c, MatchAll(c, s, clock, false), now);
    }
    if pt in s1.pending {
      SelectPendingMembers(c, s1.pending, now, Expired(c, pt.at.receivedAt, now));
      if Expired(c, pt.at.receivedAt, now) {
        UnmatchedExportOf(c, SelectPending(c, s1.pending, now, true), pt);
        assert UnmatchedExport(c, pt) in FlushExpired(c, s, now, clock).exported;
      }
    }
  }

  lemma StepLatched(c: Config, s: State, op: Op, pt: Pending)
    requires c.Ok() && Inv(c, s) && pt.ambiguous && pt.data == Enrich(c.env, c.filters, pt.original)
    requires Unannotated(s, pt)
    ensures Unannotated(Step(c, s, op), pt)
  {
    hide FlushExpired, MatchAll, Books, Enrich, Try, PendingOk, UnmatchedExports, Unmatched, Cores;
    match op
    case EnqueueOp(now, fields, dataB64, first, second) =>
      var data := c.env.decode(dataB64);
      if data.Some? {
        var core := EnqueueCore(now, fields, data.value);
        FlushExpiredLatched(c, s, now, first, pt);
        FlushExpiredKeeps(c, s, now, first);
        AppendKeeps(c, FlushExpired(c, s, now, first), core);
        MatchAllLatched(c, Append(c, FlushExpired(c, s, now, first), core), second, false, pt);
      }
    case HandleOp(now, m, id, first, reading) =>
      FlushExpiredLatched(c, s, now, first, pt);
    case TickOp(now, first) =>
      FlushExpiredLatched(c, s, now, first, pt);
    case FlushOp(first) =>
      MatchAllLatched(c, s, first, true, pt);
      var s1 := MatchAll(c, s, first, true);
      if pt in s1.pending {
        UnmatchedExportOf(c, s1.pending, pt);
        assert UnmatchedExport(c, pt) in FlushAll(c, s, first).exported;
      }
  }

  lemma {:induction false} RunLatched(c: Config, ops: seq<Op>, more: seq<Op>, pt: Pending)
    requires c.Ok() && pt in Run(c, EMPTY, ops).pending && pt.ambiguous
    ensures Unannotated(Run(c, EMPTY, ops + more), pt)
    decreases |more|
  {
    hide Step, Inv, Unannotated;
    if more == [] {
      assert ops + more == ops;
      assert Unannotated(Run(c, EMPTY, ops), pt) by { PendingIsUnannotated(Run(c, EMPTY, ops), pt); }
    } else {
      var init := more[..|more| - 1];
      assert (ops + more)[..|ops + more| - 1] == ops + init;
      RunLatched(c, ops, init, pt);
      RunKeeps(c, ops + init);
      WaitingRecordsAreHonest(c, ops);
      StepLatched(c, Run(c, EMPTY, ops + init), more[|more| - 1], pt);
    }
  }

  lemma PendingIsUnannotated(s: State, pt: Pending)
    requires pt in s.pending
    ensures Unannotated(s, pt)
  {
  }

  /** Once a record is latched it is never exported with a packet, whatever happens later and
      however many of the competing packets expire. */
  lemma AmbiguityIsFinal(c: Config, ops: seq<Op>, more: seq<Op>)
    requires c.Ok() && DistinctIds(ops + more)
    ensures forall pt, e :: pt in Run(c, EMPTY, ops).pending && pt.ambiguous
                            && e in Run(c, EMPTY, ops + more).exported && e.id == pt.id
                            ==> e.wire.None? && e.rec == Unmatched(c.env, pt.original)
  {
    hide Run, Unmatched, Enrich, AnnotatedRecord, DistinctIds, Timeline, Inv, Unannotated;
    var s := Run(c, EMPTY, ops + more);
    AnnotationBijection(c, ops + more);
    NothingLeaksFromFailedMatching(c, ops + more);
    forall pt, e | pt in Run(c, EMPTY, ops).pending && pt.ambiguous && e in s.exported && e.id == pt.id
      ensures e.wire.None? && e.original == pt.original
    {
      RunLatched(c, ops, more, pt);
      OnlyExport(s, pt, e);
    }
  }

  /** A record that is unannotated, and exported, is exported as just that. */
  lemma OnlyExport(s: State, pt: Pending, e: Export)
    requires OneToOne(Timeline(s), s.exported)
    requires forall pt <- s.pending, k | 0 <= k < |s.exported| :: s.exported[k].id != pt.id
    requires Unannotated(s, pt) && e in s.exported && e.id == pt.id
    ensures e.wire.None? && e.original == pt.original
  {
    hide Timeline, Carries;
    var k :| 0 <= k < |s.exported| && s.exported[k] == e;
    assert pt !in s.pending;
    var f :| f in s.exported && f.id == pt.id && f.original == pt.original && f.wire.None?;
    var l :| 0 <= l < |s.exported| && s.exported[l] == f;
    assert k == l;
  }
}
