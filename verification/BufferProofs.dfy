/** What every operation of the buffer keeps, and what follows for whole runs. */
module BufferProofs {
  import opened Records
  import opened Scoring
  import opened Exports
  import opened BufferSpec
  import opened ScanProofs

  // ---- Accounting ----

  type Bag = multiset<(nat, GenericMap)>

  /** Which record an annotated packet carries. */
  function Claim(p: Packet): Bag {
    if p.mark.Some? then multiset{(p.mark.value.id, p.core.fields)} else multiset{}
  }

  /** Which packet an exported record says it came with. */
  function ExportClaim(e: Export): Bag {
    if e.wire.Some? then multiset{(e.id, e.wire.value)} else multiset{}
  }

  function ExportSource(e: Export): Bag { multiset{(e.id, e.original)} }

  function PendingSource(pt: Pending): Bag { multiset{(pt.id, pt.original)} }

  function Claims(ps: seq<Packet>): Bag {
    if ps == [] then multiset{} else Claims(ps[..|ps| - 1]) + Claim(ps[|ps| - 1])
  }

  lemma {:induction false} ClaimsConcat(a: seq<Packet>, b: seq<Packet>)
    ensures Claims(a + b) == Claims(a) + Claims(b)
  {
    hide Claim;
    if b == [] { assert a + b == a; }
    else {
      ClaimsConcat(a, b[..|b| - 1]);
      assert (a + b)[..|a + b| - 1] == a + b[..|b| - 1];
    }
  }

  lemma ClaimsOne(x: Packet)
    ensures Claims([x]) == Claim(x)
  {
    hide Claim;
    assert [x][..0] == [];
  }

  function ExportClaims(es: seq<Export>): Bag {
    if es == [] then multiset{} else ExportClaims(es[..|es| - 1]) + ExportClaim(es[|es| - 1])
  }

  lemma {:induction false} ExportClaimsConcat(a: seq<Export>, b: seq<Export>)
    ensures ExportClaims(a + b) == ExportClaims(a) + ExportClaims(b)
  {
    hide ExportClaim;
    if b == [] { assert a + b == a; }
    else {
      ExportClaimsConcat(a, b[..|b| - 1]);
      assert (a + b)[..|a + b| - 1] == a + b[..|b| - 1];
    }
  }

  lemma ExportClaimsOne(x: Export)
    ensures ExportClaims([x]) == ExportClaim(x)
  {
    hide ExportClaim;
    assert [x][..0] == [];
  }

  function ExportSources(es: seq<Export>): Bag {
    if es == [] then multiset{} else ExportSources(es[..|es| - 1]) + ExportSource(es[|es| - 1])
  }

  lemma {:induction false} ExportSourcesConcat(a: seq<Export>, b: seq<Export>)
    ensures ExportSources(a + b) == ExportSources(a) + ExportSources(b)
  {
    hide ExportSource;
    if b == [] { assert a + b == a; }
    else {
      ExportSourcesConcat(a, b[..|b| - 1]);
      assert (a + b)[..|a + b| - 1] == a + b[..|b| - 1];
    }
  }

  lemma ExportSourcesOne(x: Export)
    ensures ExportSources([x]) == ExportSource(x)
  {
    hide ExportSource;
    assert [x][..0] == [];
  }

  function PendingSources(ps: seq<Pending>): Bag {
    if ps == [] then multiset{} else PendingSources(ps[..|ps| - 1]) + PendingSource(ps[|ps| - 1])
  }

  lemma {:induction false} PendingSourcesConcat(a: seq<Pending>, b: seq<Pending>)
    ensures PendingSources(a + b) == PendingSources(a) + PendingSources(b)
  {
    hide PendingSource;
    if b == [] { assert a + b == a; }
    else {
      PendingSourcesConcat(a, b[..|b| - 1]);
      assert (a + b)[..|a + b| - 1] == a + b[..|b| - 1];
    }
  }

  lemma PendingSourcesOne(x: Pending)
    ensures PendingSources([x]) == PendingSource(x)
  {
    hide PendingSource;
    assert [x][..0] == [];
  }

  lemma {:induction false} ClaimsMark(ps: seq<Packet>, i: nat, p: Packet)
    requires i < |ps| && ps[i].mark.None? && p.mark.Some? && p.core == ps[i].core
    ensures Claims(ps[i := p]) == Claims(ps) + Claim(p)
  {
    hide Claim;
    var n := |ps| - 1;
    var qs := ps[i := p];
    assert Claim(ps[i]) == multiset{} by { NoClaim(ps[i]); }
    if i == n {
      assert qs[..n] == ps[..n];
    } else {
      ClaimsMark(ps[..n], i, p);
      assert qs[..n] == ps[..n][i := p] && qs[n] == ps[n];
    }
  }

  lemma NoClaim(x: Packet)
    requires x.mark.None?
    ensures Claim(x) == multiset{}
  {
  }

  // ---- Timelines ----

  /** All packets ever accepted, in order: the written ones and then the buffered ones. */
  function Timeline(s: State): seq<Packet> { s.written + s.packets }

  /** Packets stay where they are, and an annotation never changes once it is set. */
  ghost predicate Extends(a: seq<Packet>, b: seq<Packet>) {
    |a| <= |b| && forall i :: 0 <= i < |a| ==>
      b[i].core == a[i].core && (a[i].mark.Some? ==> b[i] == a[i])
  }

  // ---- One attempt ----

  /** A waiting record is its original plus filter hints, and is latched once two connections compete. */
  ghost predicate PendingOk(c: Config, cores: seq<WireCore>, pt: Pending) {
    && pt.data == Enrich(c.env, c.filters, pt.original)
    && (Complete(c, pt.original) ==> !pt.ambiguous)
    && (!Complete(c, pt.original) && Competing(c, cores, pt.at, pt.data) ==> pt.ambiguous)
  }

  /** What is written for a record depends only on the original, and on the packet if there is one;
      a complete record only ever comes with its own connection. */
  ghost predicate ExportOk(c: Config, e: Export) {
    match e.wire
    case None => e.rec == Unmatched(c.env, e.original)
    case Some(w) =>
      && e.rec == AnnotatedRecord(c.env, Enrich(c.env, c.filters, e.original), w)
      && (Complete(c, e.original) ==>
            TupleOf(EndpointsOf(c.env, w)) ==
            if DirectionOf(e.original) == Read then Some(Reverse(TupleOf(EndpointsOf(c.env, e.original)).value))
            else TupleOf(EndpointsOf(c.env, e.original)))
  }

  /** A record before its first attempt, or after any number of them. */
  ghost predicate Fresh(c: Config, pt: Pending) {
    && (pt.data == pt.original || pt.data == Enrich(c.env, c.filters, pt.original))
    && (Complete(c, pt.original) ==> !pt.ambiguous)
  }

  lemma TryRefused(c: Config, packets: seq<Packet>, pt: Pending, clock: Reading, final: bool)
    requires c.Ok() && Fresh(c, pt)
    requires Try(c, packets, pt, clock, final).matched.None?
    ensures var o := Try(c, packets, pt, clock, final);
            && o.packets == packets && PendingOk(c, Cores(packets), o.pt)
            && o.pt == pt.(data := o.pt.data, ambiguous := o.pt.ambiguous)
            && (pt.ambiguous ==> o.pt.ambiguous)
  {
    var i := TryMatchesExactlyTheWinner(c, packets, pt, clock, final);
    EnrichIdempotent(c.env, c.filters, pt.original);
    hide Try, Enrich, Complete, Competing, Winner;
  }

  lemma TryAccepted(c: Config, packets: seq<Packet>, pt: Pending, clock: Reading, final: bool)
    requires c.Ok() && Fresh(c, pt)
    requires Try(c, packets, pt, clock, final).matched.Some?
    ensures var o := Try(c, packets, pt, clock, final);
            var e := o.matched.value;
            && e.id == pt.id && e.original == pt.original && e.wire.Some? && ExportOk(c, e)
            && !pt.ambiguous
            && |o.packets| == |packets| && Cores(o.packets) == Cores(packets) && Extends(packets, o.packets)
            && Claims(o.packets) == Claims(packets) + ExportClaim(e)
  {
    var o := Try(c, packets, pt, clock, final);
    var i := TryMatchesExactlyTheWinner(c, packets, pt, clock, final);
    hide Try, Enrich, Competing, AnnotatedRecord, AnnotatedData, EndpointsOf, DirectionOf, Winner, Complete;
    MarkingExtends(packets, i, o.packets[i]);
    EnrichIdempotent(c.env, c.filters, pt.original);
    hide Cores, Extends, Claims, ExportOk;
    MatchedExportOk(c, packets, pt, i, o.matched.value);
  }

  lemma MarkingExtends(ps: seq<Packet>, i: nat, p: Packet)
    requires i < |ps| && ps[i].mark.None? && p.mark.Some? && p.core == ps[i].core
    ensures Cores(ps[i := p]) == Cores(ps) && Extends(ps, ps[i := p])
    ensures Claims(ps[i := p]) == Claims(ps) + Claim(p)
  {
    hide Claims, Claim;
    ClaimsMark(ps, i, p);
    var qs := ps[i := p];
    forall k | 0 <= k < |ps| ensures Cores(qs)[k] == Cores(ps)[k] {
      assert qs[k].core == ps[k].core;
    }
    hide Cores;
  }

  lemma MatchedExportOk(c: Config, packets: seq<Packet>, pt: Pending, i: int, e: Export)
    requires c.Ok() && Fresh(c, pt) && 0 <= i < |packets| && e.original == pt.original
    requires Winner(c, packets, pt.at, Enrich(c.env, c.filters, pt.original), i)
    requires e.wire == Some(packets[i].core.fields)
    requires e.rec == AnnotatedRecord(c.env, Enrich(c.env, c.filters, pt.original), packets[i].core.fields)
    ensures ExportOk(c, e)
  {
    hide Enrich, AnnotatedRecord, EndpointsOf, DirectionOf, Winner;
    if Complete(c, pt.original) {
      EnrichKeepsWhatIsKnown(c.env, c.filters, pt.original);
      WinnerCarriesTheConnection(c, packets, pt.at, pt.original, i);
    }
  }

  lemma WinnerCarriesTheConnection(c: Config, packets: seq<Packet>, at: Arrival, m: GenericMap, i: int)
    requires Complete(c, m) && Winner(c, packets, at, m, i)
    ensures TupleOf(EndpointsOf(c.env, packets[i].core.fields)) ==
            if DirectionOf(m) == Read then Some(Reverse(TupleOf(EndpointsOf(c.env, m)).value))
            else TupleOf(EndpointsOf(c.env, m))
  {
    ScoreMeaning(c.env, c.filters, packets[i].core, at, m);
    hide Score, EndpointsOf, DirectionOf;
  }

  // ---- One pass ----

  /** A pass only annotates packets, and leaves every waiting record scanned against all of them. */
  lemma PassKeeps(c: Config, packets: seq<Packet>, pending: seq<Pending>, clock: Clock, k: nat, final: bool)
    requires c.Ok() && forall pt <- pending :: Fresh(c, pt)
    ensures var r := MatchPass(c, packets, pending, clock, k, final);
            && |r.packets| == |packets| && Cores(r.packets) == Cores(packets) && Extends(packets, r.packets)
            && (forall pt <- r.kept :: PendingOk(c, Cores(packets), pt))
            && (forall e <- r.exports :: ExportOk(c, e) && e.wire.Some?)
  {
    hide MatchPass, PendingOk, ExportOk, Fresh, Extends, Cores;
    PassExtends(c, packets, pending, clock, k, final);
    PassKept(c, packets, pending, clock, k, final);
    PassExports(c, packets, pending, clock, k, final);
  }

  lemma {:induction false} PassExtends(c: Config, packets: seq<Packet>, pending: seq<Pending>, clock: Clock, k: nat, final: bool)
    requires c.Ok() && forall pt <- pending :: Fresh(c, pt)
    ensures var r := MatchPass(c, packets, pending, clock, k, final);
            |r.packets| == |packets| && Cores(r.packets) == Cores(packets) && Extends(packets, r.packets)
    decreases |pending|
  {
    hide Try, PendingOk, ExportOk, Fresh, Cores, Claims;
    if pending != [] {
      hide Extends;
      var o := Try(c, packets, pending[0], clock(k), final);
      PassExtends(c, o.packets, pending[1..], clock, k + 1, final);
      if o.matched.Some? {
        TryAccepted(c, packets, pending[0], clock(k), final);
        ExtendsTransitive(packets, o.packets, MatchPass(c, o.packets, pending[1..], clock, k + 1, final).packets);
      } else {
        TryRefused(c, packets, pending[0], clock(k), final);
      }
    }
  }

  lemma {:induction false} PassKept(c: Config, packets: seq<Packet>, pending: seq<Pending>, clock: Clock, k: nat, final: bool)
    requires c.Ok() && forall pt <- pending :: Fresh(c, pt)
    ensures forall pt <- MatchPass(c, packets, pending, clock, k, final).kept :: PendingOk(c, Cores(packets), pt)
    decreases |pending|
  {
    if pending != [] {
      hide Try, PendingOk, ExportOk, Fresh, Cores, Claims, Extends;
      var o := Try(c, packets, pending[0], clock(k), final);
      PassKept(c, o.packets, pending[1..], clock, k + 1, final);
      if o.matched.Some? {
        TryAccepted(c, packets, pending[0], clock(k), final);
      } else {
        TryRefused(c, packets, pending[0], clock(k), final);
      }
    }
  }

  lemma {:induction false} PassExports(c: Config, packets: seq<Packet>, pending: seq<Pending>, clock: Clock, k: nat, final: bool)
    requires c.Ok() && forall pt <- pending :: Fresh(c, pt)
    ensures forall e <- MatchPass(c, packets, pending, clock, k, final).exports :: ExportOk(c, e) && e.wire.Some?
    decreases |pending|
  {
    if pending != [] {
      hide Try, PendingOk, ExportOk, Fresh, Cores, Claims, Extends;
      var o := Try(c, packets, pending[0], clock(k), final);
      PassExports(c, o.packets, pending[1..], clock, k + 1, final);
      if o.matched.Some? {
        TryAccepted(c, packets, pending[0], clock(k), final);
      }
    }
  }

  /** Each annotation made in a pass belongs to one record exported in it. */
  lemma {:induction false} PassClaims(c: Config, packets: seq<Packet>, pending: seq<Pending>, clock: Clock, k: nat, final: bool)
    requires c.Ok() && forall pt <- pending :: Fresh(c, pt)
    ensures var r := MatchPass(c, packets, pending, clock, k, final);
            Claims(r.packets) == Claims(packets) + ExportClaims(r.exports)
    decreases |pending|
  {
    if pending != [] {
      hide Try, PendingOk, ExportOk, Fresh, Claim, ExportClaim, Extends, Cores, Claims;
      var o := Try(c, packets, pending[0], clock(k), final);
      var rest := MatchPass(c, o.packets, pending[1..], clock, k + 1, final);
      PassClaims(c, o.packets, pending[1..], clock, k + 1, final);
      if o.matched.Some? {
        var e := o.matched.value;
        TryAccepted(c, packets, pending[0], clock(k), final);
        ExportClaimsConcat([e], rest.exports);
        ExportClaimsOne(e);
        hide ExportClaims;
        BagsAssociate(Claims(packets), ExportClaim(e), ExportClaims(rest.exports));
      } else {
        TryRefused(c, packets, pending[0], clock(k), final);
      }
    }
  }

  lemma BagsAssociate(a: Bag, b: Bag, c: Bag)
    ensures (a + b) + c == a + (b + c) && a + (b + c) == b + (a + c)
  {
  }

  /** No waiting record is lost or doubled in a pass. */
  lemma {:induction false} PassSources(c: Config, packets: seq<Packet>, pending: seq<Pending>, clock: Clock, k: nat, final: bool)
    requires c.Ok() && forall pt <- pending :: Fresh(c, pt)
    ensures var r := MatchPass(c, packets, pending, clock, k, final);
            ExportSources(r.exports) + PendingSources(r.kept) == PendingSources(pending)
    decreases |pending|
  {
    if pending != [] {
      hide Try, PendingOk, ExportOk, Fresh, ExportSource, PendingSource, Extends, Cores;
      var pt := pending[0];
      var o := Try(c, packets, pt, clock(k), final);
      var rest := MatchPass(c, o.packets, pending[1..], clock, k + 1, final);
      PassSources(c, o.packets, pending[1..], clock, k + 1, final);
      assert pending == [pt] + pending[1..];
      PendingSourcesConcat([pt], pending[1..]);
      PendingSourcesOne(pt);
      BagsAssociate(PendingSource(pt), ExportSources(rest.exports), PendingSources(rest.kept));
      if o.matched.Some? {
        var e := o.matched.value;
        TryAccepted(c, packets, pt, clock(k), final);
        ExportSourcesConcat([e], rest.exports);
        ExportSourcesOne(e);
        SameSource(e, pt);
        hide ExportSources, PendingSources;
      } else {
        TryRefused(c, packets, pt, clock(k), final);
        PendingSourcesConcat([o.pt], rest.kept);
        PendingSourcesOne(o.pt);
        SamePendingSource(o.pt, pt);
        hide ExportSources, PendingSources;
      }
    }
  }

  lemma SameSource(e: Export, pt: Pending)
    requires e.id == pt.id && e.original == pt.original
    ensures ExportSource(e) == PendingSource(pt)
  {
  }

  lemma SamePendingSource(a: Pending, b: Pending)
    requires a.id == b.id && a.original == b.original
    ensures PendingSource(a) == PendingSource(b)
  {
  }

  lemma ExtendsTransitive(a: seq<Packet>, b: seq<Packet>, c: seq<Packet>)
    requires Extends(a, b) && Extends(b, c)
    ensures Extends(a, c)
  {
  }

  // ---- The invariant ----

  ghost predicate Books(c: Config, s: State) {
    && (forall pt <- s.pending :: Fresh(c, pt))
    && (forall e <- s.exported :: ExportOk(c, e))
    && Claims(Timeline(s)) == ExportClaims(s.exported)
  }

  ghost predicate Inv(c: Config, s: State) {
    && Books(c, s)
    && (forall pt <- s.pending :: PendingOk(c, Cores(s.packets), pt))
    && |s.packets| <= MAX_BUFFERED
  }

  /** Every record that has come in: exported or still waiting. */
  function AllRecords(s: State): Bag { ExportSources(s.exported) + PendingSources(s.pending) }

  lemma AreFresh(c: Config, cores: seq<WireCore>, pts: seq<Pending>)
    requires forall pt <- pts :: PendingOk(c, cores, pt)
    ensures forall pt <- pts :: Fresh(c, pt)
  {
  }

  lemma MatchAllKeeps(c: Config, s: State, clock: Clock, final: bool)
    requires c.Ok() && Books(c, s)
    ensures var s' := MatchAll(c, s, clock, final);
            && Books(c, s') && (forall pt <- s'.pending :: PendingOk(c, Cores(s'.packets), pt))
            && AllRecords(s') == AllRecords(s)
            && s'.written == s.written && Cores(s'.packets) == Cores(s.packets) && Extends(s.packets, s'.packets)
            && s.exported <= s'.exported
  {
    hide MatchPass, Claims, ExportClaims, ExportSources, PendingSources, ExportOk, Cores, PendingOk, Fresh, Extends;
    var r := MatchPass(c, s.packets, s.pending, clock, 0, final);
    PassKeeps(c, s.packets, s.pending, clock, 0, final);
    PassClaims(c, s.packets, s.pending, clock, 0, final);
    PassSources(c, s.packets, s.pending, clock, 0, final);
    ClaimsConcat(s.written, s.packets);
    ClaimsConcat(s.written, r.packets);
    ExportClaimsConcat(s.exported, r.exports);
    ExportSourcesConcat(s.exported, r.exports);
    AreFresh(c, Cores(s.packets), r.kept);
    BagsAssociate(Claims(s.written), Claims(s.packets), ExportClaims(r.exports));
    BagsAssociate(ExportSources(s.exported), ExportSources(r.exports), PendingSources(r.kept));
  }

  // ---- Expiry ----

  lemma {:induction false} SelectPacketsSubset(c: Config, ps: seq<Packet>, now: int, expired: bool)
    ensures var kept := SelectPackets(c, ps, now, expired);
            |kept| <= |ps| && forall x :: x in Cores(kept) ==> x in Cores(ps)
  {
    if ps != [] {
      hide Expired, Cores;
      var n := |ps| - 1;
      SelectPacketsSubset(c, ps[..n], now, expired);
      var kept := SelectPackets(c, ps[..n], now, expired);
      assert Cores(kept + [ps[n]]) == Cores(kept) + [ps[n].core];
      assert Cores(ps) == Cores(ps[..n]) + [ps[n].core];
    }
  }

  lemma {:induction false} SelectPacketsClaims(c: Config, ps: seq<Packet>, now: int)
    ensures Claims(SelectPackets(c, ps, now, true)) + Claims(SelectPackets(c, ps, now, false)) == Claims(ps)
  {
    hide Claim, Expired;
    if ps != [] {
      var n := |ps| - 1;
      SelectPacketsClaims(c, ps[..n], now);
      var out, kept := SelectPackets(c, ps[..n], now, true), SelectPackets(c, ps[..n], now, false);
      ClaimsConcat(out, [ps[n]]);
      ClaimsConcat(kept, [ps[n]]);
      ClaimsOne(ps[n]);
      BagsAssociate(Claims(out), Claims(kept), Claim(ps[n]));
      BagsAssociate(Claims(kept), Claims(out), Claim(ps[n]));
    }
  }

  lemma ExpirePacketsKeeps(c: Config, s: State, now: int)
    requires Books(c, s) && forall pt <- s.pending :: PendingOk(c, Cores(s.packets), pt)
    ensures var s' := ExpirePackets(c, s, now);
            && Books(c, s') && (forall pt <- s'.pending :: PendingOk(c, Cores(s'.packets), pt))
            && AllRecords(s') == AllRecords(s) && |s'.packets| <= |s.packets|
  {
    hide SelectPackets, Claims, ExportClaims, Cores, Fresh, ExportOk, PendingOk, ExportSources, PendingSources;
    ExpiryKeepsClaims(c, s, now);
    SelectPacketsSubset(c, s.packets, now, false);
    forall pt <- s.pending ensures PendingOk(c, Cores(ExpirePackets(c, s, now).packets), pt) {
      FewerCoresKeepOk(c, Cores(ExpirePackets(c, s, now).packets), Cores(s.packets), pt);
    }
    hide Timeline;
  }

  lemma ExpiryKeepsClaims(c: Config, s: State, now: int)
    ensures Claims(Timeline(ExpirePackets(c, s, now))) == Claims(Timeline(s))
  {
    hide SelectPackets, Claims;
    var out, kept := SelectPackets(c, s.packets, now, true), SelectPackets(c, s.packets, now, false);
    SelectPacketsClaims(c, s.packets, now);
    ClaimsConcat(s.written, s.packets);
    ClaimsConcat(s.written + out, kept);
    ClaimsConcat(s.written, out);
    BagsAssociate(Claims(s.written), Claims(out), Claims(kept));
  }

  lemma FewerCoresKeepOk(c: Config, fewer: seq<WireCore>, cores: seq<WireCore>, pt: Pending)
    requires PendingOk(c, cores, pt) && forall x :: x in fewer ==> x in cores
    ensures PendingOk(c, fewer, pt)
  {
    hide Competing, Enrich, Complete;
    if Competing(c, fewer, pt.at, pt.data) { CompetingMonotone(c, fewer, cores, pt.at, pt.data); }
  }

  lemma {:induction false} UnmatchedExportsFacts(c: Config, pts: seq<Pending>)
    ensures var es := UnmatchedExports(c, pts);
            && ExportClaims(es) == multiset{} && ExportSources(es) == PendingSources(pts)
            && (forall e <- es :: ExportOk(c, e) && e.wire.None?)
  {
    if pts != [] {
      var n := |pts| - 1;
      UnmatchedExportsFacts(c, pts[..n]);
      var es, e := UnmatchedExports(c, pts[..n]), UnmatchedExport(c, pts[n]);
      assert (es + [e])[..|es|] == es;
    }
  }

  lemma {:induction false} SelectPendingSources(c: Config, pts: seq<Pending>, now: int)
    ensures PendingSources(SelectPending(c, pts, now, true)) + PendingSources(SelectPending(c, pts, now, false))
            == PendingSources(pts)
  {
    hide PendingSource, Expired;
    if pts != [] {
      var n := |pts| - 1;
      SelectPendingSources(c, pts[..n], now);
      var out, kept := SelectPending(c, pts[..n], now, true), SelectPending(c, pts[..n], now, false);
      PendingSourcesConcat(out, [pts[n]]);
      PendingSourcesConcat(kept, [pts[n]]);
      PendingSourcesOne(pts[n]);
      BagsAssociate(PendingSources(out), PendingSources(kept), PendingSource(pts[n]));
      BagsAssociate(PendingSources(kept), PendingSources(out), PendingSource(pts[n]));
    }
  }

  lemma {:induction false} SelectPendingMembers(c: Config, pts: seq<Pending>, now: int, expired: bool)
    ensures forall pt :: pt in SelectPending(c, pts, now, expired)
                         <==> pt in pts && Expired(c, pt.at.receivedAt, now) == expired
  {
    hide Expired;
    if pts != [] {
      var n := |pts| - 1;
      SelectPendingMembers(c, pts[..n], now, expired);
      assert pts == pts[..n] + [pts[n]];
    }
  }

  lemma ExpirePendingKeeps(c: Config, s: State, now: int)
    requires Books(c, s) && forall pt <- s.pending :: PendingOk(c, Cores(s.packets), pt)
    ensures var s' := ExpirePending(c, s, now);
            && Books(c, s') && (forall pt <- s'.pending :: PendingOk(c, Cores(s'.packets), pt))
            && AllRecords(s') == AllRecords(s) && s'.packets == s.packets && s'.written == s.written
  {
    var out, kept := SelectPending(c, s.pending, now, true), SelectPending(c, s.pending, now, false);
    SelectPendingSources(c, s.pending, now);
    SelectPendingMembers(c, s.pending, now, false);
    UnmatchedExportsFacts(c, out);
    ExportClaimsConcat(s.exported, UnmatchedExports(c, out));
    ExportSourcesConcat(s.exported, UnmatchedExports(c, out));
    BagsAssociate(ExportSources(s.exported), PendingSources(out), PendingSources(kept));
    hide SelectPending, UnmatchedExports, Claims, ExportClaims, ExportSources, PendingSources, Cores, PendingOk, Fresh, ExportOk;
  }

  lemma FlushExpiredKeeps(c: Config, s: State, now: int, clock: Clock)
    requires c.Ok() && Inv(c, s)
    ensures Inv(c, FlushExpired(c, s, now, clock)) && AllRecords(FlushExpired(c, s, now, clock)) == AllRecords(s)
  {
    hide MatchAll, ExpirePackets, ExpirePending, AllRecords, Cores, Books, PendingOk;
    var s1 := s;
    if s.packets != [] {
      var m := MatchAll(c, s, clock, false);
      MatchAllKeeps(c, s, clock, false);
      assert |m.packets| == |s.packets| by { SameLength(m.packets, s.packets); }
      ExpirePacketsKeeps(c, m, now);
      s1 := ExpirePackets(c, m, now);
    }
    ExpirePendingKeeps(c, s1, now);
  }

  lemma SameLength(a: seq<Packet>, b: seq<Packet>)
    requires Cores(a) == Cores(b)
    ensures |a| == |b|
  {
    assert |Cores(a)| == |a| && |Cores(b)| == |b|;
  }

  // ---- Every operation keeps the invariant ----

  lemma AppendKeeps(c: Config, s: State, core: WireCore)
    requires Inv(c, s)
    ensures var s' := Append(c, s, core);
            && Books(c, s') && AllRecords(s') == AllRecords(s) && |s'.packets| <= MAX_BUFFERED
            && Timeline(s') == Timeline(s) + [Packet(core, None)]
  {
    hide Claims, ExportClaims, PendingOk, Fresh, ExportOk, ExportSources, PendingSources;
    var p := Packet(core, None);
    AppendTimeline(c, s, core);
    ClaimsConcat(Timeline(s), [p]);
    ClaimsOne(p);
    hide Timeline;
    assert Append(c, s, core).exported == s.exported && Append(c, s, core).pending == s.pending;
    hide Append;
  }

  lemma AppendTimeline(c: Config, s: State, core: WireCore)
    requires |s.packets| <= MAX_BUFFERED
    ensures var s' := Append(c, s, core);
            Timeline(s') == Timeline(s) + [Packet(core, None)] && |s'.packets| <= MAX_BUFFERED
  {
  }

  lemma OfferKeeps(c: Config, s: State, pt: Pending, reading: Reading)
    requires c.Ok() && Inv(c, s) && Fresh(c, pt)
    ensures var s' := Offer(c, s, pt, reading);
            && Inv(c, s') && AllRecords(s') == AllRecords(s) + PendingSource(pt)
            && s'.written == s.written && Cores(s'.packets) == Cores(s.packets) && Extends(s.packets, s'.packets)
  {
    hide Try, Claims, ExportClaims, ExportSources, PendingSource, PendingSources, Cores, PendingOk, Fresh, ExportOk;
    var o := Try(c, s.packets, pt, reading, false);
    if o.matched.Some? {
      TryAccepted(c, s.packets, pt, reading, false);
      var e := o.matched.value;
      SameSource(e, pt);
      hide ExportClaim, ExportSource, Extends;
      ClaimsConcat(s.written, s.packets);
      ClaimsConcat(s.written, o.packets);
      BagsAssociate(Claims(s.written), Claims(s.packets), ExportClaim(e));
      ExportClaimsConcat(s.exported, [e]);
      ExportSourcesConcat(s.exported, [e]);
      ExportClaimsOne(e);
      ExportSourcesOne(e);
      BagsAssociate(PendingSources(s.pending), ExportSources(s.exported), PendingSource(pt));
    } else {
      TryRefused(c, s.packets, pt, reading, false);
      AreFresh(c, Cores(s.packets), [o.pt]);
      ExtendsTransitive(s.packets, s.packets, s.packets);
      hide Extends;
      PendingSourcesConcat(s.pending, [o.pt]);
      PendingSourcesOne(o.pt);
      SamePendingSource(o.pt, pt);
      BagsAssociate(ExportSources(s.exported), PendingSources(s.pending), PendingSource(pt));
    }
  }

  lemma PendingSourcesNil()
    ensures PendingSources([]) == multiset{}
  {
  }

  lemma FlushAllKeeps(c: Config, s: State, clock: Clock)
    requires c.Ok() && Inv(c, s)
    ensures Inv(c, FlushAll(c, s, clock)) && AllRecords(FlushAll(c, s, clock)) == AllRecords(s)
  {
    hide MatchAll, UnmatchedExports, Claims, ExportClaims, ExportSources, PendingSources, Cores, PendingOk, Fresh, ExportOk, Extends;
    var s1 := MatchAll(c, s, clock, true);
    MatchAllKeeps(c, s, clock, true);
    UnmatchedExportsFacts(c, s1.pending);
    ExportClaimsConcat(s1.exported, UnmatchedExports(c, s1.pending));
    ExportSourcesConcat(s1.exported, UnmatchedExports(c, s1.pending));
    PendingSourcesNil();
    assert Timeline(FlushAll(c, s, clock)) == Timeline(s1);
  }

  function Arriving(op: Op): Bag {
    if op.HandleOp? then multiset{(op.id, op.m)} else multiset{}
  }

  /** Whatever the operation and the clock readings: the invariant holds again, and no record
      disappears or is doubled. */
  lemma StepKeeps(c: Config, s: State, op: Op)
    requires c.Ok() && Inv(c, s)
    ensures Inv(c, Step(c, s, op)) && AllRecords(Step(c, s, op)) == AllRecords(s) + Arriving(op)
  {
    hide FlushExpired, FlushAll, Inv, AllRecords, Enqueue, HandlePlaintext;
    match op
    case EnqueueOp(now, fields, dataB64, first, second) =>
      var data := c.env.decode(dataB64);
      if data.Some? { EnqueueKeeps(c, s, EnqueueCore(now, fields, data.value), first, second); }
    case HandleOp(now, m, id, first, reading) => HandleKeeps(c, s, now, m, id, first, reading);
    case TickOp(now, first) => FlushExpiredKeeps(c, s, now, first);
    case FlushOp(first) => FlushAllKeeps(c, s, first);
  }

  lemma EnqueueKeeps(c: Config, s: State, core: WireCore, first: Clock, second: Clock)
    requires c.Ok() && Inv(c, s)
    ensures var s' := Enqueue(c, s, core, first, second); Inv(c, s') && AllRecords(s') == AllRecords(s)
  {
    hide FlushExpired, Append, MatchAll, Books, PendingOk, AllRecords, Cores;
    var now := core.at.receivedAt;
    FlushExpiredKeeps(c, s, now, first);
    var s1 := FlushExpired(c, s, now, first);
    AppendKeeps(c, s1, core);
    var s2 := Append(c, s1, core);
    MatchAllKeeps(c, s2, second, false);
    SameLength(MatchAll(c, s2, second, false).packets, s2.packets);
  }

  lemma HandleKeeps(c: Config, s: State, now: int, m: GenericMap, id: nat, first: Clock, reading: Reading)
    requires c.Ok() && Inv(c, s)
    ensures var s' := HandlePlaintext(c, s, now, m, id, first, reading);
            Inv(c, s') && AllRecords(s') == AllRecords(s) + multiset{(id, m)}
  {
    hide FlushExpired, Offer, Inv, AllRecords;
    FlushExpiredKeeps(c, s, now, first);
    OfferKeeps(c, FlushExpired(c, s, now, first), NewPending(now, m, id), reading);
  }
}
