/** The event loop's record gate: ids are handed out, only records whose connection the kernel
    vouches for reach the buffer, and every record becomes exactly one JSONL line. */
module Collector {
  import opened Records
  import opened Scoring
  import opened Exports
  import opened BufferSpec
  import opened ScanProofs
  import opened BufferProofs
  import opened RunProofs
  import opened WireBuffer

  /** The last id given, the operations sent to the buffer and the lines written past it. */
  datatype Intake = Intake(lastID: nat, ops: seq<Op>, direct: seq<GenericMap>)

  datatype Event =
    | RecordEvent(at: int, m: GenericMap, first: Clock, reading: Reading)
    | PacketEvent(at: int, fields: GenericMap, first: Clock, second: Clock)
    | TickEvent(at: int, first: Clock)

  function Identified(env: Env, m: GenericMap, id: nat): GenericMap {
    EnrichExport(env, m["PacketID" := U64(id)])
  }

  function Admit(c: Config, k: Intake, ev: Event): Intake {
    match ev
    case RecordEvent(now, m, first, reading) =>
      var id := k.lastID + 1;
      var rec := Identified(c.env, m, id);
      if Verified(c.env, rec) then Intake(id, k.ops + [HandleOp(now, rec, id, first, reading)], k.direct)
      else Intake(id, k.ops, k.direct + [PrepareUnmatched(c.env, rec)["PcapAnnotated" := Bool(false)]])
    case PacketEvent(now, fields, first, second) =>
      if "Data" !in fields then k
      else k.(ops := k.ops + [EnqueueOp(now, fields, StringOf(fields["Data"]), first, second)])
    case TickEvent(now, first) => k.(ops := k.ops + [TickOp(now, first)])
  }

  function AdmitAll(c: Config, events: seq<Event>): Intake {
    if events == [] then Intake(0, [], [])
    else Admit(c, AdmitAll(c, events[..|events| - 1]), events[|events| - 1])
  }

  /** The buffer's callback adds the display text again before it writes a line. */
  function CallbackLines(env: Env, es: seq<Export>): (r: seq<GenericMap>)
    ensures |r| == |es| && forall i :: 0 <= i < |es| ==> r[i] == EnrichExport(env, es[i].rec)
  {
    seq(|es|, i requires 0 <= i < |es| => EnrichExport(env, es[i].rec))
  }

  // ---- Imperative form ----

  class PacketCollector {
    const buffer: WirePacketBuffer
    var plaintextPacketID: nat
    var direct: seq<GenericMap>
    ghost var ops: seq<Op>

    ghost predicate Valid()
      reads this, buffer, buffer.packets, buffer.pendingPlaintext
    {
      buffer.Valid() && buffer.Abs() == Run(buffer.c, EMPTY, ops)
    }

    ghost function Taken(): Intake
      reads this
    {
      Intake(plaintextPacketID, ops, direct)
    }

    constructor (env: Env, filters: CaptureFilters, window: int)
      ensures Valid() && Taken() == Intake(0, [], []) && fresh(buffer)
    {
      buffer := new WirePacketBuffer(env, filters, window);
      plaintextPacketID, direct, ops := 0, [], [];
    }

    method HandlePlaintextRecord(now: int, m: GenericMap, first: Clock, reading: Reading)
      requires Valid()
      modifies this, buffer, buffer.PacketSet(), buffer.PendingSet()
      ensures Valid()
      ensures Taken() == Admit(buffer.c, old(Taken()), RecordEvent(now, m, first, reading))
    {
      hide Run, Verified, PrepareUnmatched, EnrichExport;
      plaintextPacketID := plaintextPacketID + 1;
      var rec := EnrichExport(buffer.c.env, m["PacketID" := U64(plaintextPacketID)]);
      if Verified(buffer.c.env, rec) {
        SendToBuffer(now, rec, first, reading);
      } else {
        WriteDirect(rec);
      }
    }

    method SendToBuffer(now: int, m: GenericMap, first: Clock, reading: Reading)
      requires Valid()
      modifies this`ops, buffer, buffer.PacketSet(), buffer.PendingSet()
      ensures Valid()
      ensures ops == old(ops) + [HandleOp(now, m, plaintextPacketID, first, reading)]
    {
      hide Step, Run;
      ghost var op := HandleOp(now, m, plaintextPacketID, first, reading);
      RunOneMore(buffer.c, ops, op);
      buffer.HandlePlaintext(now, m, plaintextPacketID, first, reading);
      ops := ops + [op];
    }

    /** A record that goes past the buffer is written at once. */
    method WriteDirect(m: GenericMap)
      requires Valid()
      modifies this`direct
      ensures Valid()
      ensures direct == old(direct) + [PrepareUnmatched(buffer.c.env, m)["PcapAnnotated" := Bool(false)]]
    {
      hide PrepareUnmatched, Run;
      var rec := PrepareUnmatchedPlaintext(buffer.c.env, m);
      rec := rec["PcapAnnotated" := Bool(false)];
      direct := direct + [rec];
    }

    method HandleWirePacket(now: int, fields: GenericMap, first: Clock, second: Clock)
      requires Valid()
      requires "Data" in fields ==> fields["Data"].Str?
      modifies this, buffer, buffer.PacketSet(), buffer.PendingSet()
      ensures Valid()
      ensures Taken() == Admit(buffer.c, old(Taken()), PacketEvent(now, fields, first, second))
    {
      hide Step;
      if "Data" !in fields { return; }
      var data := fields["Data"].s;
      var ok := buffer.Enqueue(now, fields, data, first, second);
      RunOneMore(buffer.c, ops, EnqueueOp(now, fields, data, first, second));
      ops := ops + [EnqueueOp(now, fields, data, first, second)];
    }

    method Tick(now: int, clock: Clock)
      requires Valid()
      modifies this, buffer, buffer.PacketSet(), buffer.PendingSet()
      ensures Valid()
      ensures Taken() == Admit(buffer.c, old(Taken()), TickEvent(now, clock))
    {
      hide Step;
      buffer.Tick(now, clock);
      RunOneMore(buffer.c, ops, TickOp(now, clock));
      ops := ops + [TickOp(now, clock)];
    }

    method Close(clock: Clock)
      requires Valid()
      modifies this, buffer, buffer.PacketSet(), buffer.PendingSet()
      ensures Valid() && buffer.packets == [] && buffer.pendingPlaintext == []
      ensures Taken() == old(Taken()).(ops := old(ops) + [FlushOp(clock)])
    {
      hide Step;
      buffer.FlushAllBuffered(clock);
      RunOneMore(buffer.c, ops, FlushOp(clock));
      ops := ops + [FlushOp(clock)];
    }
  }

  lemma RunOneMore(c: Config, ops: seq<Op>, op: Op)
    ensures Run(c, EMPTY, ops + [op]) == Step(c, Run(c, EMPTY, ops), op)
  {
    assert (ops + [op])[..|ops|] == ops;
  }

  // ---- Every record becomes one line ----

  ghost predicate DirectLine(line: GenericMap, n: nat) {
    && Get(line, "PacketID").U64? && 1 <= Get(line, "PacketID").n <= n
    && Get(line, "PcapAnnotated") == Bool(false)
    && (forall k :: IsTupleKey(k) || IsEndpointK8s(k) ==> k !in line)
  }

  ghost predicate HandledOp(env: Env, op: Op, n: nat) {
    op.HandleOp? ==> 1 <= op.id <= n && Get(op.m, "PacketID") == U64(op.id) && Verified(env, op.m)
  }

  predicate Bypassed(k: Intake, i: int, id: nat) {
    0 <= i < |k.direct| && Get(k.direct[i], "PacketID") == U64(id)
  }

  predicate Sent(k: Intake, i: int, id: nat) {
    0 <= i < |k.ops| && k.ops[i].HandleOp? && k.ops[i].id == id
  }

  ghost predicate Served(k: Intake, id: nat) {
    (exists i :: Bypassed(k, i, id)) || (exists i :: Sent(k, i, id))
  }

  /** Each id went one way, once. */
  ghost predicate IntakeOk(c: Config, k: Intake) {
    && (forall line <- k.direct :: DirectLine(line, k.lastID))
    && (forall op <- k.ops :: HandledOp(c.env, op, k.lastID))
    && DistinctIds(k.ops)
    && (forall i, j, id :: Bypassed(k, i, id) && Bypassed(k, j, id) ==> i == j)
    && (forall i, j, id :: Bypassed(k, i, id) ==> !Sent(k, j, id))
    && (forall id :: 1 <= id <= k.lastID ==> Served(k, id))
  }

  lemma LineOfUnverified(env: Env, m: GenericMap, id: nat)
    requires !Verified(env, Identified(env, m, id)) && id >= 1
    ensures var line := PrepareUnmatched(env, Identified(env, m, id))["PcapAnnotated" := Bool(false)];
            DirectLine(line, id) && Get(line, "PacketID") == U64(id)
  {
    var rec := Identified(env, m, id);
    IdentifiedKeepsId(env, m, id);
    PrepareUnmatchedMeaning(env, rec);
    KeyClasses("PacketID");
    KeyClasses("PcapAnnotated");
    hide Verified, PrepareUnmatched, HasPrefix, Identified, DirectionOf;
  }

  lemma IdentifiedKeepsId(env: Env, m: GenericMap, id: nat)
    ensures Get(Identified(env, m, id), "PacketID") == U64(id)
  {
  }

  lemma {:induction false} AdmitKeepsOk(c: Config, events: seq<Event>)
    ensures IntakeOk(c, AdmitAll(c, events))
  {
    if events != [] {
      hide Admit, IntakeOk;
      AdmitKeepsOk(c, events[..|events| - 1]);
      AdmitOne(c, AdmitAll(c, events[..|events| - 1]), events[|events| - 1]);
    }
  }

  lemma AdmitOne(c: Config, k: Intake, ev: Event)
    requires IntakeOk(c, k)
    ensures IntakeOk(c, Admit(c, k, ev))
  {
    hide Verified, PrepareUnmatched, Identified, IntakeOk, DirectLine;
    match ev
    case RecordEvent(now, m, first, reading) =>
      var id := k.lastID + 1;
      var rec := Identified(c.env, m, id);
      IdentifiedKeepsId(c.env, m, id);
      if Verified(c.env, rec) {
        OneMoreOp(c, k, HandleOp(now, rec, id, first, reading), id);
      } else {
        LineOfUnverified(c.env, m, id);
        OneMoreLine(c, k, PrepareUnmatched(c.env, rec)["PcapAnnotated" := Bool(false)]);
      }
    case PacketEvent(now, fields, first, second) =>
      if "Data" in fields {
        OneMoreOp(c, k, EnqueueOp(now, fields, StringOf(fields["Data"]), first, second), k.lastID);
      }
    case TickEvent(now, first) => OneMoreOp(c, k, TickOp(now, first), k.lastID);
  }

  /** The ids given so far are in use, and no higher one is. */
  lemma IdsInUse(c: Config, k: Intake)
    requires IntakeOk(c, k)
    ensures forall i: int, d: nat :: Bypassed(k, i, d) || Sent(k, i, d) ==> d <= k.lastID
  {
    hide IsTupleKey, IsEndpointK8s;
    forall i: int, d: nat | Bypassed(k, i, d) ensures d <= k.lastID { assert k.direct[i] in k.direct; }
    forall i: int, d: nat | Sent(k, i, d) ensures d <= k.lastID { assert k.ops[i] in k.ops; }
  }

  lemma OneMoreOp(c: Config, k: Intake, op: Op, n: nat)
    requires IntakeOk(c, k)
    requires n == k.lastID + if op.HandleOp? then 1 else 0
    requires op.HandleOp? ==> op.id == n && HandledOp(c.env, op, n)
    ensures IntakeOk(c, Intake(n, k.ops + [op], k.direct))
  {
    IdsInUse(c, k);
    hide Verified;
    var k' := Intake(n, k.ops + [op], k.direct);
    assert forall i: int, d: nat :: Bypassed(k', i, d) <==> Bypassed(k, i, d);
    assert forall i: int, d: nat :: Sent(k', i, d) <==> Sent(k, i, d) || (i == |k.ops| && op.HandleOp? && d == n);
    assert op.HandleOp? ==> Sent(k', |k.ops|, n);
    OpsStayHandled(c.env, k.ops, k.lastID, op, n);
    LinesStay(k.direct, k.lastID, n);
    DistinctIdsSnoc(k, op);
    hide DirectLine, HandledOp, DistinctIds, Bypassed, Sent;
    forall d | 1 <= d <= n ensures Served(k', d) {
      assert d <= k.lastID ==> Served(k, d);
    }
  }

  lemma OneMoreLine(c: Config, k: Intake, line: GenericMap)
    requires IntakeOk(c, k)
    requires DirectLine(line, k.lastID + 1) && Get(line, "PacketID") == U64(k.lastID + 1)
    ensures IntakeOk(c, Intake(k.lastID + 1, k.ops, k.direct + [line]))
  {
    IdsInUse(c, k);
    var n := k.lastID + 1;
    var k' := Intake(n, k.ops, k.direct + [line]);
    hide Verified, IsTupleKey, IsEndpointK8s;
    assert forall i: int, d: nat :: Sent(k', i, d) <==> Sent(k, i, d);
    assert forall i: int, d: nat :: Bypassed(k', i, d) <==> Bypassed(k, i, d) || (i == |k.direct| && d == n);
    assert Bypassed(k', |k.direct|, n);
    LinesStay(k.direct, k.lastID, n);
    forall op <- k.ops ensures HandledOp(c.env, op, n) { assert HandledOp(c.env, op, k.lastID); }
    hide DirectLine, HandledOp, DistinctIds, Bypassed, Sent;
    forall d | 1 <= d <= n ensures Served(k', d) {
      assert d <= k.lastID ==> Served(k, d);
    }
  }

  lemma OpsStayHandled(env: Env, ops: seq<Op>, n: nat, op: Op, n': nat)
    requires (forall o <- ops :: HandledOp(env, o, n)) && n <= n' && HandledOp(env, op, n')
    ensures forall o <- ops + [op] :: HandledOp(env, o, n')
  {
    hide Verified;
    forall o <- ops + [op] ensures HandledOp(env, o, n') {
      assert o in ops ==> HandledOp(env, o, n);
    }
  }

  lemma LinesStay(lines: seq<GenericMap>, n: nat, n': nat)
    requires (forall line <- lines :: DirectLine(line, n)) && n <= n'
    ensures forall line <- lines :: DirectLine(line, n')
  {
    hide IsTupleKey, IsEndpointK8s;
    forall line <- lines ensures DirectLine(line, n') {
      assert DirectLine(line, n);
    }
  }

  lemma DistinctIdsSnoc(k: Intake, op: Op)
    requires DistinctIds(k.ops) && forall i: int, d: nat :: Sent(k, i, d) ==> d <= k.lastID
    requires op.HandleOp? ==> op.id > k.lastID
    ensures DistinctIds(k.ops + [op])
  {
    forall i | 0 <= i < |k.ops| && k.ops[i].HandleOp? ensures k.ops[i].id <= k.lastID {
      assert Sent(k, i, k.ops[i].id);
    }
  }

  /** Exactly one line for each id from 1 to `n`, and no other line. */
  ghost predicate OncePerId(lines: seq<GenericMap>, n: nat) {
    && (forall i, j :: 0 <= i < j < |lines| ==> Get(lines[i], "PacketID") != Get(lines[j], "PacketID"))
    && (forall i :: 0 <= i < |lines| ==> Get(lines[i], "PacketID").U64? && 1 <= Get(lines[i], "PacketID").n <= n)
    && (forall id :: 1 <= id <= n ==> exists i :: 0 <= i < |lines| && Get(lines[i], "PacketID") == U64(id))
  }

  function RecordCount(events: seq<Event>): nat {
    if events == [] then 0
    else RecordCount(events[..|events| - 1]) + if events[|events| - 1].RecordEvent? then 1 else 0
  }

  lemma {:induction false} LastIdCounts(c: Config, events: seq<Event>)
    ensures AdmitAll(c, events).lastID == RecordCount(events)
  {
    if events != [] {
      LastIdCounts(c, events[..|events| - 1]);
      hide Verified, Identified, PrepareUnmatched;
    }
  }

  /** A line of the buffer: the record came in verified, and its id is the one handed out. */
  lemma ExportComesFromVerified(c: Config, k: Intake, clock: Clock)
    requires c.Ok() && IntakeOk(c, k)
    ensures forall e <- Run(c, EMPTY, k.ops + [FlushOp(clock)]).exported ::
              && Verified(c.env, e.original) && Get(EnrichExport(c.env, e.rec), "PacketID") == U64(e.id)
              && Get(EnrichExport(c.env, e.rec), "PcapAnnotated") == Bool(e.wire.Some?)
              && exists i :: Sent(k, i, e.id)
  {
    hide Run, Verified, Handled, Enrich, AnnotatedRecord, Unmatched, EnrichExport, ExportSources;
    ClosedRun(c, k.ops, clock);
    var es := Run(c, EMPTY, k.ops + [FlushOp(clock)]).exported;
    forall e <- es
      ensures Verified(c.env, e.original) && Get(EnrichExport(c.env, e.rec), "PacketID") == U64(e.id)
      ensures Get(EnrichExport(c.env, e.rec), "PcapAnnotated") == Bool(e.wire.Some?)
      ensures exists i :: Sent(k, i, e.id)
    {
      var x :| 0 <= x < |es| && es[x] == e;
      ExportSourceAt(es, x);
      HandledMembers(k.ops, (e.id, e.original));
      var i :| 0 <= i < |k.ops| && k.ops[i].HandleOp? && (e.id, e.original) == (k.ops[i].id, k.ops[i].m);
      assert k.ops[i] in k.ops;
      assert HandledOp(c.env, k.ops[i], k.lastID) && Sent(k, i, e.id);
      LineOfExport(c, e);
    }
  }

  lemma LineOfExport(c: Config, e: Export)
    requires c.Ok() && ExportOk(c, e) && Get(e.original, "PacketID") == U64(e.id)
    ensures Get(EnrichExport(c.env, e.rec), "PacketID") == U64(e.id)
    ensures Get(EnrichExport(c.env, e.rec), "PcapAnnotated") == Bool(e.wire.Some?)
  {
    hide Enrich, AnnotatedRecord, Unmatched, EndpointsOf, DirectionOf;
    if e.wire.Some? {
      ExportKeepsId(c.env, Enrich(c.env, c.filters, e.original), e.wire.value);
      EnrichKeepsId(c.env, c.filters, e.original);
    } else {
      ExportKeepsId(c.env, e.original, e.original);
    }
  }

  lemma EnrichKeepsId(env: Env, f: CaptureFilters, m: GenericMap)
    ensures Get(Enrich(env, f, m), "PacketID") == Get(m, "PacketID")
  {
    hide EndpointsOf, MapPort, ValidIP;
  }

  lemma {:induction false} HandledContains(ops: seq<Op>, i: nat)
    requires i < |ops| && ops[i].HandleOp?
    ensures (ops[i].id, ops[i].m) in Handled(ops)
  {
    var n := |ops| - 1;
    if i < n { HandledContains(ops[..n], i); }
  }

  lemma {:induction false} ExportSourceWitness(es: seq<Export>, p: (nat, GenericMap)) returns (i: nat)
    requires p in ExportSources(es)
    ensures i < |es| && es[i].id == p.0 && es[i].original == p.1
  {
    var n := |es| - 1;
    if p in ExportSources(es[..n]) { i := ExportSourceWitness(es[..n], p); } else { i := n; }
  }

  /** For any interleaving of records, packets and ticks followed by Close: the lines written are
      exactly one for each record received; those of unverified records are written past the
      buffer, unannotated and without any endpoint, and only verified records come out of it. */
  lemma EveryRecordBecomesOneLine(c: Config, events: seq<Event>, clock: Clock)
    requires c.Ok()
    ensures var k := AdmitAll(c, events);
            var s := Run(c, EMPTY, k.ops + [FlushOp(clock)]);
            && OncePerId(k.direct + CallbackLines(c.env, s.exported), RecordCount(events))
            && (forall line <- k.direct :: DirectLine(line, k.lastID))
            && (forall e <- s.exported :: Verified(c.env, e.original))
  {
    hide Run, Handled, AdmitAll, Verified, EnrichExport, DirectLine, CallbackLines, ExportSources, Enrich, HandledOp, ExportOk;
    AdmitKeepsOk(c, events);
    LastIdCounts(c, events);
    var k := AdmitAll(c, events);
    var s := Run(c, EMPTY, k.ops + [FlushOp(clock)]);
    ClosedRun(c, k.ops, clock);
    DistinctIdsAreUnique(k.ops);
    hide DistinctIds, Unique;
    assert ExportSources(s.exported) + multiset{} == Handled(k.ops);
    UniqueSourcesGiveDistinctExports(s.exported, multiset{});
    var lines := CallbackLines(c.env, s.exported);
    ExportComesFromVerified(c, k, clock);
    forall j | 0 <= j < |lines|
      ensures Get(lines[j], "PacketID") == U64(s.exported[j].id) && AnswersOne(k, lines[j])
      ensures Verified(c.env, s.exported[j].original)
    {
      assert s.exported[j] in s.exported;
    }
    forall i, id: nat | Sent(k, i, id)
      ensures exists j :: 0 <= j < |lines| && Get(lines[j], "PacketID") == U64(id)
    {
      HandledContains(k.ops, i);
      var j := ExportSourceWitness(s.exported, (id, k.ops[i].m));
      assert Get(lines[j], "PacketID") == U64(id);
    }
    hide Sent, AnswersOne;
    assert Answers(k, lines);
    MergedLines(c, k, lines);
    DirectLines(c, k);
  }

  lemma DirectLines(c: Config, k: Intake)
    requires IntakeOk(c, k)
    ensures forall line <- k.direct :: DirectLine(line, k.lastID)
  {
    hide DirectLine;
  }

  /** The buffer's lines answer exactly the records sent to it. */
  ghost predicate Answers(k: Intake, lines: seq<GenericMap>) {
    && (forall i, j :: 0 <= i < j < |lines| ==> Get(lines[i], "PacketID") != Get(lines[j], "PacketID"))
    && (forall j :: 0 <= j < |lines| ==> AnswersOne(k, lines[j]))
    && (forall i, id :: Sent(k, i, id) ==> exists j :: 0 <= j < |lines| && Get(lines[j], "PacketID") == U64(id))
  }

  ghost predicate AnswersOne(k: Intake, line: GenericMap) {
    Get(line, "PacketID").U64? && exists i :: Sent(k, i, Get(line, "PacketID").n)
  }

  lemma BypassedAt(c: Config, k: Intake, i: nat)
    requires IntakeOk(c, k) && i < |k.direct|
    ensures Get(k.direct[i], "PacketID").U64? && 1 <= Get(k.direct[i], "PacketID").n <= k.lastID
    ensures Bypassed(k, i, Get(k.direct[i], "PacketID").n)
  {
    hide IsTupleKey, IsEndpointK8s;
    assert k.direct[i] in k.direct;
  }

  lemma AnsweredInRange(c: Config, k: Intake, line: GenericMap)
    requires IntakeOk(c, k) && AnswersOne(k, line)
    ensures 1 <= Get(line, "PacketID").n <= k.lastID
    ensures forall i :: !Bypassed(k, i, Get(line, "PacketID").n)
  {
    hide Verified, DirectLine;
    var i :| Sent(k, i, Get(line, "PacketID").n);
    assert k.ops[i] in k.ops;
  }

  lemma MergedLines(c: Config, k: Intake, lines: seq<GenericMap>)
    requires IntakeOk(c, k) && Answers(k, lines)
    ensures OncePerId(k.direct + lines, k.lastID)
  {
    hide IntakeOk, Answers;
    var all, n := k.direct + lines, k.lastID;
    forall i | 0 <= i < |all| ensures Get(all[i], "PacketID").U64? && 1 <= Get(all[i], "PacketID").n <= n {
      MergedAt(c, k, lines, i);
    }
    forall i, j | 0 <= i < j < |all| ensures Get(all[i], "PacketID") != Get(all[j], "PacketID") {
      MergedDiffer(c, k, lines, i, j);
    }
    forall id | 1 <= id <= n ensures exists i :: 0 <= i < |all| && Get(all[i], "PacketID") == U64(id) {
      MergedCovers(c, k, lines, id);
    }
    assert forall i, j :: 0 <= i < j < |all| ==> Get(all[i], "PacketID") != Get(all[j], "PacketID");
    assert forall i :: 0 <= i < |all| ==> Get(all[i], "PacketID").U64? && 1 <= Get(all[i], "PacketID").n <= n;
    assert forall id :: 1 <= id <= n ==> exists i :: 0 <= i < |all| && Get(all[i], "PacketID") == U64(id);
  }

  /** A merged line is a direct one, or answers a record sent to the buffer. */
  lemma MergedAt(c: Config, k: Intake, lines: seq<GenericMap>, i: nat)
    requires IntakeOk(c, k) && Answers(k, lines) && i < |k.direct + lines|
    ensures var line := (k.direct + lines)[i];
            && Get(line, "PacketID").U64? && 1 <= Get(line, "PacketID").n <= k.lastID
            && (if i < |k.direct| then Bypassed(k, i, Get(line, "PacketID").n)
                else forall x :: !Bypassed(k, x, Get(line, "PacketID").n))
  {
    hide IntakeOk, Bypassed, Sent;
    if i < |k.direct| { BypassedAt(c, k, i); } else { AnsweredInRange(c, k, lines[i - |k.direct|]); }
  }

  lemma MergedDiffer(c: Config, k: Intake, lines: seq<GenericMap>, i: nat, j: nat)
    requires IntakeOk(c, k) && Answers(k, lines) && i < j < |k.direct + lines|
    ensures Get((k.direct + lines)[i], "PacketID") != Get((k.direct + lines)[j], "PacketID")
  {
    hide DirectLine, HandledOp, DistinctIds, AnswersOne, Served, Sent;
    var n := |k.direct|;
    MergedAt(c, k, lines, i);
    MergedAt(c, k, lines, j);
    hide Bypassed;
    if i >= n { assert (k.direct + lines)[i] == lines[i - n] && (k.direct + lines)[j] == lines[j - n]; }
  }

  lemma MergedCovers(c: Config, k: Intake, lines: seq<GenericMap>, id: nat)
    requires IntakeOk(c, k) && Answers(k, lines) && 1 <= id <= k.lastID
    ensures exists i :: 0 <= i < |k.direct + lines| && Get((k.direct + lines)[i], "PacketID") == U64(id)
  {
    hide DirectLine, HandledOp, DistinctIds, AnswersOne;
    var all, n := k.direct + lines, |k.direct|;
    assert Served(k, id);
    if i :| Bypassed(k, i, id) {
      assert all[i] == k.direct[i];
    } else {
      var i :| Sent(k, i, id);
      var j :| 0 <= j < |lines| && Get(lines[j], "PacketID") == U64(id);
      assert all[n + j] == lines[j];
    }
  }

  // ---- The two files together ----

  function ReceivedBy(c: Config, ev: Event): seq<WireCore> {
    if !ev.PacketEvent? || "Data" !in ev.fields then []
    else
      var data := c.env.decode(StringOf(ev.fields["Data"]));
      if data.None? then [] else [WireCore(Arrival(ev.at, Timestamp(ev.fields)), ev.fields, data.value)]
  }

  /** The packets whose data decodes, in the order in which they came. */
  function Received(c: Config, events: seq<Event>): seq<WireCore> {
    if events == [] then [] else Received(c, events[..|events| - 1]) + ReceivedBy(c, events[|events| - 1])
  }

  lemma {:induction false} ReceivedIsAccepted(c: Config, events: seq<Event>)
    ensures Accepted(c, AdmitAll(c, events).ops) == Received(c, events)
  {
    if events != [] {
      var init, ev := events[..|events| - 1], events[|events| - 1];
      ReceivedIsAccepted(c, init);
      AdmitAccepts(c, AdmitAll(c, init), ev);
    }
  }

  lemma AdmitAccepts(c: Config, k: Intake, ev: Event)
    ensures Accepted(c, Admit(c, k, ev).ops) == Accepted(c, k.ops) + ReceivedBy(c, ev)
  {
    hide Verified, Identified, PrepareUnmatched;
    var k' := Admit(c, k, ev);
    if k'.ops != k.ops {
      assert k'.ops[..|k'.ops| - 1] == k.ops;
    }
  }

  predicate SaysAnnotated(line: GenericMap) { Get(line, "PcapAnnotated") == Bool(true) }

  predicate Names(line: GenericMap, p: Packet) {
    SaysAnnotated(line) && p.mark.Some? && Get(line, "PacketID") == U64(p.mark.value.id)
  }

  /** Every annotated line names a packet, every annotated packet is named by a line, and no two
      packets carry the same id. */
  ghost predicate LinesMatchPackets(lines: seq<GenericMap>, packets: seq<Packet>) {
    && (forall j :: 0 <= j < |lines| && SaysAnnotated(lines[j]) ==>
          exists i :: 0 <= i < |packets| && Names(lines[j], packets[i]))
    && (forall i :: 0 <= i < |packets| && packets[i].mark.Some? ==>
          exists j :: 0 <= j < |lines| && Names(lines[j], packets[i]))
    && DistinctMarks(packets)
  }

  ghost predicate DistinctMarks(packets: seq<Packet>) {
    forall i, j :: 0 <= i < j < |packets| && packets[i].mark.Some? && packets[j].mark.Some? ==>
      packets[i].mark.value.id != packets[j].mark.value.id
  }

  /** For any interleaving of records, packets and ticks followed by Close: the capture file holds
      the decodable packets in the order in which they came, the JSONL file one line for each
      record, and the two agree on which record each packet carries. */
  lemma CaptureIsConsistent(c: Config, events: seq<Event>, clock: Clock)
    requires c.Ok() && InOrder(Received(c, events))
    ensures var k := AdmitAll(c, events);
            var s := Run(c, EMPTY, k.ops + [FlushOp(clock)]);
            var lines := k.direct + CallbackLines(c.env, s.exported);
            && Cores(s.written) == Received(c, events)
            && OncePerId(lines, RecordCount(events))
            && LinesMatchPackets(lines, s.written)
  {
    hide Run, AdmitAll, InOrder, Cores, OneToOne, OncePerId, DirectLine, CallbackLines, LinesMatchPackets, Truthful, Verified,
      Handled, ExportSources, ExportOk, HandledOp, EnrichExport;
    var k := AdmitAll(c, events);
    var s := Run(c, EMPTY, k.ops + [FlushOp(clock)]);
    AdmitKeepsOk(c, events);
    ReceivedIsAccepted(c, events);
    EveryRecordBecomesOneLine(c, events, clock);
    CloseCompletesEverything(c, k.ops, clock);
    LinesAreTruthful(c, k, clock);
    OneToOneLines(k.direct + CallbackLines(c.env, s.exported), |k.direct|, s.written, s.exported);
  }

  /** The lines of the buffer say which records were annotated, and the others do not. */
  ghost predicate Truthful(lines: seq<GenericMap>, n: nat, es: seq<Export>) {
    && |lines| == n + |es|
    && (forall j :: 0 <= j < n ==> !SaysAnnotated(lines[j]))
    && (forall j :: 0 <= j < |es| ==>
          Get(lines[n + j], "PacketID") == U64(es[j].id) && (SaysAnnotated(lines[n + j]) <==> es[j].wire.Some?))
  }

  lemma OneToOneLines(lines: seq<GenericMap>, n: nat, packets: seq<Packet>, es: seq<Export>)
    requires OneToOne(packets, es) && Truthful(lines, n, es)
    ensures LinesMatchPackets(lines, packets)
  {
    hide SaysAnnotated;
    forall j | 0 <= j < |lines| && SaysAnnotated(lines[j])
      ensures exists i :: 0 <= i < |packets| && Names(lines[j], packets[i])
    {
      var x := j - n;
      assert 0 <= x < |es| && lines[n + x] == lines[j] && es[x].wire.Some?;
      var i :| 0 <= i < |packets| && Carries(packets[i], es[x]);
      assert Names(lines[j], packets[i]);
    }
    forall i | 0 <= i < |packets| && packets[i].mark.Some?
      ensures exists j :: 0 <= j < |lines| && Names(lines[j], packets[i])
    {
      var x :| 0 <= x < |es| && Carries(packets[i], es[x]);
      assert Names(lines[n + x], packets[i]);
    }
    hide Names;
  }

  lemma LinesAreTruthful(c: Config, k: Intake, clock: Clock)
    requires c.Ok() && IntakeOk(c, k)
    ensures var es := Run(c, EMPTY, k.ops + [FlushOp(clock)]).exported;
            Truthful(k.direct + CallbackLines(c.env, es), |k.direct|, es)
  {
    hide Run, EnrichExport, Verified, IsTupleKey, IsEndpointK8s, HandledOp;
    var es := Run(c, EMPTY, k.ops + [FlushOp(clock)]).exported;
    var n, lines := |k.direct|, k.direct + CallbackLines(c.env, es);
    forall j | 0 <= j < n ensures !SaysAnnotated(lines[j]) {
      assert k.direct[j] in k.direct;
    }
    ExportComesFromVerified(c, k, clock);
    forall j | 0 <= j < |es|
      ensures Get(lines[n + j], "PacketID") == U64(es[j].id) && (SaysAnnotated(lines[n + j]) <==> es[j].wire.Some?)
    {
      assert lines[n + j] == EnrichExport(c.env, es[j].rec);
      assert es[j] in es;
    }
  }

  /** Behind the gate no waiting record ever misses part of its tuple, and none is ever latched: the
      inference for partial records has no work to do. */
  lemma GateKeepsPartialRecordsOut(c: Config, events: seq<Event>)
    requires c.Ok()
    ensures forall pt <- Run(c, EMPTY, AdmitAll(c, events).ops).pending ::
              Complete(c, pt.original) && !pt.ambiguous && pt.data == pt.original
  {
    hide Run, AdmitAll, Handled, PendingSources, ExportSources, Competing, Verified, EndpointsOf;
    var k := AdmitAll(c, events);
    var s := Run(c, EMPTY, k.ops);
    AdmitKeepsOk(c, events);
    RunKeeps(c, k.ops);
    WaitingRecordsAreHonest(c, k.ops);
    forall pt <- s.pending ensures Complete(c, pt.original) && !pt.ambiguous && pt.data == pt.original {
      PendingSourceOf(s.pending, pt);
      assert (pt.id, pt.original) in AllRecords(s);
      HandledIsVerified(c, k, (pt.id, pt.original));
      assert Complete(c, pt.original) by { VerifiedIsComplete(c, pt.original); }
      assert Enrich(c.env, c.filters, pt.original) == pt.original;
    }
  }

  lemma VerifiedIsComplete(c: Config, m: GenericMap)
    requires Verified(c.env, m)
    ensures Complete(c, m)
  {
  }

  lemma HandledIsVerified(c: Config, k: Intake, p: (nat, GenericMap))
    requires IntakeOk(c, k) && p in Handled(k.ops)
    ensures Verified(c.env, p.1)
  {
    hide Verified, DirectLine;
    HandledMembers(k.ops, p);
    var i :| 0 <= i < |k.ops| && k.ops[i].HandleOp? && p == (k.ops[i].id, k.ops[i].m);
    assert k.ops[i] in k.ops && HandledOp(c.env, k.ops[i], k.lastID);
  }

  // ---- What the line of a record shows ----

  lemma {:induction false} AdmittedLater(c: Config, events: seq<Event>, i: nat)
    requires i <= |events|
    ensures var k, k' := AdmitAll(c, events[..i]), AdmitAll(c, events);
            k.ops <= k'.ops && k.direct <= k'.direct
    decreases |events| - i
  {
    hide Admit;
    if i == |events| {
      assert events[..i] == events;
    } else {
      AdmittedLater(c, events, i + 1);
      assert events[..i + 1][..i] == events[..i];
      AdmitExtends(c, AdmitAll(c, events[..i]), events[i]);
    }
  }

  lemma AdmitExtends(c: Config, k: Intake, ev: Event)
    ensures k.ops <= Admit(c, k, ev).ops && k.direct <= Admit(c, k, ev).direct
  {
    hide Verified, Identified, PrepareUnmatched;
  }

  /** The note of an id and a display text touch no endpoint. */
  lemma IdentifiedKeepsEndpoints(env: Env, m: GenericMap, id: nat)
    ensures EndpointsOf(env, Identified(env, m, id)) == EndpointsOf(env, m)
    ensures Get(Identified(env, m, id), "TupleSource") == Get(m, "TupleSource")
    ensures Get(Identified(env, m, id), "Direction") == Get(m, "Direction")
  {
    KeysOfNote();
    SameTuple(env, Identified(env, m, id), m);
    hide EndpointsOf;
  }

  /** A line that carries the connection of the record, from the sender to the receiver. */
  predicate ShowsConnection(env: Env, line: GenericMap, m: GenericMap) {
    var t := TupleOf(EndpointsOf(env, m));
    t.Some? && TupleOf(EndpointsOf(env, line)) ==
               Some(if Get(m, "Direction") == Str("read") then Reverse(t.value) else t.value)
  }

  ghost predicate ShowsNoEndpoint(line: GenericMap) {
    && "SrcAddr" !in line && "DstAddr" !in line && "SrcPort" !in line && "DstPort" !in line
    && forall rest: string :: "SrcK8S_" + rest !in line && "DstK8S_" + rest !in line
  }

  ghost predicate LineOf(c: Config, line: GenericMap, m: GenericMap, id: nat) {
    && Get(line, "PacketID") == U64(id)
    && if Get(m, "TupleSource") == Str("kernel") && TupleOf(EndpointsOf(c.env, m)).Some?
       then ShowsConnection(c.env, line, m)
       else ShowsNoEndpoint(line) && Get(line, "PcapAnnotated") == Bool(false)
  }

  ghost predicate HasLine(c: Config, lines: seq<GenericMap>, m: GenericMap, id: nat) {
    exists j :: 0 <= j < |lines| && LineOf(c, lines[j], m, id)
  }

  lemma LineIsThere(c: Config, lines: seq<GenericMap>, j: int, m: GenericMap, id: nat)
    requires 0 <= j < |lines| && LineOf(c, lines[j], m, id)
    ensures HasLine(c, lines, m, id)
  {
  }

  /** From the record as it comes in to its line: the n-th record has the line with id n. If the
      kernel vouches for a complete connection the line shows it, turned by a read and only by that,
      whether or not a packet was found; otherwise the line shows no endpoint at all. */
  lemma LineShowsTheConnection(c: Config, events: seq<Event>, clock: Clock, i: nat)
    requires c.Ok() && i < |events| && events[i].RecordEvent?
    ensures var k := AdmitAll(c, events);
            var lines := k.direct + CallbackLines(c.env, Run(c, EMPTY, k.ops + [FlushOp(clock)]).exported);
            HasLine(c, lines, events[i].m, RecordCount(events[..i + 1]))
  {
    hide Run, AdmitAll, LineOf, HasLine, Verified, Identified, PrepareUnmatched, EnrichExport, EndpointsOf;
    var k := AdmitAll(c, events);
    var es := Run(c, EMPTY, k.ops + [FlushOp(clock)]).exported;
    var lines := k.direct + CallbackLines(c.env, es);
    var before, m := AdmitAll(c, events[..i]), events[i].m;
    var id, rec := before.lastID + 1, Identified(c.env, m, before.lastID + 1);
    AdmittedAt(c, events, i);
    var j: int;
    if Verified(c.env, rec) {
      var x := SentLine(c, events, clock, |before.ops|, id, rec);
      VerifiedLine(c, events, clock, es[x], m);
      j := |k.direct| + x;
      assert lines[j] == EnrichExport(c.env, es[x].rec);
    } else {
      DirectLineOf(c, m, id);
      j := |before.direct|;
      assert lines[j] == k.direct[j];
    }
    LineIsThere(c, lines, j, m, id);
  }

  lemma AdmittedAt(c: Config, events: seq<Event>, i: nat)
    requires i < |events| && events[i].RecordEvent?
    ensures var k, before := AdmitAll(c, events), AdmitAll(c, events[..i]);
            var ev, id := events[i], before.lastID + 1;
            var rec := Identified(c.env, ev.m, id);
            && id == RecordCount(events[..i + 1])
            && if Verified(c.env, rec)
               then |before.ops| < |k.ops| && k.ops[|before.ops|] == HandleOp(ev.at, rec, id, ev.first, ev.reading)
               else |before.direct| < |k.direct|
                    && k.direct[|before.direct|] == PrepareUnmatched(c.env, rec)["PcapAnnotated" := Bool(false)]
  {
    hide Verified, Identified, PrepareUnmatched;
    assert events[..i + 1][..i] == events[..i];
    LastIdCounts(c, events[..i]);
    AdmittedLater(c, events, i + 1);
  }

  /** An operation of the buffer for a record comes out as an export. */
  lemma SentLine(c: Config, events: seq<Event>, clock: Clock, at: nat, id: nat, rec: GenericMap) returns (x: nat)
    requires c.Ok() && var ops := AdmitAll(c, events).ops; at < |ops| && ops[at].HandleOp? && ops[at].id == id && ops[at].m == rec
    ensures var es := Run(c, EMPTY, AdmitAll(c, events).ops + [FlushOp(clock)]).exported;
            x < |es| && es[x].id == id && es[x].original == rec
  {
    hide Run, AdmitAll, Handled, ExportSources;
    var ops := AdmitAll(c, events).ops;
    ClosedRun(c, ops, clock);
    HandledContains(ops, at);
    x := ExportSourceWitness(Run(c, EMPTY, ops + [FlushOp(clock)]).exported, (id, rec));
  }

  lemma VerifiedLine(c: Config, events: seq<Event>, clock: Clock, e: Export, m: GenericMap)
    requires c.Ok() && e in Run(c, EMPTY, AdmitAll(c, events).ops + [FlushOp(clock)]).exported
    requires e.original == Identified(c.env, m, e.id) && Verified(c.env, e.original)
    ensures LineOf(c, EnrichExport(c.env, e.rec), m, e.id)
  {
    hide Run, AdmitAll, Identified, EnrichExport, EndpointsOf;
    var k := AdmitAll(c, events);
    AdmitKeepsOk(c, events);
    ExportComesFromVerified(c, k, clock);
    OrientationIsStable(c, k.ops + [FlushOp(clock)], e);
    IdentifiedKeepsEndpoints(c.env, m, e.id);
    DirectionMeaning(e.original);
    DisplayKeepsEndpoints(c.env, e.rec);
    hide IntakeOk, DirectionOf, Sent;
  }

  lemma DisplayKeepsEndpoints(env: Env, m: GenericMap)
    ensures EndpointsOf(env, EnrichExport(env, m)) == EndpointsOf(env, m)
  {
    DisplayMeaning(env, m);
    KeysOfNote();
    hide EnrichExport, IsTupleKey;
    SameTuple(env, EnrichExport(env, m), m);
    hide EndpointsOf;
  }

  lemma DirectLineOf(c: Config, m: GenericMap, id: nat)
    requires id >= 1 && !Verified(c.env, Identified(c.env, m, id))
    ensures LineOf(c, PrepareUnmatched(c.env, Identified(c.env, m, id))["PcapAnnotated" := Bool(false)], m, id)
  {
    hide Identified, PrepareUnmatched, EndpointsOf, IsTupleKey, IsEndpointK8s;
    LineOfUnverified(c.env, m, id);
    IdentifiedKeepsEndpoints(c.env, m, id);
    EndpointKeys(PrepareUnmatched(c.env, Identified(c.env, m, id))["PcapAnnotated" := Bool(false)]);
  }

  lemma EndpointKeys(line: GenericMap)
    requires forall k :: IsTupleKey(k) || IsEndpointK8s(k) ==> k !in line
    ensures ShowsNoEndpoint(line)
  {
    forall rest: string ensures IsEndpointK8s("SrcK8S_" + rest) && IsEndpointK8s("DstK8S_" + rest) {
      PrefixMeaning("SrcK8S_" + rest, "SrcK8S_");
      PrefixMeaning("DstK8S_" + rest, "DstK8S_");
    }
    TupleKeys();
    hide IsTupleKey, IsEndpointK8s;
  }
}
