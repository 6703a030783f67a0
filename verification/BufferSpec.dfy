/** The correlation buffer as a state machine: what each operation does to the buffered packets,
    the waiting records and the two output streams. */
module BufferSpec {
  import opened Records
  import opened Scoring
  import opened Exports

  datatype Config = Config(env: Env, filters: CaptureFilters, window: int)
  {
    ghost predicate Ok() { env.Ok() && filters.Parsed(env) && window > 0 }
  }

  const MAX_BUFFERED := 20000

  /** The annotation of a packet: the record's packet id and the comment. */
  datatype Mark = Mark(id: nat, comment: string)

  datatype Packet = Packet(core: WireCore, mark: Option<Mark>)

  datatype Pending = Pending(
    at: Arrival, data: GenericMap, original: GenericMap, id: nat, ambiguous: bool)

  /** A finished record: its id, what the agent sent, what was written, and the packet's fields
      when a packet carries it. */
  datatype Export = Export(id: nat, original: GenericMap, rec: GenericMap, wire: Option<GenericMap>)

  /** The two clock readings of one matching attempt; they are later than the operation's own. */
  datatype Reading = Reading(first: int, second: int)

  datatype State = State(
    packets: seq<Packet>, pending: seq<Pending>, written: seq<Packet>, exported: seq<Export>)

  const EMPTY := State([], [], [], [])

  // ---- One scan over the buffered packets ----

  datatype ScanResult = ScanResult(
    bestIdx: int, best: int, second: int, last: Option<FlowTuple>, multiple: bool)

  function ScoreOf(c: Config, core: WireCore, at: Arrival, data: GenericMap): int {
    Score(c.env, c.filters, core, at, data)
  }

  function ScoredTuple(c: Config, core: WireCore, at: Arrival, data: GenericMap): Option<FlowTuple> {
    if ScoreOf(c, core, at, data) >= 0 then TupleOf(EndpointsOf(c.env, core.fields)) else None
  }

  function ScanStep(r: ScanResult, i: nat, consumed: bool, score: int, tuple: Option<FlowTuple>): (r': ScanResult)
    requires r.bestIdx < i
    ensures r'.bestIdx <= i
  {
    var multiple := r.multiple ||
                    (tuple.Some? && r.last.Some? && !SameConnection(r.last.value, tuple.value));
    var r := r.(multiple := multiple, last := if tuple.Some? then tuple else r.last);
    if consumed then r
    else if score > r.best then r.(second := r.best, best := score, bestIdx := i)
    else if score > r.second then r.(second := score)
    else r
  }

  function Scan(c: Config, packets: seq<Packet>, at: Arrival, data: GenericMap): (r: ScanResult)
    ensures r.bestIdx < |packets|
  {
    if packets == [] then ScanResult(-1, -1, -1, None, false)
    else
      var n := |packets| - 1;
      ScanStep(Scan(c, packets[..n], at, data), n, packets[n].mark.Some?,
               ScoreOf(c, packets[n].core, at, data), ScoredTuple(c, packets[n].core, at, data))
  }

  predicate CloseCall(r: ScanResult) {
    r.bestIdx >= 0 && r.second >= 0 && r.best - r.second <= AMBIGUITY_MARGIN
  }

  predicate Complete(c: Config, m: GenericMap) { HasTuple(EndpointsOf(c.env, m)) }

  // ---- One attempt for one record ----

  datatype Outcome = Outcome(packets: seq<Packet>, pt: Pending, matched: Option<Export>)

  function Try(c: Config, packets: seq<Packet>, pt: Pending, clock: Reading, final: bool): Outcome {
    var data := Enrich(c.env, c.filters, pt.data);
    var scan := Scan(c, packets, pt.at, data);
    var partial := !Complete(c, pt.original);
    var pt1 := pt.(data := data, ambiguous := pt.ambiguous || (partial && scan.multiple));
    if scan.bestIdx < 0 || CloseCall(scan) || pt1.ambiguous
       || scan.best < MinAnnotationScore(EndpointsOf(c.env, data), c.filters) then
      Outcome(packets, pt1, None)
    else
      var core := packets[scan.bestIdx].core;
      if !final && partial && clock.first - pt.at.receivedAt < c.window
         && clock.second - core.at.receivedAt < c.window then
        Outcome(packets, pt1, None)
      else
        var d := AnnotatedData(c.env, data, core.fields);
        var rec := AnnotatedRecord(c.env, data, core.fields);
        Outcome(packets[scan.bestIdx := Packet(core, Some(Mark(pt.id, c.env.comment(d, pt.id))))],
                pt1.(data := rec),
                Some(Export(pt.id, pt.original, rec, Some(core.fields))))
  }

  // ---- One pass over the waiting records ----

  type Clock = nat -> Reading

  datatype PassResult = PassResult(packets: seq<Packet>, kept: seq<Pending>, exports: seq<Export>)

  /** Greedy, front to back; `k` numbers the attempts for the clock. */
  function MatchPass(c: Config, packets: seq<Packet>, pending: seq<Pending>, clock: Clock, k: nat, final: bool): PassResult
    decreases |pending|
  {
    if pending == [] then PassResult(packets, [], [])
    else
      var o := Try(c, packets, pending[0], clock(k), final);
      var rest := MatchPass(c, o.packets, pending[1..], clock, k + 1, final);
      if o.matched.Some? then rest.(exports := [o.matched.value] + rest.exports)
      else rest.(kept := [o.pt] + rest.kept)
  }

  function MatchAll(c: Config, s: State, clock: Clock, final: bool): State {
    var r := MatchPass(c, s.packets, s.pending, clock, 0, final);
    State(r.packets, r.kept, s.written, s.exported + r.exports)
  }

  // ---- Expiry ----

  predicate Expired(c: Config, receivedAt: int, now: int) { now - receivedAt >= c.window }

  /** The packets that have expired (or have not), in order. */
  function SelectPackets(c: Config, ps: seq<Packet>, now: int, expired: bool): seq<Packet> {
    if ps == [] then []
    else
      var rest := SelectPackets(c, ps[..|ps| - 1], now, expired);
      var p := ps[|ps| - 1];
      if Expired(c, p.core.at.receivedAt, now) == expired then rest + [p] else rest
  }

  function SelectPending(c: Config, pts: seq<Pending>, now: int, expired: bool): seq<Pending> {
    if pts == [] then []
    else
      var rest := SelectPending(c, pts[..|pts| - 1], now, expired);
      var pt := pts[|pts| - 1];
      if Expired(c, pt.at.receivedAt, now) == expired then rest + [pt] else rest
  }

  function UnmatchedExport(c: Config, pt: Pending): Export {
    Export(pt.id, pt.original, Unmatched(c.env, pt.original), None)
  }

  function UnmatchedExports(c: Config, pts: seq<Pending>): (r: seq<Export>)
  {
    if pts == [] then []
    else UnmatchedExports(c, pts[..|pts| - 1]) + [UnmatchedExport(c, pts[|pts| - 1])]
  }

  function ExpirePackets(c: Config, s: State, now: int): State {
    s.(written := s.written + SelectPackets(c, s.packets, now, true),
       packets := SelectPackets(c, s.packets, now, false))
  }

  function ExpirePending(c: Config, s: State, now: int): State {
    s.(exported := s.exported + UnmatchedExports(c, SelectPending(c, s.pending, now, true)),
       pending := SelectPending(c, s.pending, now, false))
  }

  function FlushExpired(c: Config, s: State, now: int, clock: Clock): State {
    ExpirePending(c, if s.packets == [] then s else ExpirePackets(c, MatchAll(c, s, clock, false), now), now)
  }

  // ---- Operations ----

  function Append(c: Config, s: State, core: WireCore): State {
    var packets := s.packets + [Packet(core, None)];
    if |packets| > MAX_BUFFERED then s.(written := s.written + [packets[0]], packets := packets[1..])
    else s.(packets := packets)
  }

  function EnqueueCore(now: int, fields: GenericMap, data: Bytes): WireCore {
    WireCore(Arrival(now, Timestamp(fields)), fields, data)
  }

  function Enqueue(c: Config, s: State, core: WireCore, first: Clock, second: Clock): State {
    MatchAll(c, Append(c, FlushExpired(c, s, core.at.receivedAt, first), core), second, false)
  }

  function NewPending(now: int, m: GenericMap, id: nat): Pending {
    Pending(Arrival(now, Timestamp(m)), m, m, id, false)
  }

  function Offer(c: Config, s: State, pt: Pending, reading: Reading): State {
    var o := Try(c, s.packets, pt, reading, false);
    if o.matched.Some? then State(o.packets, s.pending, s.written, s.exported + [o.matched.value])
    else s.(pending := s.pending + [o.pt])
  }

  function HandlePlaintext(c: Config, s: State, now: int, m: GenericMap, id: nat, clock: Clock, reading: Reading): State {
    Offer(c, FlushExpired(c, s, now, clock), NewPending(now, m, id), reading)
  }

  function FlushAll(c: Config, s: State, clock: Clock): State {
    var s1 := MatchAll(c, s, clock, true);
    State([], [], s1.written + s1.packets, s1.exported + UnmatchedExports(c, s1.pending))
  }

  // ---- Runs ----

  datatype Op =
    | EnqueueOp(at: int, fields: GenericMap, dataB64: string, first: Clock, second: Clock)
    | HandleOp(at: int, m: GenericMap, id: nat, first: Clock, reading: Reading)
    | TickOp(at: int, first: Clock)
    | FlushOp(first: Clock)

  /** A packet whose data does not decode is refused and changes nothing. */
  function Step(c: Config, s: State, op: Op): State {
    match op
    case EnqueueOp(now, fields, dataB64, first, second) =>
      var data := c.env.decode(dataB64);
      if data.None? then s else Enqueue(c, s, EnqueueCore(now, fields, data.value), first, second)
    case HandleOp(now, m, id, first, reading) => HandlePlaintext(c, s, now, m, id, first, reading)
    case TickOp(now, first) => FlushExpired(c, s, now, first)
    case FlushOp(first) => FlushAll(c, s, first)
  }

  function Run(c: Config, s: State, ops: seq<Op>): State {
    if ops == [] then s else Step(c, Run(c, s, ops[..|ops| - 1]), ops[|ops| - 1])
  }
}
