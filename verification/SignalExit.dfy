/** The termination signal: what the handler's exit, which skips every deferred call, leaves
    unwritten in the pcapng writer. */
module SignalExit {
  import opened StopProtocol

  /** How far the writer has got, as the handler can tell it apart. */
  datatype Phase =
    | NoWriter
    | Created     // not yet visible to the handler
    | Visible
    | Hidden      // cleared by the clean-up, not yet flushed
    | Flushed

  function PhaseOf(s: State): Phase {
    if FlushWriter in s.performed then Flushed
    else if !Has(s.defers, FlushWriter) then NoWriter
    else if s.writerSet then Visible
    else if s.pc.Unwinding? then Hidden
    else Created
  }

  function Rank(p: Phase): nat {
    match p
    case NoWriter => 0
    case Created => 1
    case Visible => 2
    case Hidden => 3
    case Flushed => 4
  }

  /** The handler's emergency flush: where the writer was when it looked, and whether anything has
      been written since. */
  datatype Signal = NotLooked | Looked(at: Phase, wrote: bool)

  /** The goroutine that follows the key log. It checks for a signal at the start of a tick only,
      and nothing waits for it. */
  datatype Watcher = Off | Resting | Ticking | Ended

  /** The handler is the caller of stop with number 0.
      `dirty`: the writer holds bytes that no flush has followed; a new writer holds its header.
      `held`: the correlation buffer holds packets.
      `late`: a key-log block was written after the final flush.
      `early`: the handler's call returned false before the clean-up had begun. */
  datatype Process = Process(
    capture: State, dirty: bool, held: bool, late: bool, early: bool,
    watcher: Watcher, stopReceived: bool, signal: Signal, exited: bool)

  datatype Event =
    | Inner(e: StopProtocol.Event)
    | Hold                      // a packet enters the correlation buffer
    | Write(drains: bool)       // bytes go to the writer; `drains` if none are left in the buffer
    | StartWatcher
    | TickBegin
    | TickEnd(wrote: bool)
    | Arrive                    // the signal
    | EmergencyFlush
    | Exit

  function Start(tls: bool, n: nat): Process {
    Process(Initial(tls, n), false, false, false, false, Off, false, NotLooked, false)
  }

  /** The event loop writes, and so does the buffer until it is closed; before the loop the
      collector embeds the key log. */
  predicate CanWrite(s: State) { s.pc.StartingServer? || s.pc.Running? || Buffering(s) }

  /** The correlation buffer is open and may hold packets. */
  predicate Buffering(s: State) {
    s.tls && (s.pc.Running? || (s.pc.Unwinding? && Has(s.defers, CloseBuffer)))
  }

  predicate Returned0(s: State, stopped: bool) { |s.stoppers| > 0 && s.stoppers[0] == Returned(stopped) }

  predicate Possible(p: Process, e: Event) {
    && !p.exited
    && match e
       case Inner(i) => Enabled(p.capture, i) && (i == Call(0) ==> p.stopReceived)
       case Hold => p.capture.tls && p.capture.pc.Running?
       case Write(_) => CanWrite(p.capture)
       case StartWatcher => p.watcher.Off? && p.capture.pc.StartingServer?
       case TickBegin => p.watcher.Resting?
       case TickEnd(_) => p.watcher.Ticking?
       case Arrive => !p.stopReceived
       case EmergencyFlush => Returned0(p.capture, false) && p.signal.NotLooked?
       case Exit => Returned0(p.capture, true) || p.signal.Looked?
  }

  predicate Creates(s: State, e: StopProtocol.Event) { e.Collect? && e.ok && s.pc.CreatingWriter? }

  predicate Performs(s: State, e: StopProtocol.Event, a: Action) {
    e.Collect? && s.pc.Unwinding? && s.defers.Push? && s.defers.top == a
  }

  predicate Flushes(s: State, e: StopProtocol.Event) { Performs(s, e, FlushWriter) }

  /** The handler's call finds no stop function although the clean-up has not begun. */
  predicate ComesEarly(s: State, e: StopProtocol.Event) {
    e == Call(0) && |s.stoppers| > 0 && s.stoppers[0].Idle? && !s.stopSet && !s.pc.Unwinding?
  }

  function Wrote(signal: Signal): Signal { if signal.Looked? then signal.(wrote := true) else signal }

  function After(p: Process, e: Event): Process
    requires Possible(p, e)
  {
    var s := p.capture;
    match e
    case Inner(i) =>
      var drained := p.held && Performs(s, i, CloseBuffer);
      p.(capture := Next(s, i),
         dirty := Creates(s, i) || drained || (p.dirty && !Flushes(s, i)),
         held := p.held && !drained,
         early := p.early || ComesEarly(s, i),
         signal := if drained then Wrote(p.signal) else p.signal)
    case Hold => p.(held := true)
    case Write(drains) => p.(dirty := true, held := p.held && !drains, signal := Wrote(p.signal))
    case StartWatcher => p.(watcher := Resting)
    case TickBegin => p.(watcher := if p.stopReceived then Ended else Ticking)
    case TickEnd(wrote) =>
      if wrote then
        p.(watcher := Resting, dirty := true, late := p.late || !Pending(s), signal := Wrote(p.signal))
      else p.(watcher := Resting)
    case Arrive => p.(stopReceived := true)
    case EmergencyFlush => p.(dirty := p.dirty && !s.writerSet, signal := Looked(PhaseOf(s), false))
    case Exit => p.(exited := true)
  }

  /** `q` is where some interleaving leads from `p`. */
  ghost predicate Leads(p: Process, q: Process) {
    exists ps: seq<Process>, events: seq<Event> :: IsTrace(ps, events) && ps[0] == p && ps[|events|] == q
  }

  ghost predicate IsTrace(ps: seq<Process>, events: seq<Event>) {
    && |ps| == |events| + 1
    && forall i :: 0 <= i < |events| ==> Possible(ps[i], events[i]) && ps[i + 1] == After(ps[i], events[i])
  }

  ghost predicate Occurs(p: Process) { exists tls: bool, n: nat :: Leads(Start(tls, n), p) }

  // ---- The writer goes through its phases in order ----

  predicate Pending(s: State) { Has(s.defers, FlushWriter) }

  lemma PhaseMeaning(s: State)
    requires Inv(s)
    ensures Pending(s) <==> PhaseOf(s) in {Created, Visible, Hidden}
    ensures s.writerSet <==> PhaseOf(s) == Visible
  {
    if s.writerSet { VisibleWriterIsOpen(s); }
    if s.pc.Unwinding? && Pending(s) { PerformedIsNotLeft(s, FlushWriter); }
    hide Has, DefersMatch, Rest, NoDuplicates, Flat, Registered;
  }

  /** Packets are only written while the handler can see the writer; the key log is not bound by that. */
  lemma WritesAreVisible(s: State)
    requires Inv(s) && CanWrite(s)
    ensures s.writerSet && s.stopSet
  {
    if s.pc.Unwinding? {
      RegisteredFacts(s);
      RestHas(s.defers, s.planned, CloseBuffer);
      StillBelow(s.defers, s.planned, CloseBuffer);
      BelowBuffer(s);
      BelowHas(s.defers, CloseBuffer, ClearActive);
    }
    hide Has, DefersMatch, Rest, NoDuplicates, Flat, Registered;
  }

  lemma BelowBuffer(s: State)
    requires s.tls
    ensures Has(Below(Registered(s), CloseBuffer), ClearActive)
  {
    hide Files;
    assert Below(Buffered(s), CloseBuffer) == Cleared(s);
  }

  /** One step of the collector moves the writer on, or leaves it where it is. */
  lemma PhaseAdvances(s: State, ok: bool)
    requires Inv(s) && Enabled(s, Collect(ok))
    ensures var t := CollectorStep(s, ok);
            && Rank(PhaseOf(s)) <= Rank(PhaseOf(t))
            && (Pending(t) <==> Creates(s, Collect(ok)) || (Pending(s) && !Flushes(s, Collect(ok))))
            && (Creates(s, Collect(ok)) ==> PhaseOf(s) == NoWriter)
  {
    if s.pc.Unwinding? {
      PerformAdvances(s);
    } else if Leaves(s.pc, ok) {
      hide Has, DefersMatch;
      PhaseMeaning(s);
    } else {
      SetupAdvances(s, ok);
    }
  }

  lemma PerformAdvances(s: State)
    requires Inv(s) && s.pc.Unwinding? && s.defers.Push?
    ensures var t := Perform(s);
            Rank(PhaseOf(s)) <= Rank(PhaseOf(t)) && (Pending(t) <==> Pending(s) && s.defers.top != FlushWriter)
  {
    PhaseMeaning(s);
    hide Rest, Flat, Registered;
    var t := Perform(s);
    assert Has(s.defers, FlushWriter) <==> s.defers.top == FlushWriter || Has(s.defers.below, FlushWriter);
    assert s.defers.top == FlushWriter ==> !Has(s.defers.below, FlushWriter);
    hide Has, NoDuplicates;
    assert FlushWriter in t.performed <==> FlushWriter in s.performed || s.defers.top == FlushWriter;
  }

  lemma SetupAdvances(s: State, ok: bool)
    requires Inv(s) && !s.pc.Unwinding?
    ensures var t := Advance(s, ok);
            && Rank(PhaseOf(s)) <= Rank(PhaseOf(t))
            && (Pending(t) <==> s.pc.CreatingWriter? || Pending(s))
            && (s.pc.CreatingWriter? ==> PhaseOf(s) == NoWriter)
  {
    SetupPending(s, ok);
    SetupKeepsFlags(s, ok);
    PhaseMeaning(s);
    hide Has, DefersMatch, NoDuplicates, Advance;
  }

  lemma SetupPending(s: State, ok: bool)
    requires Inv(s) && !s.pc.Unwinding?
    ensures Pending(Advance(s, ok)) <==> s.pc.CreatingWriter? || Pending(s)
    ensures s.pc.CreatingWriter? ==> !Pending(s)
    ensures PastRegistration(s.pc) ==> Pending(s)
  {
    SetupDefers(s);
    hide Has, Files, Cleared, Buffered, Registered, NoDuplicates, Flat;
    HasPush(s.defers);
    HasPush(Push(CloseServer, s.defers));
    if s.pc.Starting? {
      HasPush(Nil);
      HasPush(Push(Cancel, Nil));
      HasPush(Push(CloseDone, Push(Cancel, Nil)));
    }
  }

  lemma HasPush(d: Defers)
    ensures forall a :: Has(Push(a, d), FlushWriter) <==> a == FlushWriter || Has(d, FlushWriter)
    ensures !Has(Nil, FlushWriter)
  {
  }

  /** Which defers of a capture that is still starting hold the flush. */
  lemma SetupDefers(s: State)
    requires Inv(s) && !s.pc.Unwinding?
    ensures Pending(s) <==> PastRegistration(s.pc) || s.pc.SettingWriter? || s.pc.SettingStop?
  {
    FilesFacts(s);
    hide Has, Files, NoDuplicates, Flat;
    HasPush(Files(s));
    HasPush(Push(FlushWriter, Files(s)));
    HasPush(Cleared(s));
    HasPush(Buffered(s));
    HasPush(Push(CloseServer, Buffered(s)));
    HasPush(Nil);
    HasPush(Push(Cancel, Nil));
    HasPush(Push(CloseDone, Push(Cancel, Nil)));
  }

  // ---- What is unwritten, in every reachable state ----

  predicate Unsaved(signal: Signal) { signal.Looked? ==> signal.at != Visible || signal.wrote }

  /** The bytes. */
  ghost predicate Account(p: Process) {
    && (p.dirty <==> (Pending(p.capture) && Unsaved(p.signal)) || p.late)
    && (p.late ==> PhaseOf(p.capture) == Flushed)
    && (p.held ==> Buffering(p.capture))
    && (p.watcher != Off ==> Rank(PhaseOf(p.capture)) >= Rank(Visible))
  }

  /** The handler. */
  ghost predicate HandlerOk(p: Process) {
    && (p.signal.Looked? ==> Returned0(p.capture, false) && Rank(p.signal.at) <= Rank(PhaseOf(p.capture)))
    && (p.exited ==> Returned0(p.capture, true) || p.signal.Looked?)
    && (Returned0(p.capture, false) && !p.early ==> p.capture.pc.Unwinding? && !p.capture.stopSet)
  }

  ghost predicate ProcessInv(p: Process) { Inv(p.capture) && Account(p) && HandlerOk(p) }

  lemma AfterKeepsInv(p: Process, e: Event)
    requires ProcessInv(p) && Possible(p, e)
    ensures ProcessInv(After(p, e))
  {
    hide Inv, Pending, PhaseOf, CollectorStep, CanWrite, Buffering;
    PhaseMeaning(p.capture);
    match e
    case Inner(Collect(ok)) => CollectKeepsInv(p, ok);
    case Inner(Call(j)) => CallKeepsInv(p, j);
    case Hold => RunningIsBuffering(p.capture);
    case Write(_) => WritesAreVisible(p.capture);
    case StartWatcher => StartingIsVisible(p.capture);
    case TickBegin =>
    case TickEnd(_) =>
    case Arrive =>
    case EmergencyFlush =>
    case Exit =>
  }

  lemma RunningIsBuffering(s: State)
    ensures s.tls && s.pc.Running? ==> Buffering(s)
  {
  }

  lemma StartingIsVisible(s: State)
    requires Inv(s) && s.pc.StartingServer?
    ensures PhaseOf(s) == Visible
  {
    WritesAreVisible(s);
    PhaseMeaning(s);
    hide Inv, PhaseOf, Pending;
  }

  lemma CollectKeepsInv(p: Process, ok: bool)
    requires ProcessInv(p) && Possible(p, Inner(Collect(ok)))
    ensures ProcessInv(After(p, Inner(Collect(ok))))
  {
    hide Inv, PhaseOf, CollectorStep, CanWrite, Buffering, Pending, Creates;
    var s, i := p.capture, Collect(ok);
    CollectorKeepsInv(s, ok);
    PhaseAdvances(s, ok);
    PhaseMeaning(s);
    PhaseMeaning(CollectorStep(s, ok));
    CollectorLeavesStoppers(s, ok);
    CollectorLeavesUnwinding(s, ok);
    if p.held { BufferingEnds(s, ok); }
    DrainIsPending(s, i);
    hide Performs;
    assert Account(After(p, Inner(i)));
  }

  /** While the buffer is open the final flush is still to come. */
  lemma DrainIsPending(s: State, i: StopProtocol.Event)
    requires Inv(s)
    ensures Buffering(s) ==> Pending(s)
    ensures Performs(s, i, CloseBuffer) ==> !Flushes(s, i)
    ensures Flushes(s, i) ==> Pending(s)
  {
    if Buffering(s) { WritesAreVisible(s); PhaseMeaning(s); }
    hide Inv, PhaseOf, Rank;
  }

  /** The buffer stays open until its clean-up closes it. */
  lemma BufferingEnds(s: State, ok: bool)
    requires Inv(s) && Enabled(s, Collect(ok)) && Buffering(s)
    ensures Buffering(CollectorStep(s, ok)) || Performs(s, Collect(ok), CloseBuffer)
  {
    if s.pc.Running? && !ok { HasBuffer(s); }
    hide DefersMatch, Rest, NoDuplicates, Flat, Registered;
  }

  lemma HasBuffer(s: State)
    requires s.tls
    ensures Has(Registered(s), CloseBuffer)
  {
    assert Has(Buffered(s), CloseBuffer);
    hide Buffered;
  }

  lemma CollectorLeavesUnwinding(s: State, ok: bool)
    requires Inv(s) && Enabled(s, Collect(ok))
    ensures s.pc.Unwinding? ==> CollectorStep(s, ok).pc.Unwinding? && (!s.stopSet ==> !CollectorStep(s, ok).stopSet)
  {
  }

  lemma CallKeepsInv(p: Process, j: nat)
    requires ProcessInv(p) && Possible(p, Inner(Call(j)))
    ensures ProcessInv(After(p, Inner(Call(j))))
  {
    hide Inv, PhaseOf, CanWrite, Buffering, Pending;
    StopperKeepsInv(p.capture, j);
    StopperLeavesPhase(p.capture, j);
  }

  lemma CollectorLeavesStoppers(s: State, ok: bool)
    requires Inv(s) && Enabled(s, Collect(ok))
    ensures CollectorStep(s, ok).stoppers == s.stoppers
  {
    hide Has, DefersMatch, Flat, Rest, NoDuplicates, Registered, Advance;
    if !s.pc.Unwinding? { SetupKeepsFlags(s, ok); }
  }

  lemma StopperLeavesPhase(s: State, j: nat)
    requires j < |s.stoppers|
    ensures var t := StopperStep(s, j);
            && PhaseOf(t) == PhaseOf(s) && Pending(t) == Pending(s) && Buffering(t) == Buffering(s)
            && (Returned0(s, false) ==> Returned0(t, false))
  {
    hide Has;
  }

  lemma {:induction false} TraceKeepsInv(ps: seq<Process>, events: seq<Event>, k: nat)
    requires IsTrace(ps, events) && k < |ps| && ProcessInv(ps[0])
    ensures ProcessInv(ps[k])
  {
    hide ProcessInv, After, Possible;
    if k > 0 {
      TraceKeepsInv(ps, events, k - 1);
      AfterKeepsInv(ps[k - 1], events[k - 1]);
    }
  }

  lemma LeadsKeepsInv(p: Process, q: Process)
    requires Leads(p, q) && ProcessInv(p)
    ensures ProcessInv(q)
  {
    hide ProcessInv, After, Possible;
    var ps: seq<Process>, events: seq<Event> :| IsTrace(ps, events) && ps[0] == p && ps[|events|] == q;
    TraceKeepsInv(ps, events, |events|);
  }

  lemma InitialIsClean(tls: bool, n: nat)
    ensures ProcessInv(Start(tls, n))
  {
  }

  lemma OccursKeepsInv(p: Process)
    requires Occurs(p)
    ensures ProcessInv(p)
  {
    hide ProcessInv, Leads;
    var tls: bool, n: nat :| Leads(Start(tls, n), p);
    InitialIsClean(tls, n);
    LeadsKeepsInv(Start(tls, n), p);
  }

  // ---- Interleavings ----

  lemma LeadsToItself(p: Process)
    ensures Leads(p, p)
  {
    var none: seq<Event> := [];
    assert IsTrace([p], none) && [p][0] == p && [p][|none|] == p;
  }

  lemma LeadsOn(p: Process, q: Process, e: Event)
    requires Leads(p, q) && Possible(q, e)
    ensures Leads(p, After(q, e))
  {
    hide After, Possible;
    var ps: seq<Process>, events: seq<Event> :| IsTrace(ps, events) && ps[0] == p && ps[|events|] == q;
    var longer, script := ps + [After(q, e)], events + [e];
    forall i | 0 <= i < |script| ensures Possible(longer[i], script[i]) && longer[i + 1] == After(longer[i], script[i]) {
      assert longer[i] == ps[i];
      if i < |events| { assert longer[i + 1] == ps[i + 1]; }
    }
    assert longer[0] == p && longer[|script|] == After(q, e);
    assert IsTrace(longer, script);
  }

  lemma {:induction false} LeadsAlong(p: Process, ps: seq<Process>, events: seq<Event>, k: nat)
    requires IsTrace(ps, events) && k < |ps| && Leads(p, ps[0])
    ensures Leads(p, ps[k])
  {
    hide Leads, After, Possible;
    if k > 0 {
      LeadsAlong(p, ps, events, k - 1);
      LeadsOn(p, ps[k - 1], events[k - 1]);
    }
  }

  lemma LeadsFurther(p: Process, q: Process, r: Process)
    requires Leads(p, q) && Leads(q, r)
    ensures Leads(p, r)
  {
    hide After, Possible;
    var ps: seq<Process>, events: seq<Event> :| IsTrace(ps, events) && ps[0] == q && ps[|events|] == r;
    LeadsAlong(p, ps, events, |events|);
  }

  lemma OccursFurther(p: Process, q: Process)
    requires Occurs(p) && Leads(p, q)
    ensures Occurs(q)
  {
    hide Leads;
    var tls: bool, n: nat :| Leads(Start(tls, n), p);
    LeadsFurther(Start(tls, n), p, q);
  }

  lemma OccursOn(p: Process, e: Event)
    requires Occurs(p) && Possible(p, e)
    ensures Occurs(After(p, e))
  {
    hide Leads, After, Possible;
    var tls: bool, n: nat :| Leads(Start(tls, n), p);
    LeadsOn(Start(tls, n), p, e);
  }

  // ---- What the exit loses ----

  /** After a stop that returned true the exit loses a key-log block that was written after the final
      flush, and nothing else. After a false one it also loses bytes exactly if the writer exists and
      has not had its final flush, and the emergency flush either did not see it or was followed by
      another write; and it can lose packets that are still in the correlation buffer, but only if
      the call came before the stop function was set. */
  lemma ExitLosesExactly(p: Process)
    requires Occurs(p) && p.exited
    ensures Returned0(p.capture, true) || (Returned0(p.capture, false) && p.signal.Looked?)
    ensures Returned0(p.capture, true) ==> (p.dirty <==> p.late) && !p.held
    ensures Returned0(p.capture, false) ==>
              && Rank(p.signal.at) <= Rank(PhaseOf(p.capture))
              && (p.dirty <==> p.late || (PhaseOf(p.capture) in {Created, Visible, Hidden}
                                          && (p.signal.at != Visible || p.signal.wrote)))
              && (p.held ==> p.early && PhaseOf(p.capture) == Visible)
    ensures p.late ==> PhaseOf(p.capture) == Flushed
  {
    hide Occurs;
    OccursKeepsInv(p);
    PhaseMeaning(p.capture);
    if p.held { HeldIsVisible(p); }
    if Returned0(p.capture, true) { TrueMeansDone(p.capture, 0); }
    hide Inv, PhaseOf, Buffering;
  }

  /** Packets are in the buffer only while the stop function and the writer are registered. */
  lemma HeldIsVisible(p: Process)
    requires ProcessInv(p) && p.held
    ensures p.capture.stopSet && PhaseOf(p.capture) == Visible && Pending(p.capture)
  {
    WritesAreVisible(p.capture);
    PhaseMeaning(p.capture);
    hide Inv, PhaseOf, Pending;
  }

  predicate Untouched(p: Process) {
    && !p.exited && !p.stopReceived && p.signal.NotLooked?
    && |p.capture.stoppers| > 0 && p.capture.stoppers[0] == Idle && !p.capture.stopSet
  }

  /** The signal and its handler without interruption, when stop returns false at once. */
  function Handled(p: Process): Process
    requires Untouched(p)
  {
    After(After(After(After(p, Arrive), Inner(Call(0))), EmergencyFlush), Exit)
  }

  /** When stop returns false and nothing comes in between, the exit leaves no packet in the buffer,
      and it loses bytes exactly in two windows, after the writer is created and before it is made
      visible, and after the clean-up has cleared it and before its final flush; or if a key-log
      block has already come too late. */
  lemma UninterruptedExitLosesExactly(p: Process)
    requires Occurs(p) && Untouched(p)
    ensures var s := p.capture;
            && Handled(p).exited && !Handled(p).held
            && (Handled(p).dirty <==>
                  || s.pc.SettingWriter?
                  || (s.pc.Unwinding? && Has(s.defers, FlushWriter) && !Has(s.defers, ClearActive))
                  || p.late)
  {
    hide Occurs, Handled, PhaseOf, Buffering;
    OccursKeepsInv(p);
    HandledMeaning(p);
    var s := p.capture;
    if p.held { HeldIsVisible(p); }
    if s.pc.Unwinding? { UnwindingFlags(s); } else { SetupDefers(s); }
    PhaseMeaning(s);
    hide Cleanup, DefersMatch, Registered;
  }

  lemma HandledMeaning(p: Process)
    requires Untouched(p)
    ensures Handled(p).exited && Handled(p).held == p.held
    ensures Handled(p).dirty == (p.dirty && !p.capture.writerSet)
  {
    hide PhaseOf, Has;
  }

  lemma UnwindingFlags(s: State)
    requires Inv(s) && s.pc.Unwinding?
    ensures s.writerSet == s.stopSet == Has(s.defers, ClearActive)
  {
    hide Rest, NoDuplicates, Flat, Registered;
  }

  // ---- The key-log block that comes too late ----

  /** The signal has come, no tick is under way and no block has come too late. */
  predicate Quiet(p: Process) { p.stopReceived && !p.watcher.Ticking? && !p.late }

  lemma {:induction false} QuietAlong(ps: seq<Process>, events: seq<Event>, k: nat)
    requires IsTrace(ps, events) && k < |ps| && Quiet(ps[0])
    ensures Quiet(ps[k])
  {
    hide PhaseOf, Pending, Next, Enabled, CanWrite;
    if k > 0 { QuietAlong(ps, events, k - 1); }
  }

  /** A waiting handler whose stop returns true can still lose a key-log block exactly if a tick is
      under way: it will not start another, and it does not wait for this one. */
  lemma LateBlockPossibleIff(p: Process)
    requires Occurs(p) && !p.exited && p.stopReceived && !p.late
    requires |p.capture.stoppers| > 0 && p.capture.stoppers[0].Waiting?
    ensures p.watcher.Ticking? <==> exists q :: Leads(p, q) && q.exited && q.dirty && Returned0(q.capture, true)
  {
    hide Occurs, Leads;
    OccursKeepsInv(p);
    if p.watcher.Ticking? {
      var q := LateExit(p);
    }
    forall q | Leads(p, q) && q.exited && q.dirty && Returned0(q.capture, true) ensures p.watcher.Ticking? {
      OccursFurther(p, q);
      ExitLosesExactly(q);
      if !p.watcher.Ticking? { QuietLeads(p, q); }
    }
    hide ProcessInv;
  }

  lemma QuietLeads(p: Process, q: Process)
    requires Leads(p, q) && Quiet(p)
    ensures Quiet(q)
  {
    hide After, Possible, Quiet;
    var ps: seq<Process>, events: seq<Event> :| IsTrace(ps, events) && ps[0] == p && ps[|events|] == q;
    QuietAlong(ps, events, |events|);
  }

  /** What the collector's own steps leave alone. */
  predicate SameAround(p: Process, q: Process) {
    && q.watcher == p.watcher && q.stopReceived == p.stopReceived && q.late == p.late
    && q.exited == p.exited && q.capture.stoppers == p.capture.stoppers
  }

  lemma CollectLeavesAround(p: Process, ok: bool)
    requires ProcessInv(p) && Possible(p, Inner(Collect(ok)))
    ensures SameAround(p, After(p, Inner(Collect(ok))))
    ensures After(p, Inner(Collect(ok))).capture == CollectorStep(p.capture, ok)
  {
    CollectorLeavesStoppers(p.capture, ok);
    hide Inv, PhaseOf, Pending, CollectorStep, Creates, Flushes, Performs;
  }

  /** How many steps are left before the clean-up. */
  function Distance(pc: Pc): nat {
    if pc.DeferringClear? then 3 else if pc.CreatingBuffer? then 2 else if pc.Unwinding? then 0 else 1
  }

  lemma {:induction false} Stops(p: Process) returns (q: Process)
    requires ProcessInv(p) && !p.exited && (PastRegistration(p.capture.pc) || p.capture.pc.Unwinding?)
    ensures Leads(p, q) && SameAround(p, q) && q.capture.pc.Unwinding? && ProcessInv(q)
    decreases Distance(p.capture.pc)
  {
    hide Leads, ProcessInv, After;
    LeadsToItself(p);
    if p.capture.pc.Unwinding? {
      q := p;
    } else {
      var ok := p.capture.pc.DeferringClear? || p.capture.pc.CreatingBuffer?;
      CollectLeavesAround(p, ok);
      LeadsOn(p, p, Inner(Collect(ok)));
      AfterKeepsInv(p, Inner(Collect(ok)));
      var r := After(p, Inner(Collect(ok)));
      NextPc(p.capture, ok);
      q := Stops(r);
      LeadsFurther(p, r, q);
    }
  }

  lemma NextPc(s: State, ok: bool)
    requires PastRegistration(s.pc) && ok == (s.pc.DeferringClear? || s.pc.CreatingBuffer?)
    ensures CollectorStep(s, ok).pc == if s.pc.DeferringClear? then CreatingBuffer
                                       else if s.pc.CreatingBuffer? then StartingServer else Unwinding
  {
    hide WithDeferred, Perform;
  }

  lemma {:induction false} CleansUp(p: Process) returns (q: Process)
    requires ProcessInv(p) && !p.exited && p.capture.pc.Unwinding?
    ensures Leads(p, q) && SameAround(p, q) && q.capture.pc.Unwinding? && q.capture.defers == Nil && ProcessInv(q)
    decreases p.capture.defers
  {
    hide Leads, ProcessInv, After;
    LeadsToItself(p);
    if p.capture.defers.Nil? {
      q := p;
    } else {
      CollectLeavesAround(p, true);
      LeadsOn(p, p, Inner(Collect(true)));
      AfterKeepsInv(p, Inner(Collect(true)));
      var r := After(p, Inner(Collect(true)));
      assert r.capture.defers == p.capture.defers.below && r.capture.pc.Unwinding?;
      q := CleansUp(r);
      LeadsFurther(p, r, q);
    }
  }

  /** The tick under way outlives the whole clean-up and then writes its block. */
  lemma LateExit(p: Process) returns (q: Process)
    requires ProcessInv(p) && !p.exited && p.stopReceived && p.watcher.Ticking?
    requires |p.capture.stoppers| > 0 && p.capture.stoppers[0].Waiting?
    ensures Leads(p, q) && q.exited && q.dirty && q.late && Returned0(q.capture, true)
  {
    hide Leads, Account, HandlerOk, After, Possible, Inv;
    WaitingIsRegistered(p.capture);
    var u := Stops(p);
    var v := CleansUp(u);
    LeadsFurther(p, u, v);
    NothingLeft(v.capture);
    q := Finishes(p, v);
  }

  lemma Finishes(p: Process, v: Process) returns (q: Process)
    requires Leads(p, v) && !v.exited && v.stopReceived && v.watcher.Ticking?
    requires |v.capture.stoppers| > 0 && v.capture.stoppers[0].Waiting? && v.capture.doneClosed && !Pending(v.capture)
    ensures Leads(p, q) && q.exited && q.dirty && q.late && Returned0(q.capture, true)
  {
    hide Leads, Has;
    LeadsOn(p, v, Inner(Call(0)));
    var w := After(v, Inner(Call(0)));
    LeadsOn(p, w, TickEnd(true));
    var x := After(w, TickEnd(true));
    LeadsOn(p, x, Exit);
    q := After(x, Exit);
  }

  lemma WaitingIsRegistered(s: State)
    requires Inv(s) && |s.stoppers| > 0 && s.stoppers[0].Waiting?
    ensures PastRegistration(s.pc) || s.pc.Unwinding?
  {
    assert Asked(s.stoppers[0]);
    hide DefersMatch, Cleanup;
  }

  lemma NothingLeft(s: State)
    requires Inv(s) && s.pc.Unwinding? && s.defers == Nil
    ensures s.doneClosed && !Pending(s)
  {
    hide Rest, NoDuplicates, Flat, Registered;
  }

  // ---- Packets left in the buffer ----

  /** The buffer is empty and will stay so. */
  predicate Drained(p: Process) { !p.held && (p.capture.tls ==> p.capture.pc.Unwinding?) }

  lemma {:induction false} DrainedAlong(ps: seq<Process>, events: seq<Event>, k: nat)
    requires IsTrace(ps, events) && k < |ps| && Drained(ps[0])
    ensures Drained(ps[k])
  {
    hide Next, Drained, Possible, After;
    if k > 0 {
      DrainedAlong(ps, events, k - 1);
      DrainedStays(ps[k - 1], events[k - 1]);
    }
  }

  lemma DrainedStays(p: Process, e: Event)
    requires Drained(p) && Possible(p, e)
    ensures Drained(After(p, e))
  {
    hide Next, Enabled, Pending, PhaseOf, CanWrite;
    if e.Inner? { SameTls(p.capture, e.e); }
  }

  lemma SameTls(s: State, i: StopProtocol.Event)
    requires Enabled(s, i)
    ensures Next(s, i).tls == s.tls && (s.pc.Unwinding? ==> Next(s, i).pc.Unwinding?)
  {
    hide CollectorStep;
    if i.Collect? { CollectorKeepsTls(s, i.ok); }
  }

  lemma CollectorKeepsTls(s: State, ok: bool)
    requires s.pc.Unwinding? ==> s.defers.Push?
    ensures CollectorStep(s, ok).tls == s.tls && (s.pc.Unwinding? ==> CollectorStep(s, ok).pc.Unwinding?)
  {
    hide WithDeferred, Following, Leaves;
    if s.pc.Unwinding? {
      hide Advance, Return;
    } else if Leaves(s.pc, ok) {
      hide Advance, Perform;
    } else {
      hide Perform, Return;
    }
  }

  lemma {:induction false} ReachesLoop(p: Process) returns (q: Process)
    requires ProcessInv(p) && !p.exited && !p.capture.pc.Unwinding?
    ensures Leads(p, q) && SameAround(p, q) && q.capture.pc.Running? && q.capture.tls == p.capture.tls
    decreases Remaining(p.capture.pc)
  {
    hide Leads, ProcessInv, After;
    LeadsToItself(p);
    if p.capture.pc.Running? {
      q := p;
    } else {
      CollectLeavesAround(p, true);
      LeadsOn(p, p, Inner(Collect(true)));
      AfterKeepsInv(p, Inner(Collect(true)));
      var r := After(p, Inner(Collect(true)));
      ComesCloser(p.capture);
      q := ReachesLoop(r);
      LeadsFurther(p, r, q);
    }
  }

  /** How many steps are left before the event loop. */
  function Remaining(pc: Pc): nat {
    match pc
    case Starting => 9
    case OpeningFile => 8
    case OpeningPlaintext => 7
    case CreatingWriter => 6
    case SettingWriter => 5
    case SettingStop => 4
    case DeferringClear => 3
    case CreatingBuffer => 2
    case StartingServer => 1
    case _ => 0
  }

  lemma ComesCloser(s: State)
    requires !s.pc.Unwinding? && !s.pc.Running?
    ensures var t := CollectorStep(s, true);
            Remaining(t.pc) < Remaining(s.pc) && !t.pc.Unwinding? && t.tls == s.tls
  {
    hide WithDeferred;
  }

  /** After a false result the exit can leave packets in the correlation buffer exactly if there is
      such a buffer, and it still holds some or the clean-up has not begun. */
  lemma HeldPossibleIff(p: Process)
    requires Occurs(p) && !p.exited && Returned0(p.capture, false)
    ensures (exists q :: Leads(p, q) && q.exited && q.held)
            <==> p.capture.tls && (p.held || !p.capture.pc.Unwinding?)
  {
    hide Occurs, Leads;
    OccursKeepsInv(p);
    if p.capture.tls && (p.held || !p.capture.pc.Unwinding?) {
      var q := HeldExit(p);
    }
    forall q | Leads(p, q) && q.exited && q.held ensures p.capture.tls && (p.held || !p.capture.pc.Unwinding?) {
      if Drained(p) { DrainedLeads(p, q); } else if p.held { HeldNeedsBuffer(p); }
    }
    hide ProcessInv;
  }

  lemma HeldNeedsBuffer(p: Process)
    requires ProcessInv(p) && p.held
    ensures p.capture.tls
  {
  }

  lemma DrainedLeads(p: Process, q: Process)
    requires Leads(p, q) && Drained(p)
    ensures Drained(q)
  {
    hide After, Possible, Drained;
    var ps: seq<Process>, events: seq<Event> :| IsTrace(ps, events) && ps[0] == p && ps[|events|] == q;
    DrainedAlong(ps, events, |events|);
  }

  lemma HeldExit(p: Process) returns (q: Process)
    requires ProcessInv(p) && !p.exited && Returned0(p.capture, false)
    requires p.capture.tls && (p.held || !p.capture.pc.Unwinding?)
    ensures Leads(p, q) && q.exited && q.held
  {
    hide Leads, ProcessInv, After, PhaseOf, Has;
    if p.held {
      LeadsToItself(p);
      q := LooksAndExits(p, p);
    } else {
      var r := ReachesLoop(p);
      LeadsOn(p, r, Hold);
      var t := After(r, Hold);
      HoldHolds(r);
      q := LooksAndExits(p, t);
    }
  }

  lemma HoldHolds(p: Process)
    requires Possible(p, Hold)
    ensures After(p, Hold) == p.(held := true)
  {
  }

  lemma LooksAndExits(p: Process, r: Process) returns (q: Process)
    requires Leads(p, r) && !r.exited && Returned0(r.capture, false)
    ensures Leads(p, q) && q.exited && q.held == r.held
  {
    hide Leads, PhaseOf;
    q := r;
    if q.signal.NotLooked? {
      LeadsOn(p, q, EmergencyFlush);
      q := After(q, EmergencyFlush);
    }
    LeadsOn(p, q, Exit);
    q := After(q, Exit);
  }

  // ---- All of this happens ----

  /** Every run of the capture is a run of the process; the signal comes with the handler's call. */
  lemma {:induction false} Lift(states: seq<State>, events: seq<StopProtocol.Event>, k: nat) returns (p: Process)
    requires IsRun(states, events) && k < |states|
    ensures Occurs(p) && p.capture == states[k] && Untold(p)
  {
    if k == 0 {
      var tls: bool, n: nat :| states[0] == Initial(tls, n);
      p := Start(tls, n);
      LeadsToItself(p);
    } else {
      hide Occurs, Next, Enabled, Untold;
      var q := Lift(states, events, k - 1);
      RunKeepsInv(states, events, k - 1);
      p := LiftStep(q, events[k - 1]);
    }
  }

  /** No part of the process but the capture has moved, except that the signal came with the call. */
  predicate Untold(p: Process) {
    && p.signal.NotLooked? && !p.exited && p.watcher.Off? && !p.held
    && (|p.capture.stoppers| > 0 && p.capture.stoppers[0] == Idle ==> !p.stopReceived)
  }

  lemma LiftStep(q: Process, i: StopProtocol.Event) returns (p: Process)
    requires Occurs(q) && Untold(q) && Inv(q.capture) && Enabled(q.capture, i)
    ensures Occurs(p) && Untold(p) && p.capture == Next(q.capture, i)
  {
    hide Occurs;
    IdleBefore(q.capture, i);
    hide Next, Enabled, Inv, Creates, Performs;
    p := q;
    if i == Call(0) && !q.stopReceived {
      OccursOn(q, Arrive);
      p := After(q, Arrive);
    }
    OccursOn(p, Inner(i));
    p := After(p, Inner(i));
  }

  lemma IdleBefore(s: State, i: StopProtocol.Event)
    requires Inv(s) && Enabled(s, i)
    ensures var t := Next(s, i);
            |t.stoppers| > 0 && t.stoppers[0] == Idle ==> i != Call(0) && |s.stoppers| > 0 && s.stoppers[0] == Idle
  {
    hide Inv, CollectorStep;
    if i.Collect? { CollectorLeavesStoppers(s, i.ok); }
  }

  lemma LiftReachable(s: State) returns (p: Process)
    requires Reachable(s)
    ensures Occurs(p) && p.capture == s && Untold(p)
  {
    hide Occurs;
    var states: seq<State>, events: seq<StopProtocol.Event> :| IsRun(states, events) && states[|events|] == s;
    p := Lift(states, events, |events|);
  }

  lemma HandledOccurs(p: Process)
    requires Occurs(p) && Untouched(p)
    ensures Occurs(Handled(p)) && Returned0(Handled(p).capture, false)
    ensures Handled(p).capture.performed == p.capture.performed && PhaseOf(Handled(p).capture) == PhaseOf(p.capture)
  {
    hide Occurs, Has;
    OccursOn(p, Arrive);
    var q := After(p, Arrive);
    OccursOn(q, Inner(Call(0)));
    var r := After(q, Inner(Call(0)));
    OccursOn(r, EmergencyFlush);
    OccursOn(After(r, EmergencyFlush), Exit);
  }

  lemma AfterClearingFacts()
    ensures Has(AfterClearing(), FlushWriter) && !Has(AfterClearing(), ClearActive)
  {
    var done := Push(Announce, Push(CloseDone, Push(Cancel, Nil)));
    assert !Has(Push(CloseDone, Push(Cancel, Nil)), ClearActive);
    assert !Has(done, ClearActive);
    assert !Has(Push(CloseFile, done), ClearActive);
    assert !Has(Push(ClosePlaintext, Push(CloseFile, done)), ClearActive);
  }

  /** The second window is open: a signal that comes there exits with the last packets unwritten. */
  lemma SignalMayLosePackets()
    ensures exists p: Process ::
              Occurs(p) && p.exited && p.dirty && PhaseOf(p.capture) == Hidden
              && p.capture.performed == [CloseBuffer, ClearActive] && Returned0(p.capture, false)
  {
    hide Occurs, Reachable;
    var s := Clears();
    var p := LiftReachable(s);
    AfterClearingFacts();
    hide Has, AfterClearing;
    UninterruptedExitLosesExactly(p);
    HandledOccurs(p);
    OccursKeepsInv(p);
    PhaseMeaning(s);
    hide Handled, PhaseOf, ProcessInv;
  }

  /** From the creation of the writer to the start of the server. */
  lemma Prepares(p: Process) returns (q: Process)
    requires Occurs(p) && !p.exited && p.capture.pc.SettingWriter? && p.capture.tls
    ensures Occurs(q) && SameAround(p, q) && q.capture.pc.StartingServer? && q.capture.tls && q.capture.stopSet
    ensures q.signal == p.signal && q.held == p.held && q.early == p.early
  {
    hide Occurs;
    OccursKeepsInv(p);
    var ok := Inner(Collect(true));
    OccursOn(p, ok); q := After(p, ok);
    OccursOn(q, ok); q := After(q, ok);
    hide Inv, PhaseOf, Has;
    OccursOn(q, ok); q := After(q, ok);
    OccursOn(q, ok); q := After(q, ok);
  }

  /** A tick that begins before the signal and ends after the clean-up: stop returns true, and the
      exit loses the key-log block. */
  lemma SignalMayLoseKeys()
    ensures exists p: Process :: Occurs(p) && p.exited && p.dirty && p.late && Returned0(p.capture, true)
  {
    hide Occurs, Reachable;
    var s := Starts();
    var p := LiftReachable(s);
    p := Prepares(p);
    OccursOn(p, StartWatcher); p := After(p, StartWatcher);
    OccursOn(p, TickBegin); p := After(p, TickBegin);
    OccursOn(p, Arrive); p := After(p, Arrive);
    OccursOn(p, Inner(Call(0))); p := After(p, Inner(Call(0)));
    OccursOn(p, Inner(Call(0))); p := After(p, Inner(Call(0)));
    OccursKeepsInv(p);
    var q := LateExit(p);
    OccursFurther(p, q);
  }

  /** A handler whose call came before the stop function was set, and that is interrupted for long
      enough, exits while the correlation buffer holds packets. */
  lemma SignalMayLoseHeldPackets()
    ensures exists p: Process :: Occurs(p) && p.exited && p.held && p.early && Returned0(p.capture, false)
  {
    hide Occurs;
    var p := Refused();
    p := Prepares(p);
    hide PhaseOf, Has;
    OccursOn(p, Inner(Collect(true))); p := After(p, Inner(Collect(true)));
    OccursOn(p, Hold); p := After(p, Hold);
    OccursOn(p, Exit); p := After(p, Exit);
  }

  /** A handler whose call found no stop function, and whose flush found no writer. */
  lemma Refused() returns (p: Process)
    ensures Occurs(p) && !p.exited && p.capture.pc.SettingWriter? && p.capture.tls
    ensures p.early && p.signal.Looked? && Returned0(p.capture, false)
  {
    hide Occurs, Reachable, Has;
    var s := Starts();
    p := LiftReachable(s);
    OccursOn(p, Arrive); p := After(p, Arrive);
    OccursOn(p, Inner(Call(0))); p := After(p, Inner(Call(0)));
    OccursOn(p, EmergencyFlush); p := After(p, EmergencyFlush);
  }
}
