/** Stopping a capture: the collector goroutine with its deferred clean-up, any number of
    goroutines that call stop, and the signal handler's emergency flush. */
module StopProtocol {

  /** What the collector defers, in the order of its source. */
  datatype Action =
    | Cancel | CloseDone | Announce | CloseFile | ClosePlaintext | FlushWriter
    | ClearActive | CloseBuffer | CloseServer | StopDeadline

  /** Deferred calls, the latest on top. */
  datatype Defers = Nil | Push(top: Action, below: Defers)

  /** Where the collector is; after `Running` it unwinds its defers. */
  datatype Pc =
    | Starting | OpeningFile | OpeningPlaintext | CreatingWriter | SettingWriter | SettingStop
    | DeferringClear | CreatingBuffer | StartingServer | Running | Unwinding

  datatype Stopper = Idle | Holding | Waiting | Returned(stopped: bool)

  /** `tls` says whether plaintext capture is enabled, `hasPlaintext` whether its file was opened;
      `planned` records the defers at the moment the collector returned. */
  datatype State = State(
    tls: bool, pc: Pc, hasPlaintext: bool, serving: bool,
    defers: Defers, planned: Defers, performed: seq<Action>,
    writerSet: bool, stopSet: bool, cancelled: bool, doneClosed: bool,
    stoppers: seq<Stopper>)

  function Initial(tls: bool, n: nat): State {
    State(tls, Starting, false, false, Nil, Nil, [], false, false, false, false, seq(n, _ => Idle))
  }

  datatype Event = Collect(ok: bool) | Call(i: nat)

  function Return(s: State): State { s.(planned := s.defers, pc := Unwinding) }

  function Perform(s: State): State
    requires s.defers.Push?
  {
    var a := s.defers.top;
    s.(defers := s.defers.below, performed := s.performed + [a],
       writerSet := s.writerSet && a != ClearActive, stopSet := s.stopSet && a != ClearActive,
       doneClosed := s.doneClosed || a == CloseDone, cancelled := s.cancelled || a == Cancel)
  }

  /** The collector leaves its function here: a file, writer or server could not be created, or
      a limit, a signal or a cancelled context ended the loop. */
  predicate Leaves(pc: Pc, ok: bool) {
    !ok && (pc.OpeningFile? || pc.CreatingWriter? || pc.StartingServer? || pc.Running?)
  }

  function Following(pc: Pc): Pc {
    match pc
    case Starting => OpeningFile
    case OpeningFile => OpeningPlaintext
    case OpeningPlaintext => CreatingWriter
    case CreatingWriter => SettingWriter
    case SettingWriter => SettingStop
    case SettingStop => DeferringClear
    case DeferringClear => CreatingBuffer
    case CreatingBuffer => StartingServer
    case StartingServer => Running
    case Running => Running
    case Unwinding => Unwinding
  }

  /** What is deferred after the step; the plaintext file may fail to open without further ado. */
  function WithDeferred(s: State, ok: bool): Defers {
    match s.pc
    case Starting => Push(Announce, Push(CloseDone, Push(Cancel, Nil)))
    case OpeningFile => Push(CloseFile, s.defers)
    case OpeningPlaintext => if s.tls && ok then Push(ClosePlaintext, s.defers) else s.defers
    case CreatingWriter => Push(FlushWriter, s.defers)
    case DeferringClear => Push(ClearActive, s.defers)
    case CreatingBuffer => if s.tls then Push(CloseBuffer, s.defers) else s.defers
    case StartingServer => Push(StopDeadline, Push(CloseServer, s.defers))
    case _ => s.defers
  }

  function Advance(s: State, ok: bool): State {
    s.(pc := Following(s.pc),
       defers := WithDeferred(s, ok),
       hasPlaintext := s.hasPlaintext || (s.pc.OpeningPlaintext? && s.tls && ok),
       writerSet := s.writerSet || s.pc.SettingWriter?,
       stopSet := s.stopSet || s.pc.SettingStop?,
       serving := s.serving || s.pc.StartingServer?)
  }

  /** One step of the collector; `ok` tells whether the step's call succeeded. While running, a
      step with `ok` handles one message. */
  function CollectorStep(s: State, ok: bool): State
    requires s.pc.Unwinding? ==> s.defers.Push?
  {
    if s.pc.Unwinding? then Perform(s)
    else if Leaves(s.pc, ok) then Return(s)
    else Advance(s, ok)
  }

  /** What a stopper does next: read the stop function, cancel the context, wait for the done
      channel to be closed. */
  function Proceed(p: Stopper, stopSet: bool): Stopper {
    match p
    case Idle => if stopSet then Holding else Returned(false)
    case Holding => Waiting
    case Waiting => Returned(true)
    case Returned(_) => p
  }

  function StopperStep(s: State, i: nat): State
    requires i < |s.stoppers|
  {
    s.(cancelled := s.cancelled || s.stoppers[i].Holding?,
       stoppers := s.stoppers[i := Proceed(s.stoppers[i], s.stopSet)])
  }

  predicate Enabled(s: State, e: Event) {
    match e
    case Collect(_) => s.pc.Unwinding? ==> s.defers.Push?
    case Call(i) => i < |s.stoppers| && !s.stoppers[i].Returned? && (s.stoppers[i].Waiting? ==> s.doneClosed)
  }

  function Next(s: State, e: Event): State
    requires Enabled(s, e)
  {
    match e
    case Collect(ok) => CollectorStep(s, ok)
    case Call(i) => StopperStep(s, i)
  }

  ghost predicate IsRun(states: seq<State>, events: seq<Event>) {
    && |states| == |events| + 1
    && (exists tls: bool, n: nat :: states[0] == Initial(tls, n))
    && forall i :: 0 <= i < |events| ==> Enabled(states[i], events[i]) && states[i + 1] == Next(states[i], events[i])
  }

  ghost predicate Reachable(s: State) {
    exists states: seq<State>, events: seq<Event> :: IsRun(states, events) && states[|events|] == s
  }

  // ---- The clean-up ----

  predicate Has(d: Defers, a: Action) { d.Push? && (d.top == a || Has(d.below, a)) }

  predicate NoDuplicates(d: Defers) { d.Push? ==> !Has(d.below, d.top) && NoDuplicates(d.below) }

  function Flat(d: Defers): seq<Action> { if d.Nil? then [] else [d.top] + Flat(d.below) }

  /** What is left once everything down to and including `a` has been performed. */
  function Below(d: Defers, a: Action): Defers {
    if d.Nil? then Nil else if d.top == a then d.below else Below(d.below, a)
  }

  /** `d` is what is left of `full`. */
  predicate Rest(d: Defers, full: Defers) { d == full || (full.Push? && Rest(d, full.below)) }

  function Files(s: State): Defers {
    var file := Push(CloseFile, Push(Announce, Push(CloseDone, Push(Cancel, Nil))));
    if s.hasPlaintext then Push(ClosePlaintext, file) else file
  }

  function Cleared(s: State): Defers { Push(ClearActive, Push(FlushWriter, Files(s))) }

  function Buffered(s: State): Defers { if s.tls then Push(CloseBuffer, Cleared(s)) else Cleared(s) }

  /** The defers of a capture that got as far as registering its stop function. */
  function Registered(s: State): Defers {
    if s.serving then Push(StopDeadline, Push(CloseServer, Buffered(s))) else Buffered(s)
  }

  predicate PastRegistration(pc: Pc) {
    pc.DeferringClear? || pc.CreatingBuffer? || pc.StartingServer? || pc.Running?
  }

  predicate DefersMatch(s: State) {
    match s.pc
    case Starting => s.defers == Nil && !s.hasPlaintext
    case OpeningFile => s.defers == Push(Announce, Push(CloseDone, Push(Cancel, Nil))) && !s.hasPlaintext
    case OpeningPlaintext => s.defers == Files(s) && !s.hasPlaintext
    case CreatingWriter => s.defers == Files(s)
    case SettingWriter => s.defers == Push(FlushWriter, Files(s))
    case SettingStop => s.defers == Push(FlushWriter, Files(s))
    case DeferringClear => s.defers == Push(FlushWriter, Files(s))
    case CreatingBuffer => s.defers == Cleared(s)
    case StartingServer => s.defers == Buffered(s)
    case Running => s.defers == Registered(s)
    case Unwinding => true
  }

  predicate Asked(p: Stopper) { p.Holding? || p.Waiting? || p == Returned(true) }

  /** Before the clean-up. */
  ghost predicate Setup(s: State) {
    && s.performed == [] && DefersMatch(s) && !s.doneClosed
    && (s.stopSet <==> PastRegistration(s.pc))
    && (s.writerSet <==> PastRegistration(s.pc) || s.pc.SettingStop?)
    && (s.pc.Running? <==> s.serving)
  }

  /** During and after it. */
  ghost predicate Cleanup(s: State) {
    && Rest(s.defers, s.planned) && NoDuplicates(s.planned) && NoDuplicates(s.defers)
    && s.performed + Flat(s.defers) == Flat(s.planned)
    && Has(s.planned, CloseDone)
    && (s.planned == Registered(s)
        || (!Has(s.planned, ClearActive) && !Has(s.planned, FlushWriter) && !Has(s.planned, CloseBuffer)))
    && (s.stopSet <==> Has(s.defers, ClearActive))
    && (s.writerSet <==> s.stopSet)
    && (s.doneClosed <==> !Has(s.defers, CloseDone))
  }

  ghost predicate Inv(s: State) {
    && (if s.pc.Unwinding? then Cleanup(s) else Setup(s))
    && (forall i :: 0 <= i < |s.stoppers| && Asked(s.stoppers[i]) ==>
          if s.pc.Unwinding? then s.planned == Registered(s) else s.stopSet)
    && (forall i :: 0 <= i < |s.stoppers| && s.stoppers[i] == Returned(true) ==> s.doneClosed)
    && (forall i :: 0 <= i < |s.stoppers| && (s.stoppers[i].Waiting? || s.stoppers[i] == Returned(true)) ==> s.cancelled)
  }

  lemma {:induction false} RestHas(d: Defers, full: Defers, a: Action)
    requires Rest(d, full) && Has(d, a)
    ensures Has(full, a)
  {
    if d != full { RestHas(d, full.below, a); }
  }

  lemma {:induction false} RestBelow(d: Defers, full: Defers)
    requires Rest(d, full) && d.Push?
    ensures Rest(d.below, full)
  {
    if d != full { RestBelow(d, full.below); }
  }

  /** Once `a` is no longer left, only what lies below it can be. */
  lemma {:induction false} RestPast(d: Defers, full: Defers, a: Action)
    requires Rest(d, full) && Has(full, a) && !Has(d, a)
    ensures Rest(d, Below(full, a))
  {
    if full.top != a { RestPast(d, full.below, a); }
  }

  lemma FilesFacts(s: State)
    ensures NoDuplicates(Files(s)) && Has(Files(s), CloseDone)
    ensures !Has(Files(s), FlushWriter) && !Has(Files(s), ClearActive) && !Has(Files(s), CloseBuffer)
    ensures !Has(Files(s), CloseServer) && !Has(Files(s), StopDeadline)
  {
    var done := Push(CloseDone, Push(Cancel, Nil));
    assert NoDuplicates(done) && Has(done, CloseDone);
    assert NoDuplicates(Push(Announce, done));
  }

  lemma BufferedFacts(s: State)
    ensures NoDuplicates(Push(FlushWriter, Files(s))) && NoDuplicates(Cleared(s)) && NoDuplicates(Buffered(s))
    ensures Has(Buffered(s), CloseDone) && Has(Buffered(s), ClearActive)
    ensures !Has(Buffered(s), CloseServer) && !Has(Buffered(s), StopDeadline)
    ensures Below(Buffered(s), ClearActive) == Push(FlushWriter, Files(s))
  {
    FilesFacts(s);
    var tail := Push(FlushWriter, Files(s));
    assert NoDuplicates(tail) && Has(tail, CloseDone) && !Has(tail, ClearActive) && !Has(tail, CloseBuffer);
    assert !Has(tail, CloseServer) && !Has(tail, StopDeadline);
    assert Cleared(s) == Push(ClearActive, tail);
    hide Files, Cleared;
    assert NoDuplicates(Cleared(s)) && Has(Cleared(s), CloseDone) && !Has(Cleared(s), CloseBuffer);
    assert !Has(Cleared(s), CloseServer) && !Has(Cleared(s), StopDeadline);
    assert Below(Cleared(s), ClearActive) == tail;
  }

  lemma RegisteredFacts(s: State)
    ensures NoDuplicates(Registered(s)) && NoDuplicates(Buffered(s)) && NoDuplicates(Cleared(s))
    ensures Has(Registered(s), CloseDone) && Has(Registered(s), ClearActive)
    ensures NoDuplicates(Push(FlushWriter, Files(s)))
    ensures Below(Registered(s), ClearActive) == Push(FlushWriter, Files(s))
  {
    BufferedFacts(s);
    hide Buffered, Files, Cleared;
    var server := Push(CloseServer, Buffered(s));
    assert NoDuplicates(server) && Has(server, CloseDone) && Has(server, ClearActive) && !Has(server, StopDeadline);
    assert Below(server, ClearActive) == Push(FlushWriter, Files(s));
  }

  // ---- Every interleaving keeps the invariant ----

  lemma ReturnKeepsInv(s: State)
    requires Inv(s) && Leaves(s.pc, false)
    ensures Inv(Return(s))
  {
    hide Flat, Has, NoDuplicates, DefersMatch, Registered;
    ReturnStartsCleanup(s);
    RegisteredFrame(s, Return(s));
    if PastRegistration(s.pc) { LeavingDefers(s); }
    hide Cleanup;
  }

  lemma ReturnStartsCleanup(s: State)
    requires Setup(s) && Leaves(s.pc, false)
    ensures Cleanup(Return(s))
  {
    LeavingDefers(s);
    hide Flat, Has, NoDuplicates, DefersMatch, Registered;
    RegisteredFrame(s, Return(s));
    FlatFromEmpty(s.defers);
  }

  lemma FlatFromEmpty(d: Defers)
    ensures [] + Flat(d) == Flat(d)
  {
    hide Flat;
  }

  lemma LeavingDefers(s: State)
    requires DefersMatch(s) && Leaves(s.pc, false) && (!s.pc.Running? ==> !s.serving)
    ensures NoDuplicates(s.defers) && Has(s.defers, CloseDone)
    ensures if PastRegistration(s.pc) then s.defers == Registered(s) && Has(s.defers, ClearActive)
            else !Has(s.defers, ClearActive) && !Has(s.defers, FlushWriter) && !Has(s.defers, CloseBuffer)
  {
    FilesFacts(s);
    RegisteredFacts(s);
    hide Files, Buffered;
  }

  lemma UnwindKeepsInv(s: State)
    requires Inv(s) && s.pc.Unwinding? && s.defers.Push?
    ensures Inv(Perform(s))
  {
    hide Registered, Rest, Flat;
    var t := Perform(s);
    RestBelow(s.defers, s.planned);
    FlatOne(s.performed, s.defers);
    assert Registered(t) == Registered(s) by { RegisteredFrame(s, t); }
    if s.defers.top == ClearActive { RestHas(s.defers, s.planned, ClearActive); }
    assert Has(s.defers, s.defers.top) && !Has(t.defers, s.defers.top);
    assert forall a :: Has(t.defers, a) ==> Has(s.defers, a);
    assert forall a :: Has(s.defers, a) && a != s.defers.top ==> Has(t.defers, a);
    hide Has;
    assert NoDuplicates(t.defers);
    hide NoDuplicates;
    assert Cleanup(t);
    hide Cleanup;
  }

  lemma FlatOne(performed: seq<Action>, d: Defers)
    requires d.Push?
    ensures performed + [d.top] + Flat(d.below) == performed + Flat(d)
  {
    var rest := Flat(d.below);
    assert Flat(d) == [d.top] + rest;
    hide Flat;
    assert performed + [d.top] + rest == performed + ([d.top] + rest);
  }

  lemma RegisteredFrame(s: State, t: State)
    requires s.tls == t.tls && s.serving == t.serving && s.hasPlaintext == t.hasPlaintext
    ensures Registered(t) == Registered(s) && Buffered(t) == Buffered(s)
    ensures Cleared(t) == Cleared(s) && Files(t) == Files(s)
  {
  }

  lemma SetupKeepsInv(s: State, ok: bool)
    requires Inv(s) && !s.pc.Unwinding?
    ensures Inv(Advance(s, ok))
  {
    SetupKeepsFlags(s, ok);
    SetupKeepsDefers(s, ok);
    hide Cleanup, DefersMatch, Asked, Registered, Advance;
  }

  lemma SetupKeepsFlags(s: State, ok: bool)
    requires Setup(s) && !s.pc.Unwinding?
    ensures var t := Advance(s, ok);
            && t.performed == [] && !t.doneClosed && !t.pc.Unwinding? && t.stoppers == s.stoppers
            && (t.stopSet <==> PastRegistration(t.pc))
            && (t.writerSet <==> PastRegistration(t.pc) || t.pc.SettingStop?)
            && (t.pc.Running? <==> t.serving)
            && (s.stopSet ==> t.stopSet)
  {
    hide DefersMatch, Has, NoDuplicates, Flat;
    if s.pc.StartingServer? || s.pc.Running? {
    } else if PastRegistration(s.pc) {
    } else {
    }
  }

  lemma SetupKeepsDefers(s: State, ok: bool)
    requires Setup(s) && !s.pc.Unwinding?
    ensures DefersMatch(Advance(s, ok))
  {
    hide Has, NoDuplicates, Flat, Rest, Cleanup, Below, Asked;
  }

  lemma CollectorKeepsInv(s: State, ok: bool)
    requires Inv(s) && Enabled(s, Collect(ok))
    ensures Inv(CollectorStep(s, ok))
  {
    hide Inv, Return, Perform, Advance;
    if s.pc.Unwinding? {
      UnwindKeepsInv(s);
    } else if Leaves(s.pc, ok) {
      ReturnKeepsInv(s);
    } else {
      SetupKeepsInv(s, ok);
    }
  }

  lemma StopperKeepsInv(s: State, i: nat)
    requires Inv(s) && Enabled(s, Call(i))
    ensures Inv(StopperStep(s, i))
  {
    hide Has, NoDuplicates, Flat, Rest, Registered, DefersMatch;
    var t := StopperStep(s, i);
    RegisteredFrame(s, t);
    if s.pc.Unwinding? {
      if s.stopSet { RestHas(s.defers, s.planned, ClearActive); }
      assert Cleanup(t);
    } else {
      DefersFrame(s, t);
      assert Setup(t);
    }
    hide Cleanup, Setup;
  }

  lemma DefersFrame(s: State, t: State)
    requires s.tls == t.tls && s.serving == t.serving && s.hasPlaintext == t.hasPlaintext
    requires s.pc == t.pc && s.defers == t.defers && DefersMatch(s)
    ensures DefersMatch(t)
  {
    RegisteredFrame(s, t);
    hide Registered, Buffered, Cleared, Files;
  }

  lemma {:induction false} RunKeepsInv(states: seq<State>, events: seq<Event>, k: nat)
    requires IsRun(states, events) && k < |states|
    ensures Inv(states[k])
  {
    if k > 0 {
      RunKeepsInv(states, events, k - 1);
      match events[k - 1]
      case Collect(ok) => CollectorKeepsInv(states[k - 1], ok);
      case Call(i) => StopperKeepsInv(states[k - 1], i);
    }
  }

  lemma ReachableKeepsInv(s: State)
    requires Reachable(s)
    ensures Inv(s)
  {
    hide Inv;
    var states: seq<State>, events: seq<Event> :| IsRun(states, events) && states[|events|] == s;
    RunKeepsInv(states, events, |events|);
  }

  lemma NextIsReachable(s: State, e: Event)
    requires Reachable(s) && Enabled(s, e)
    ensures Reachable(Next(s, e))
  {
    hide Next, Enabled;
    var states: seq<State>, events: seq<Event> :| IsRun(states, events) && states[|events|] == s;
    var longer, script := states + [Next(s, e)], events + [e];
    forall i | 0 <= i < |script| ensures Enabled(longer[i], script[i]) && longer[i + 1] == Next(longer[i], script[i]) {
      assert longer[i] == states[i];
      if i < |events| { assert longer[i + 1] == states[i + 1]; }
    }
    assert longer[0] == states[0];
    assert IsRun(longer, script);
  }

  // ---- What a stop means ----

  /** The clean-up in the order in which it is promised. */
  function PromisedOrder(s: State): seq<Action> {
    var files := (if s.hasPlaintext then [ClosePlaintext] else []) + [CloseFile, Announce, CloseDone, Cancel];
    var buffer := (if s.tls then [CloseBuffer] else []) + ([ClearActive, FlushWriter] + files);
    (if s.serving then [StopDeadline, CloseServer] else []) + buffer
  }

  lemma FlatPush(a: Action, d: Defers)
    ensures Flat(Push(a, d)) == [a] + Flat(d)
  {
  }

  lemma FlatNil()
    ensures Flat(Nil) == []
  {
  }

  lemma FlatFiles(s: State)
    ensures Flat(Files(s)) == (if s.hasPlaintext then [ClosePlaintext] else []) + [CloseFile, Announce, CloseDone, Cancel]
  {
    assert Flat(Nil) == [];
    hide Flat;
    FlatPush(Cancel, Nil);
    FlatPush(CloseDone, Push(Cancel, Nil));
    FlatPush(Announce, Push(CloseDone, Push(Cancel, Nil)));
    var file := Push(CloseFile, Push(Announce, Push(CloseDone, Push(Cancel, Nil))));
    FlatPush(CloseFile, Push(Announce, Push(CloseDone, Push(Cancel, Nil))));
    assert Flat(file) == [CloseFile, Announce, CloseDone, Cancel];
    FlatPush(ClosePlaintext, file);
  }

  lemma FlatCleared(s: State)
    ensures Flat(Cleared(s)) == [ClearActive, FlushWriter] + Flat(Files(s))
  {
    hide Flat, Files;
    FlatPush(FlushWriter, Files(s));
    FlatPush(ClearActive, Push(FlushWriter, Files(s)));
  }

  lemma FlatBuffered(s: State)
    ensures Flat(Buffered(s)) == (if s.tls then [CloseBuffer] else []) + Flat(Cleared(s))
  {
    hide Flat, Cleared;
    FlatPush(CloseBuffer, Cleared(s));
  }

  lemma RegisteredIsThePromisedOrder(s: State)
    ensures Flat(Registered(s)) == PromisedOrder(s)
  {
    hide Flat, Files, Cleared, Buffered;
    FlatFiles(s);
    FlatCleared(s);
    FlatBuffered(s);
    FlatPush(CloseServer, Buffered(s));
    FlatPush(StopDeadline, Push(CloseServer, Buffered(s)));
  }

  /** A call that waits, or has waited, has cancelled the collector's context. */
  lemma StopCancels(s: State, i: nat)
    requires Reachable(s) && i < |s.stoppers| && (s.stoppers[i].Waiting? || s.stoppers[i] == Returned(true))
    ensures s.cancelled
  {
    hide Reachable;
    ReachableKeepsInv(s);
    hide Setup, Cleanup, Registered;
  }

  /** In the event loop everything is registered and deferred. */
  lemma LoopHoldsEverything(s: State)
    requires Reachable(s) && s.pc.Running?
    ensures s.serving && s.stopSet && s.writerSet && s.performed == [] && Flat(s.defers) == PromisedOrder(s)
  {
    hide Reachable, PromisedOrder;
    ReachableKeepsInv(s);
    RegisteredIsThePromisedOrder(s);
    hide Registered, Flat;
  }

  /** A plaintext file that was opened is among those to be closed, from then on. */
  lemma {:induction false} OpenedFileIsClosed(states: seq<State>, events: seq<Event>, i: nat, k: nat)
    requires IsRun(states, events) && i < k < |states|
    requires states[i].pc.OpeningPlaintext? && states[i].tls && events[i] == Collect(true)
    ensures states[k].hasPlaintext && ClosePlaintext in PromisedOrder(states[k])
  {
    hide CollectorStep, Enabled;
    if k > i + 1 {
      OpenedFileIsClosed(states, events, i, k - 1);
      FileStaysOpen(states[k - 1], events[k - 1]);
    } else {
      FileOpens(states[i]);
    }
  }

  lemma FileOpens(s: State)
    requires s.pc.OpeningPlaintext? && s.tls
    ensures CollectorStep(s, true).hasPlaintext
  {
    hide WithDeferred, Perform;
  }

  lemma FileStaysOpen(s: State, e: Event)
    requires Enabled(s, e) && s.hasPlaintext
    ensures Next(s, e).hasPlaintext
  {
    hide WithDeferred, Has;
  }

  /** If a call to stop returned true, the buffer has been closed, the stop function cleared, the
      writer flushed and both files closed, in that order, and at most the cancelling is left. */
  lemma StopWaitsForCleanup(s: State, i: nat)
    requires Reachable(s) && i < |s.stoppers| && s.stoppers[i] == Returned(true)
    ensures s.performed == PromisedOrder(s) || s.performed + [Cancel] == PromisedOrder(s)
  {
    hide Reachable, PromisedOrder;
    ReachableKeepsInv(s);
    TrueMeansDone(s, i);
  }

  lemma TrueMeansDone(s: State, i: nat)
    requires Inv(s) && i < |s.stoppers| && s.stoppers[i] == Returned(true)
    ensures s.performed == PromisedOrder(s) || s.performed + [Cancel] == PromisedOrder(s)
    ensures s.pc.Unwinding? && !Has(s.defers, FlushWriter)
  {
    hide Registered, PromisedOrder, Flat, NoDuplicates;
    RestPast(s.defers, s.planned, CloseDone);
    DoneIsLastButOne(s);
    RegisteredIsThePromisedOrder(s);
    FlatPush(Cancel, Nil);
    FlatNil();
    assert Rest(s.defers, Push(Cancel, Nil));
    assert s.defers == Nil || s.defers == Push(Cancel, Nil);
  }

  lemma DoneIsLastButOne(s: State)
    ensures Below(Registered(s), CloseDone) == Push(Cancel, Nil)
  {
    var done := Push(CloseDone, Push(Cancel, Nil));
    assert Below(Push(CloseFile, Push(Announce, done)), CloseDone) == Push(Cancel, Nil);
    assert Below(Files(s), CloseDone) == Push(Cancel, Nil);
    hide Files;
    assert Below(Cleared(s), CloseDone) == Push(Cancel, Nil);
  }

  /** While the signal handler can still see the writer, the final flush has not begun and the file
      is open, so its own flush and sync never touch a closed file. */
  lemma EmergencyFlushSeesAnOpenFile(s: State)
    requires Reachable(s) && s.writerSet
    ensures FlushWriter !in s.performed && CloseFile !in s.performed
    ensures Has(s.defers, FlushWriter) && Has(s.defers, CloseFile)
  {
    hide Reachable;
    ReachableKeepsInv(s);
    VisibleWriterIsOpen(s);
  }

  lemma VisibleWriterIsOpen(s: State)
    requires Inv(s) && s.writerSet
    ensures FlushWriter !in s.performed && CloseFile !in s.performed
    ensures Has(s.defers, FlushWriter) && Has(s.defers, CloseFile)
  {
    RegisteredFacts(s);
    var tail := Push(FlushWriter, Files(s));
    assert Has(tail, FlushWriter) && Has(tail, CloseFile);
    if s.pc.Unwinding? {
      RestHas(s.defers, s.planned, ClearActive);
      StillBelow(s.defers, s.planned, ClearActive);
      BelowHas(s.defers, ClearActive, FlushWriter);
      BelowHas(s.defers, ClearActive, CloseFile);
      PerformedIsNotLeft(s, FlushWriter);
      PerformedIsNotLeft(s, CloseFile);
    }
  }

  lemma {:induction false} StillBelow(d: Defers, full: Defers, a: Action)
    requires Rest(d, full) && Has(d, a) && NoDuplicates(full)
    ensures Below(d, a) == Below(full, a)
  {
    if d != full {
      RestHas(d, full.below, a);
      StillBelow(d, full.below, a);
    }
  }

  lemma {:induction false} BelowHas(d: Defers, a: Action, b: Action)
    requires Has(d, a) && Has(Below(d, a), b)
    ensures Has(d, b)
  {
    if d.top != a { BelowHas(d.below, a, b); }
  }

  lemma {:induction false} FlatMembers(d: Defers, a: Action)
    ensures a in Flat(d) <==> Has(d, a)
  {
    if d.Push? { FlatMembers(d.below, a); }
  }

  lemma {:induction false} FlatOnce(d: Defers, i: nat, j: nat)
    requires NoDuplicates(d) && i < j < |Flat(d)|
    ensures Flat(d)[i] != Flat(d)[j]
  {
    if i == 0 {
      FlatMembers(d.below, d.top);
    } else {
      FlatOnce(d.below, i - 1, j - 1);
    }
  }

  lemma PerformedIsNotLeft(s: State, a: Action)
    requires Cleanup(s) && Has(s.defers, a)
    ensures a !in s.performed
  {
    hide Flat, Has, NoDuplicates, Rest, Registered;
    FlatMembers(s.defers, a);
    var rest, all := Flat(s.defers), Flat(s.planned);
    var j :| 0 <= j < |rest| && rest[j] == a;
    forall i | 0 <= i < |s.performed| ensures s.performed[i] != a {
      FlatOnce(s.planned, i, |s.performed| + j);
      assert all[i] == s.performed[i] && all[|s.performed| + j] == a;
    }
  }

  /** A call to stop waits, rather than returning false at once, exactly if it is made after the
      stop function is set and before the clean-up has cleared it. */
  lemma StopWaitsExactlyWhileRegistered(s: State, i: nat)
    requires Reachable(s) && i < |s.stoppers| && s.stoppers[i] == Idle
    ensures StopperStep(s, i).stoppers[i] ==
            if PastRegistration(s.pc) || (s.pc.Unwinding? && Has(s.defers, ClearActive))
            then Holding else Returned(false)
  {
    hide Reachable;
    ReachableKeepsInv(s);
    hide DefersMatch, Has, Rest, NoDuplicates;
  }

  /** A call returns false although the writer is still to be flushed exactly if it is made after
      the writer is created and before the stop function is set, or after the clean-up has cleared
      the stop function and before it has flushed the writer. */
  lemma FalseWhileFlushIsPending(s: State, i: nat)
    requires Reachable(s) && i < |s.stoppers| && s.stoppers[i] == Idle
    ensures StopperStep(s, i).stoppers[i] == Returned(false) && Has(s.defers, FlushWriter)
            <==> s.pc.SettingWriter? || s.pc.SettingStop?
                 || (s.pc.Unwinding? && Has(s.defers, FlushWriter) && !Has(s.defers, ClearActive))
  {
    hide Reachable;
    ReachableKeepsInv(s);
    FilesFacts(s);
    assert s.defers == Push(FlushWriter, Files(s)) ==> Has(s.defers, FlushWriter);
    hide Rest, NoDuplicates, Flat, Files;
  }

  function AfterClearing(): Defers {
    Push(FlushWriter, Push(ClosePlaintext, Push(CloseFile, Push(Announce, Push(CloseDone, Push(Cancel, Nil))))))
  }

  lemma Opens() returns (s: State)
    ensures Reachable(s) && s.pc.OpeningPlaintext? && s.tls && !s.stopSet && s.stoppers == [Idle] && s.performed == []
    ensures s.defers == Push(CloseFile, Push(Announce, Push(CloseDone, Push(Cancel, Nil))))
  {
    var s0, ok := Initial(true, 1), Collect(true);
    var events: seq<Event> := [];
    assert IsRun([s0], events) && [s0][|events|] == s0;
    hide Reachable;
    s := s0;
    NextIsReachable(s, ok); s := Next(s, ok);
    NextIsReachable(s, ok); s := Next(s, ok);
  }

  lemma Starts() returns (s: State)
    ensures Reachable(s) && s.pc.SettingWriter? && s.tls && !s.stopSet && s.defers == AfterClearing()
    ensures s.stoppers == [Idle] && s.performed == []
  {
    hide Reachable;
    var ok := Collect(true);
    s := Opens();
    NextIsReachable(s, ok); s := Next(s, ok);
    NextIsReachable(s, ok); s := Next(s, ok);
  }

  /** The first of these two windows is open: a call that finds the writer set and the stop
      function not yet set. */
  lemma FalseMayComeBeforeRegistration()
    ensures exists s: State ::
              && Reachable(s) && s.stoppers == [Returned(false)] && s.performed == []
              && s.writerSet && s.pc.SettingStop? && s.defers == AfterClearing()
  {
    hide Reachable;
    var s := Starts();
    NextIsReachable(s, Collect(true)); s := Next(s, Collect(true));
    NextIsReachable(s, Call(0)); s := Next(s, Call(0));
  }

  lemma Runs() returns (s: State)
    ensures Reachable(s) && s.pc.Unwinding? && s.tls && s.stoppers == [Idle] && s.performed == [] && s.stopSet
    ensures s.defers == Push(CloseBuffer, Push(ClearActive, AfterClearing()))
  {
    var ok := Collect(true);
    s := Starts();
    hide Reachable, AfterClearing;
    NextIsReachable(s, ok); s := Next(s, ok);
    NextIsReachable(s, ok); s := Next(s, ok);
    NextIsReachable(s, ok); s := Next(s, ok);
    NextIsReachable(s, ok); s := Next(s, ok);
    NextIsReachable(s, Collect(false)); s := Next(s, Collect(false));
  }

  lemma Clears() returns (s: State)
    ensures Reachable(s) && s.pc.Unwinding? && s.tls && s.stoppers == [Idle] && s.performed == [CloseBuffer, ClearActive]
    ensures !s.stopSet && !s.writerSet && s.defers == AfterClearing()
  {
    hide Reachable, AfterClearing;
    var ok := Collect(true);
    s := Runs();
    NextIsReachable(s, ok); s := Next(s, ok);
    assert s.performed == [CloseBuffer];
    NextIsReachable(s, ok); s := Next(s, ok);
    assert s.performed == [CloseBuffer] + [ClearActive];
  }

  /** And so is the second: a call made between the clearing of the stop function and the flush of
      the writer returns false while both files are still open. */
  lemma FalseMayComeBeforeTheFlush()
    ensures exists s: State ::
              && Reachable(s) && s.stoppers == [Returned(false)] && s.performed == [CloseBuffer, ClearActive]
              && s.tls && s.pc.Unwinding? && s.defers == AfterClearing()
  {
    hide Reachable;
    var s := Clears();
    NextIsReachable(s, Call(0)); s := Next(s, Call(0));
  }
}
