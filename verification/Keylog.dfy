/** Copying the TLS key log into the capture file while it is still growing. */
module Keylog {
  import opened Records

  /** `file` is the append-only key log, `blocks` the decryption-secrets blocks written so far;
      `watcher` is where the ticker goroutine is between two accesses. */
  datatype Watcher =
    | NotStarted
    | Waiting
    | AtOffset(offset: nat)
    | HasRead(offset: nat, data: Bytes)

  datatype State = State(file: Bytes, blocks: seq<Bytes>, keylogOffset: nat, watcher: Watcher)

  datatype Event =
    | Append(more: Bytes)                 // another process extends the log
    | EmbedWhole(upTo: nat, ok: bool)     // embedTLSKeylog reads what is there; the block write may fail
    | SkipEmbed                           // the log could not be read, or was empty
    | ReadOffset                          // a tick reads the offset under the lock
    | ReadRest(upTo: nat)                 // and then the file from there, which may be growing
    | GiveUp                              // the file could not be opened, sought or read, or had no more
    | WriteBlock(ok: bool)

  predicate Enabled(s: State, e: Event) {
    match e
    case Append(_) => true
    case EmbedWhole(upTo, _) => s.watcher.NotStarted? && 0 < upTo <= |s.file|
    case SkipEmbed => s.watcher.NotStarted?
    case ReadOffset => s.watcher.Waiting?
    case ReadRest(upTo) => s.watcher.AtOffset? && s.watcher.offset < upTo <= |s.file|
    case GiveUp => s.watcher.AtOffset?
    case WriteBlock(_) => s.watcher.HasRead?
  }

  function Next(s: State, e: Event): State
    requires Enabled(s, e)
  {
    match e
    case Append(more) => s.(file := s.file + more)
    case EmbedWhole(upTo, ok) =>
      if ok then s.(blocks := s.blocks + [s.file[..upTo]], keylogOffset := upTo, watcher := Waiting)
      else s.(watcher := Waiting)
    case SkipEmbed => s.(watcher := Waiting)
    case ReadOffset => s.(watcher := AtOffset(s.keylogOffset))
    case ReadRest(upTo) => s.(watcher := HasRead(s.watcher.offset, s.file[s.watcher.offset..upTo]))
    case GiveUp => s.(watcher := Waiting)
    case WriteBlock(ok) =>
      var data := s.watcher.data;
      if ok then s.(blocks := s.blocks + [data], keylogOffset := s.keylogOffset + |data|, watcher := Waiting)
      else s.(watcher := Waiting)
  }

  function Joined(blocks: seq<Bytes>): Bytes {
    if blocks == [] then [] else Joined(blocks[..|blocks| - 1]) + blocks[|blocks| - 1]
  }

  /** The blocks hold exactly the first `keylogOffset` bytes of the log, once and in order. */
  ghost predicate EmbeddedPrefix(s: State) {
    s.keylogOffset <= |s.file| && Joined(s.blocks) == s.file[..s.keylogOffset]
  }

  ghost predicate Inv(s: State) {
    && EmbeddedPrefix(s)
    && (s.watcher.NotStarted? ==> s.blocks == [])
    && (s.watcher.AtOffset? ==> s.watcher.offset == s.keylogOffset)
    && (s.watcher.HasRead? ==>
          && s.watcher.offset == s.keylogOffset && s.keylogOffset + |s.watcher.data| <= |s.file|
          && s.watcher.data == s.file[s.keylogOffset..s.keylogOffset + |s.watcher.data|])
  }

  const INITIAL := State([], [], 0, NotStarted)

  ghost predicate IsRun(states: seq<State>, events: seq<Event>) {
    && |states| == |events| + 1
    && states[0] == INITIAL
    && forall i :: 0 <= i < |events| ==> Enabled(states[i], events[i]) && states[i + 1] == Next(states[i], events[i])
  }

  lemma NextKeepsInv(s: State, e: Event)
    requires Inv(s) && Enabled(s, e)
    ensures Inv(Next(s, e))
  {
    match e
    case Append(more) => AppendKeepsInv(s, more);
    case EmbedWhole(upTo, ok) =>
      hide Joined;
      if ok { JoinedOne(s.blocks, s.file[..upTo]); }
    case WriteBlock(ok) => WriteKeepsInv(s, ok);
    case SkipEmbed =>
    case ReadOffset =>
    case ReadRest(_) =>
    case GiveUp =>
  }

  lemma WriteKeepsInv(s: State, ok: bool)
    requires Inv(s) && s.watcher.HasRead?
    ensures Inv(Next(s, WriteBlock(ok)))
  {
    hide Joined;
    JoinedSnoc(s.blocks, s.watcher.data);
    SliceGrows(s.file, s.keylogOffset, s.keylogOffset + |s.watcher.data|);
  }

  lemma SliceGrows(file: Bytes, n: nat, m: nat)
    requires n <= m <= |file|
    ensures file[..n] + file[n..m] == file[..m]
  {
  }

  lemma JoinedOne(blocks: seq<Bytes>, b: Bytes)
    requires blocks == []
    ensures Joined(blocks + [b]) == b
  {
    assert Joined(blocks) == [];
    JoinedSnoc(blocks, b);
    hide Joined;
    assert [] + b == b;
  }

  lemma AppendKeepsInv(s: State, more: Bytes)
    requires Inv(s)
    ensures Inv(s.(file := s.file + more))
  {
    hide Joined;
    SlicesStay(s.file, more, 0, s.keylogOffset);
    if s.watcher.HasRead? { SlicesStay(s.file, more, s.keylogOffset, s.keylogOffset + |s.watcher.data|); }
  }

  lemma SlicesStay(file: Bytes, more: Bytes, n: nat, m: nat)
    requires n <= m <= |file|
    ensures (file + more)[n..m] == file[n..m] && (file + more)[..m] == file[..m]
  {
  }

  lemma JoinedSnoc(blocks: seq<Bytes>, b: Bytes)
    ensures Joined(blocks + [b]) == Joined(blocks) + b
  {
    assert (blocks + [b])[..|blocks|] == blocks;
  }

  /** For any interleaving of appends, ticks and failed writes the embedded blocks, joined, are a
      prefix of the log of exactly `keylogOffset` bytes. */
  lemma {:induction false} EmbeddedIsAlwaysAPrefix(states: seq<State>, events: seq<Event>, i: nat)
    requires IsRun(states, events) && i < |states|
    ensures Inv(states[i])
    ensures Joined(states[i].blocks) == states[i].file[..states[i].keylogOffset]
  {
    if i > 0 {
      EmbeddedIsAlwaysAPrefix(states, events, i - 1);
      NextKeepsInv(states[i - 1], events[i - 1]);
    }
  }

  /** What is embedded stays embedded: the joined blocks only ever grow at the end. */
  lemma {:induction false} EmbeddedOnlyGrows(states: seq<State>, events: seq<Event>, i: nat, j: nat)
    requires IsRun(states, events) && i <= j < |states|
    ensures Joined(states[i].blocks) <= Joined(states[j].blocks)
    ensures states[i].keylogOffset <= states[j].keylogOffset && states[i].file <= states[j].file
    decreases j
  {
    hide Joined, Inv, Next;
    if i < j {
      EmbeddedOnlyGrows(states, events, i, j - 1);
      EmbeddedIsAlwaysAPrefix(states, events, j - 1);
      NextGrows(states[j - 1], events[j - 1]);
    }
  }

  lemma NextGrows(s: State, e: Event)
    requires Inv(s) && Enabled(s, e)
    ensures var t := Next(s, e);
            Joined(s.blocks) <= Joined(t.blocks) && s.keylogOffset <= t.keylogOffset && s.file <= t.file
  {
    if e.WriteBlock? && e.ok { JoinedSnoc(s.blocks, s.watcher.data); }
  }

  /** A tick that reads up to the end of the log and writes its block leaves nothing behind. */
  lemma QuietTickCatchesUp(s: State)
    requires Inv(s) && s.watcher.Waiting? && s.keylogOffset < |s.file|
    ensures var t := Next(s, ReadOffset);
            var u := Next(t, ReadRest(|t.file|));
            var v := Next(u, WriteBlock(true));
            v.keylogOffset == |v.file| && Joined(v.blocks) == v.file && v.watcher == Waiting
  {
    var t := Next(s, ReadOffset);
    NextKeepsInv(s, ReadOffset);
    NextKeepsInv(t, ReadRest(|t.file|));
    var u := Next(t, ReadRest(|t.file|));
    NextKeepsInv(u, WriteBlock(true));
    assert u.file[..|u.file|] == u.file;
  }

  lemma PrefixIs(file: Bytes, b: Bytes)
    requires b <= file
    ensures file[..|b|] == b
  {
  }

  // ---- Imperative form ----

  class KeylogWriter {
    var keylogOffset: nat
    var blocks: seq<Bytes>

    constructor ()
      ensures keylogOffset == 0 && blocks == []
    {
      keylogOffset, blocks := 0, [];
    }

    ghost predicate Embeds(file: Bytes)
      reads this
    {
      keylogOffset <= |file| && Joined(blocks) == file[..keylogOffset]
    }

    /** The writer as part of the state machine. */
    ghost function Machine(file: Bytes, watcher: Watcher): State
      reads this
    {
      State(file, blocks, keylogOffset, watcher)
    }

    /** `content` is what reading the file gave, which may have grown to `file` since; `writeOk`
        tells whether the block could be written. */
    method EmbedTLSKeylog(content: Bytes, writeOk: bool, ghost file: Bytes) returns (ok: bool)
      requires keylogOffset == 0 && blocks == [] && content <= file
      modifies this
      ensures ok == (content == [] || writeOk)
      ensures Machine(file, Waiting) ==
              Next(old(Machine(file, NotStarted)), if content == [] then SkipEmbed else EmbedWhole(|content|, writeOk))
      ensures keylogOffset == if writeOk then |content| else 0
      ensures Joined(blocks) == if writeOk then content else []
    {
      assert blocks == [] && Joined(blocks) == [];
      if |content| == 0 { return true; }
      if !writeOk { return false; }
      JoinedOne(blocks, content);
      hide Joined;
      PrefixIs(file, content);
      blocks := blocks + [content];
      keylogOffset := |content|;
      return true;
    }

    /** The last part of a tick: `data` was read from the offset the tick saw. */
    method AppendBlock(data: Bytes, writeOk: bool, ghost file: Bytes)
      requires Embeds(file) && keylogOffset + |data| <= |file|
      requires data == file[keylogOffset..keylogOffset + |data|]
      modifies this
      ensures Machine(file, Waiting) ==
              if data == [] then Next(old(Machine(file, AtOffset(keylogOffset))), GiveUp)
              else Next(old(Machine(file, HasRead(keylogOffset, data))), WriteBlock(writeOk))
      ensures Embeds(file)
      ensures keylogOffset == old(keylogOffset) + if writeOk && data != [] then |data| else 0
    {
      if |data| == 0 { return; }
      if writeOk {
        JoinedSnoc(blocks, data);
        hide Joined;
        SliceGrows(file, keylogOffset, keylogOffset + |data|);
        blocks := blocks + [data];
        keylogOffset := keylogOffset + |data|;
      }
    }
  }
}
