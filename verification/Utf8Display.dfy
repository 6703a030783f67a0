/** Truncating and escaping text for display. */
module Utf8Display {
  import opened Records

  // ---- UTF-8 (section 3 of RFC 3629) ----

  predicate IsScalar(c: nat) { c < 0xD800 || 0xE000 <= c <= 0x10FFFF }

  type Scalar = c: nat | IsScalar(c)

  function Encode(c: Scalar): (r: Bytes)
    ensures 1 <= |r| <= 4 && RuneStart(r[0]) && forall i :: 1 <= i < |r| ==> !RuneStart(r[i])
  {
    if c < 0x80 then [c]
    else if c < 0x800 then [0xC0 + c / 0x40, 0x80 + c % 0x40]
    else if c < 0x10000 then [0xE0 + c / 0x1000, 0x80 + c / 0x40 % 0x40, 0x80 + c % 0x40]
    else
      assert IsScalar(c);
      assert c / 0x40000 <= 4;
      [0xF0 + c / 0x40000, 0x80 + c / 0x1000 % 0x40, 0x80 + c / 0x40 % 0x40, 0x80 + c % 0x40]
  }

  /** Decoding as in the table of section 3: the lead byte tells the length, the others add six bits. */
  function Decode(bs: Bytes): int {
    if |bs| == 1 then bs[0]
    else if |bs| == 2 then Tail(bs[0] as int - 0xC0, bs[1])
    else if |bs| == 3 then Tail(Tail(bs[0] as int - 0xE0, bs[1]), bs[2])
    else if |bs| == 4 then Tail(Tail(Tail(bs[0] as int - 0xF0, bs[1]), bs[2]), bs[3])
    else -1
  }

  function Tail(high: int, b: Byte): int { high * 0x40 + (b as int - 0x80) }

  lemma EncodeRoundTrip(c: Scalar)
    ensures Decode(Encode(c)) == c && |Encode(c)| == LengthFrom(Encode(c)[0])
  {
    assert c / 0x40 == (c / 0x1000) * 0x40 + c / 0x40 % 0x40;
    assert c / 0x1000 == (c / 0x40000) * 0x40 + c / 0x1000 % 0x40;
  }

  /** The length that the lead byte announces. */
  function LengthFrom(b: Byte): nat {
    if b < 0x80 then 1 else if b < 0xE0 then 2 else if b < 0xF0 then 3 else 4
  }

  function EncodeAll(cs: seq<Scalar>): Bytes {
    if cs == [] then [] else EncodeAll(cs[..|cs| - 1]) + Encode(cs[|cs| - 1])
  }

  predicate RuneStart(b: Byte) { !(0x80 <= b <= 0xBF) }

  const DOTS: Bytes := [46, 46, 46]

  /** The last place at or before `maxLen` where a character starts. */
  predicate IsCut(s: Bytes, maxLen: nat, cut: nat)
    requires maxLen < |s|
  {
    && cut <= maxLen && (cut > 0 ==> RuneStart(s[cut]))
    && forall i :: cut < i <= maxLen ==> !RuneStart(s[i])
  }

  method EllipsizePlaintextDisplay(s: Bytes, maxLen: int) returns (r: Bytes, ghost cut: nat)
    ensures maxLen <= 0 || |s| <= maxLen ==> r == s
    ensures 0 < maxLen < |s| ==> IsCut(s, maxLen, cut) && r == s[..cut] + [46, 46, 46]
  {
    if maxLen <= 0 || |s| <= maxLen { return s, 0; }
    var at := maxLen;
    while at > 0 && !RuneStart(s[at])
      invariant 0 <= at <= maxLen && forall i :: at < i <= maxLen ==> !RuneStart(s[i])
    {
      at := at - 1;
    }
    return s[..at] + DOTS, at;
  }

  /** Where the characters start: exactly at the encoded lengths of the prefixes. */
  lemma {:induction false} StartsAreBoundaries(cs: seq<Scalar>, i: nat)
    requires i < |EncodeAll(cs)|
    ensures RuneStart(EncodeAll(cs)[i]) <==> exists k :: 0 <= k < |cs| && |EncodeAll(cs[..k])| == i
  {
    hide Encode, RuneStart;
    var n := |cs| - 1;
    var init, last := EncodeAll(cs[..n]), Encode(cs[n]);
    if i < |init| {
      StartsAreBoundaries(cs[..n], i);
      assert forall k :: 0 <= k < n ==> cs[..n][..k] == cs[..k];
      if k :| 0 <= k < n && |EncodeAll(cs[..n][..k])| == i { assert |EncodeAll(cs[..k])| == i; }
    } else {
      assert EncodeAll(cs)[i] == last[i - |init|];
      forall k | 0 <= k < n ensures |EncodeAll(cs[..k])| < |init| {
        LongerPrefix(cs, k, n);
      }
    }
  }

  lemma {:induction false} LongerPrefix(cs: seq<Scalar>, j: nat, k: nat)
    requires j < k <= |cs|
    ensures |EncodeAll(cs[..j])| < |EncodeAll(cs[..k])| && EncodeAll(cs[..j]) <= EncodeAll(cs[..k])
  {
    assert cs[..k][..k - 1] == cs[..k - 1];
    if j < k - 1 { LongerPrefix(cs, j, k - 1); }
  }

  /** For valid UTF-8 the kept part is exactly the longest run of whole characters that fits. */
  lemma TruncationIsOptimal(cs: seq<Scalar>, maxLen: nat, cut: nat)
    requires maxLen < |EncodeAll(cs)| && IsCut(EncodeAll(cs), maxLen, cut)
    ensures exists k :: 0 <= k < |cs| && EncodeAll(cs)[..cut] == EncodeAll(cs[..k])
                        && |EncodeAll(cs[..k + 1])| > maxLen
  {
    var k := BoundaryAt(cs, cut);
    NextCharacterDoesNotFit(cs, maxLen, cut, k);
    hide EncodeAll, IsCut;
    assert 0 <= k < |cs| && EncodeAll(cs)[..cut] == EncodeAll(cs[..k]) && |EncodeAll(cs[..k + 1])| > maxLen;
  }

  lemma BoundaryAt(cs: seq<Scalar>, i: nat) returns (k: nat)
    requires i < |EncodeAll(cs)| && (i > 0 ==> RuneStart(EncodeAll(cs)[i]))
    ensures k < |cs| && |EncodeAll(cs[..k])| == i && EncodeAll(cs)[..i] == EncodeAll(cs[..k])
  {
    if i == 0 {
      k := 0;
      assert cs[..0] == [];
    } else {
      StartsAreBoundaries(cs, i);
      k :| 0 <= k < |cs| && |EncodeAll(cs[..k])| == i;
    }
    hide EncodeAll, RuneStart;
    assert cs[..|cs|] == cs;
    LongerPrefix(cs, k, |cs|);
  }

  lemma NextCharacterDoesNotFit(cs: seq<Scalar>, maxLen: nat, cut: nat, k: nat)
    requires maxLen < |EncodeAll(cs)| && IsCut(EncodeAll(cs), maxLen, cut)
    requires k < |cs| && |EncodeAll(cs[..k])| == cut
    ensures |EncodeAll(cs[..k + 1])| > maxLen
  {
    hide EncodeAll, RuneStart;
    var next := |EncodeAll(cs[..k + 1])|;
    assert next > cut by { LongerPrefix(cs, k, k + 1); }
    if next <= maxLen {
      assert cs[..|cs|] == cs;
      StartsAreBoundaries(cs, next);
    }
  }

  // ---- Escaping ----

  predicate Shown(r: nat) { r in [9, 10, 13] || (r >= 32 && r != 127) }

  function HexDigit(n: nat): nat
    requires n < 16
  {
    if n < 10 then 48 + n else 87 + n
  }

  const ESCAPE: seq<nat> := [92, 120]   // \x

  function EscapeRune(r: nat): seq<nat> {
    if Shown(r) then [r] else ESCAPE + [HexDigit(r / 16), HexDigit(r % 16)]
  }

  function Escaped(runes: seq<nat>): seq<nat> {
    if runes == [] then [] else Escaped(runes[..|runes| - 1]) + EscapeRune(runes[|runes| - 1])
  }

  // ---- Bytes that need not be UTF-8 ----

  /** The first `n` bytes are one character, in its only encoding. */
  predicate OneCharacter(bs: Bytes, n: nat) {
    n <= |bs| && var c := Decode(bs[..n]); c >= 0 && IsScalar(c) && Encode(c) == bs[..n]
  }

  /** The length of the character at the front, 0 when there is none. */
  function Width(bs: Bytes): (n: nat)
    ensures n <= |bs| && (n > 0 ==> OneCharacter(bs, n))
  {
    if OneCharacter(bs, 1) then 1
    else if OneCharacter(bs, 2) then 2
    else if OneCharacter(bs, 3) then 3
    else if OneCharacter(bs, 4) then 4
    else 0
  }

  function Front(bs: Bytes, n: nat): Scalar
    requires OneCharacter(bs, n)
  {
    Decode(bs[..n])
  }

  const REPLACEMENT: Scalar := 0xFFFD

  /** The characters of a text, each run of stray bytes replaced by one replacement character;
      `stray` tells that such a run is under way. */
  function Runes(bs: Bytes, stray: bool): seq<Scalar>
    decreases |bs|
  {
    if bs == [] then []
    else
      var n := Width(bs);
      if n == 0 then (if stray then [] else [REPLACEMENT]) + Runes(bs[1..], true)
      else [Front(bs, n)] + Runes(bs[n..], false)
  }

  lemma WidthOfCharacter(c: Scalar, rest: Bytes)
    ensures Width(Encode(c) + rest) == |Encode(c)|
    ensures (Encode(c) + rest)[..|Encode(c)|] == Encode(c) && (Encode(c) + rest)[|Encode(c)|..] == rest
  {
    var bs, e := Encode(c) + rest, Encode(c);
    EncodeRoundTrip(c);
    assert bs[..|e|] == e;
    forall n | 1 <= n <= 4 && OneCharacter(bs, n) ensures n == |e| {
      CharacterLength(bs, n);
      assert bs[0] == e[0];
    }
    hide Encode, Decode, LengthFrom;
    assert OneCharacter(bs, |e|);
  }

  lemma CharacterLength(bs: Bytes, n: nat)
    requires 1 <= n && OneCharacter(bs, n)
    ensures n == LengthFrom(bs[0])
  {
    EncodeRoundTrip(Decode(bs[..n]));
    hide Encode, Decode, LengthFrom;
  }

  lemma {:induction false} EncodeAllFront(c: Scalar, cs: seq<Scalar>)
    ensures EncodeAll([c] + cs) == Encode(c) + EncodeAll(cs)
  {
    hide Encode;
    if cs == [] {
      assert [c] + cs == [c] && [c][..0] == [];
    } else {
      var n := |cs| - 1;
      EncodeAllFront(c, cs[..n]);
      assert ([c] + cs)[..n + 1] == [c] + cs[..n];
      assert EncodeAll([c] + cs) == EncodeAll([c] + cs[..n]) + Encode(cs[n]);
      assert EncodeAll(cs) == EncodeAll(cs[..n]) + Encode(cs[n]);
      hide EncodeAll;
      Associate(Encode(c), EncodeAll(cs[..n]), Encode(cs[n]));
    }
  }

  lemma Associate(a: Bytes, b: Bytes, c: Bytes)
    ensures (a + b) + c == a + (b + c)
  {
  }

  /** Valid text keeps all its characters and gains none. */
  lemma {:induction false} RunesOfValid(cs: seq<Scalar>, stray: bool)
    ensures Runes(EncodeAll(cs), stray) == cs
  {
    if cs != [] {
      RunesOfValid(cs[1..], false);
      assert cs == [cs[0]] + cs[1..];
      EncodeAllFront(cs[0], cs[1..]);
      WidthOfCharacter(cs[0], EncodeAll(cs[1..]));
      EncodeRoundTrip(cs[0]);
      hide Encode, Decode, Width, EncodeAll;
    }
  }

  /** Text is taken as it is exactly if it is valid UTF-8. */
  lemma RepairIsIdentityIffValid(bs: Bytes)
    ensures EncodeAll(Runes(bs, false)) == bs <==> exists cs: seq<Scalar> :: EncodeAll(cs) == bs
  {
    if cs: seq<Scalar> :| EncodeAll(cs) == bs { RunesOfValid(cs, false); }
    hide EncodeAll, Runes;
  }

  /** A character begins here. */
  ghost predicate Begins(bs: Bytes) { exists c: Scalar :: Encode(c) <= bs }

  lemma WidthMeaning(bs: Bytes)
    ensures Width(bs) > 0 <==> Begins(bs)
  {
    if Width(bs) > 0 {
      assert Encode(Front(bs, Width(bs))) <= bs;
    }
    if c: Scalar :| Encode(c) <= bs {
      assert bs == Encode(c) + bs[|Encode(c)|..];
      WidthOfCharacter(c, bs[|Encode(c)|..]);
    }
    hide Encode, Decode;
  }

  lemma RunesOfCharacter(c: Scalar, rest: Bytes, stray: bool)
    ensures Runes(Encode(c) + rest, stray) == [c] + Runes(rest, false)
  {
    WidthOfCharacter(c, rest);
    EncodeRoundTrip(c);
    hide Encode, Decode, Width;
  }

  lemma {:induction false} RunesInRun(run: Bytes, rest: Bytes)
    requires forall i :: 0 <= i < |run| ==> !Begins((run + rest)[i..])
    requires rest == [] || Begins(rest)
    ensures Runes(run + rest, true) == if rest == [] then [] else Runes(rest, false)
    decreases |run|
  {
    hide Width, Begins;
    if run == [] {
      assert run + rest == rest;
      if rest != [] { WidthMeaning(rest); }
    } else {
      var all := run + rest;
      assert all[0..] == all;
      WidthMeaning(all);
      assert all[1..] == run[1..] + rest;
      assert forall i :: 0 <= i < |run| - 1 ==> (run[1..] + rest)[i..] == all[i + 1..];
      RunesInRun(run[1..], rest);
    }
  }

  /** A run of bytes at which no character begins becomes one replacement character, however long
      it is; what follows it is read as if it were not there. */
  lemma StrayRunIsReplacedOnce(run: Bytes, rest: Bytes)
    requires run != [] && forall i :: 0 <= i < |run| ==> !Begins((run + rest)[i..])
    requires rest == [] || Begins(rest)
    ensures Runes(run + rest, false) == [0xFFFD] + Runes(rest, false)
  {
    var all := run + rest;
    assert all[0..] == all;
    WidthMeaning(all);
    assert all[1..] == run[1..] + rest;
    assert forall i :: 0 <= i < |run| - 1 ==> (run[1..] + rest)[i..] == all[i + 1..];
    hide Width, Begins;
    RunesInRun(run[1..], rest);
    RunesOfNothing(false);
  }

  method ToValidUTF8(data: Bytes) returns (runes: seq<Scalar>)
    ensures runes == Runes(data, false)
  {
    hide Width, Front, Runes, OneCharacter, Encode, Decode;
    runes := [];
    var i, stray := 0, false;
    assert data[0..] == data;
    while i < |data|
      invariant 0 <= i <= |data|
      invariant Runes(data, false) == runes + Runes(data[i..], stray)
    {
      RunesFrom(data, i, stray);
      var n := Width(data[i..]);
      if n == 0 {
        if !stray { runes := runes + [REPLACEMENT]; }
        stray := true;
        i := i + 1;
        continue;
      }
      runes := runes + [Front(data[i..], n)];
      stray := false;
      i := i + n;
    }
    assert Runes(data[i..], stray) == [] by { RunesOfNothing(stray); assert data[i..] == []; }
  }

  lemma RunesOfNothing(stray: bool)
    ensures Runes([], stray) == []
  {
  }

  lemma RunesFrom(data: Bytes, i: nat, stray: bool)
    requires i < |data|
    ensures var n := Width(data[i..]);
            Runes(data[i..], stray) ==
            if n == 0 then (if stray then [] else [REPLACEMENT]) + Runes(data[i + 1..], true)
            else [Front(data[i..], n)] + Runes(data[i + n..], false)
  {
    hide Front, Width, OneCharacter;
    var rest, n := data[i..], Width(data[i..]);
    assert rest[1..] == data[i + 1..] && rest[n..] == data[i + n..];
  }

  /** Repairs the text and escapes its control characters. */
  method PlaintextDisplayString(data: Bytes) returns (out: seq<nat>)
    ensures out == Escaped(Runes(data, false))
  {
    hide Runes, HexDigit;
    var runes := ToValidUTF8(data);
    out := [];
    assert runes[..0] == [];
    for i := 0 to |runes|
      invariant out == Escaped(runes[..i])
    {
      assert runes[..i + 1][..i] == runes[..i];
      var r := runes[i];
      if r == 10 || r == 13 || r == 9 || (r >= 32 && r < 127) || r > 127 {
        out := out + [r];
      } else {
        out := out + ESCAPE + [HexDigit(r / 16), HexDigit(r % 16)];
      }
    }
    assert runes[..|runes|] == runes;
  }

  /** Valid text is displayed as it is exactly if it has no control character. */
  lemma ValidTextIsShownIff(cs: seq<Scalar>)
    ensures Escaped(Runes(EncodeAll(cs), false)) == cs <==> forall i :: 0 <= i < |cs| ==> Shown(cs[i])
  {
    RunesOfValid(cs, false);
    ControlBytesMarkGarbage(cs);
    hide Runes, Escaped, EncodeAll, Shown;
  }

  predicate HasEscape(s: seq<nat>) { exists i :: 0 <= i < |s| - 1 && EscapeAt(s, i) }

  predicate EscapeAt(s: seq<nat>, i: nat) { i + 1 < |s| && s[i] == 92 && s[i + 1] == 120 }

  /** The value of a lower-case hexadecimal digit. */
  function HexValue(d: nat): int {
    if 48 <= d <= 57 then d - 48 else if 97 <= d <= 102 then d - 87 else -1
  }

  /** Tab, line feed, carriage return and everything from space on but delete are shown as they are;
      the rest as `\x` and two hexadecimal digits that read back as the character. */
  lemma EscapeRuneMeaning(r: nat)
    ensures Shown(r) <==> r == 9 || r == 10 || r == 13 || (r >= 32 && r != 127)
    ensures Shown(r) ==> EscapeRune(r) == [r]
    ensures !Shown(r) ==>
              var e := EscapeRune(r);
              && |e| == 4 && e[0] == 92 && e[1] == 120
              && HexValue(e[2]) >= 0 && HexValue(e[3]) >= 0 && 16 * HexValue(e[2]) + HexValue(e[3]) == r
  {
  }

  lemma {:induction false} EscapedConcat(a: seq<nat>, b: seq<nat>)
    ensures Escaped(a + b) == Escaped(a) + Escaped(b)
  {
    hide EscapeRune;
    if b == [] {
      assert a + b == a;
    } else {
      EscapedConcat(a, b[..|b| - 1]);
      assert (a + b)[..|a + b| - 1] == a + b[..|b| - 1];
    }
  }

  /** Each character is escaped by itself, in its place. */
  lemma EscapedAt(a: seq<nat>, r: nat, b: seq<nat>)
    ensures Escaped(a + [r] + b) == Escaped(a) + EscapeRune(r) + Escaped(b)
  {
    hide EscapeRune;
    EscapedConcat(a + [r], b);
    EscapedConcat(a, [r]);
    assert [r][..0] == [] && Escaped([r]) == [] + EscapeRune(r);
  }

  lemma {:induction false} ShownIsUnchanged(runes: seq<nat>)
    requires forall i :: 0 <= i < |runes| ==> Shown(runes[i])
    ensures Escaped(runes) == runes
  {
    hide Shown, EscapeRune;
    if runes != [] {
      var init, last := runes[..|runes| - 1], runes[|runes| - 1];
      ShownIsUnchanged(init);
      EscapeRuneMeaning(last);
      assert runes == init + [last];
    }
  }

  lemma {:induction false} EscapedIsNoShorter(runes: seq<nat>)
    ensures |Escaped(runes)| >= |runes|
  {
    hide Shown, EscapeRune;
    if runes != [] {
      EscapedIsNoShorter(runes[..|runes| - 1]);
      EscapeRuneMeaning(runes[|runes| - 1]);
    }
  }

  lemma {:induction false} HiddenIsMarked(runes: seq<nat>, i: nat) returns (at: nat)
    requires i < |runes| && !Shown(runes[i])
    ensures |Escaped(runes)| > |runes| && EscapeAt(Escaped(runes), at)
  {
    hide Shown, EscapeRune;
    var n := |runes| - 1;
    var before := Escaped(runes[..n]);
    EscapeRuneMeaning(runes[n]);
    if i == n {
      EscapedIsNoShorter(runes[..n]);
      at := |before|;
    } else {
      at := HiddenIsMarked(runes[..n], i);
    }
  }

  /** Text is shown unchanged exactly when it has no control character; otherwise it carries an
      escape, which marks it as garbage. */
  lemma ControlBytesMarkGarbage(runes: seq<nat>)
    ensures (forall i :: 0 <= i < |runes| ==> Shown(runes[i])) <==> Escaped(runes) == runes
    ensures HasEscape(Escaped(runes)) <==> (exists i :: 0 <= i < |runes| && !Shown(runes[i])) || HasEscape(runes)
  {
    if i :| 0 <= i < |runes| && !Shown(runes[i]) {
      var at := HiddenIsMarked(runes, i);
    } else {
      ShownIsUnchanged(runes);
    }
    hide Shown, Escaped, EscapeAt;
  }
}
