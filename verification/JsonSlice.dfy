/** Cutting JSON objects out of captured bytes. */
module JsonSlice {
  import opened Records

  const QUOTE: Byte := 34
  const BACKSLASH: Byte := 92
  const OPEN: Byte := 123
  const CLOSE: Byte := 125

  // ---- The brace scanner ----

  datatype Scanner = Scanner(depth: int, inString: bool, escape: bool)

  function Next(s: Scanner, b: Byte): Scanner {
    if s.inString then
      if s.escape then s.(escape := false)
      else if b == BACKSLASH then s.(escape := true)
      else if b == QUOTE then s.(inString := false)
      else s
    else if b == QUOTE then s.(inString := true)
    else if b == OPEN then s.(depth := s.depth + 1)
    else if b == CLOSE then s.(depth := s.depth - 1)
    else s
  }

  predicate Closes(s: Scanner, b: Byte) { !s.inString && b == CLOSE && s.depth == 1 }

  /** The scanner after a text in which nothing closes. */
  function After(s: Scanner, text: Bytes): Scanner
    decreases |text|
  {
    if text == [] then s else After(Next(s, text[0]), text[1..])
  }

  /** How many bytes are read up to and including the closing brace. */
  function Closing(s: Scanner, text: Bytes): (n: Option<nat>)
    ensures n.Some? ==> 1 <= n.value <= |text|
    decreases |text|
  {
    if text == [] then None
    else if Closes(s, text[0]) then Some(1)
    else
      var n := Closing(Next(s, text[0]), text[1..]);
      if n.None? then None else Some(n.value + 1)
  }

  const START := Scanner(0, false, false)

  function SliceAt(data: Bytes, start: int): Option<Bytes> {
    if start < 0 || start >= |data| || data[start] != OPEN then None
    else
      var n := Closing(START, data[start..]);
      if n.None? then None else Some(data[start..start + n.value])
  }

  method SliceJSONObject(data: Bytes, start: int) returns (r: Option<Bytes>)
    ensures r == SliceAt(data, start)
  {
    if start < 0 || start >= |data| || data[start] != OPEN { return None; }
    var depth, inString, escape := 0, false, false;
    for i := start to |data|
      invariant var n := Closing(Scanner(depth, inString, escape), data[i..]);
                Closing(START, data[start..]) == if n.None? then None else Some(i - start + n.value)
    {
      var c := data[i];
      assert data[i..][0] == c && data[i..][1..] == data[i + 1..];
      if inString {
        if escape { escape := false; continue; }
        if c == BACKSLASH { escape := true; }
        else if c == QUOTE { inString := false; }
        continue;
      }
      if c == QUOTE { inString := true; }
      else if c == OPEN { depth := depth + 1; }
      else if c == CLOSE {
        depth := depth - 1;
        if depth == 0 { return Some(data[start..i + 1]); }
      }
    }
    return None;
  }

  lemma {:induction false} ClosingConcat(s: Scanner, a: Bytes, b: Bytes)
    ensures Closing(s, a).Some? ==> Closing(s, a + b) == Closing(s, a)
    ensures Closing(s, a).None? ==>
              var n := Closing(After(s, a), b);
              Closing(s, a + b) == if n.None? then None else Some(|a| + n.value)
    ensures After(s, a + b) == After(After(s, a), b)
    decreases |a|
  {
    if a == [] {
      assert a + b == b;
    } else {
      assert (a + b)[0] == a[0] && (a + b)[1..] == a[1..] + b;
      ClosingConcat(Next(s, a[0]), a[1..], b);
    }
  }

  // ---- JSON texts (RFC 8259) ----

  datatype Character =
    | Plain(utf8: Bytes)         // any character but quote, backslash and controls, in UTF-8
    | Escaped(code: Byte)        // \" \\ \/ \b \f \n \r \t
    | CodeUnit(hex: seq<Byte>)   // \uXXXX

  datatype Json =
    | Literal(text: Bytes)       // false, null, true and numbers
    | Text(chars: seq<Character>)
    | Array(ws: Bytes, items: Items)
    | Object(ws: Bytes, members: Members)

  datatype Items = NoItem | Item(before: Bytes, value: Json, after: Bytes, rest: Items)

  datatype Members =
    | NoMember
    | Member(before: Bytes, name: seq<Character>, colon: (Bytes, Bytes), value: Json, after: Bytes, rest: Members)

  predicate IsWs(b: Byte) { b == 0x20 || b == 0x09 || b == 0x0A || b == 0x0D }
  predicate AllWs(bs: Bytes) { forall i :: 0 <= i < |bs| ==> IsWs(bs[i]) }

  predicate IsHex(b: Byte) { 48 <= b <= 57 || 65 <= b <= 70 || 97 <= b <= 102 }

  /** Digits, sign, point and the letters of the literal names and the exponent. */
  predicate IsLiteralByte(b: Byte) { 48 <= b <= 57 || 97 <= b <= 122 || b == 69 || b == 43 || b == 45 || b == 46 }

  predicate ValidChar(ch: Character) {
    match ch
    case Plain(u) => forall i :: 0 <= i < |u| ==> u[i] >= 0x20 && u[i] != 34 && u[i] != 92
    case Escaped(code) => code == 34 || code == 92 || code in [47, 98, 102, 110, 114, 116]
    case CodeUnit(hex) => |hex| == 4 && forall i :: 0 <= i < |hex| ==> IsHex(hex[i])
  }

  predicate ValidText(chars: seq<Character>) { forall i :: 0 <= i < |chars| ==> ValidChar(chars[i]) }

  predicate Valid(v: Json) {
    match v
    case Literal(text) => forall i :: 0 <= i < |text| ==> IsLiteralByte(text[i])
    case Text(chars) => ValidText(chars)
    case Array(ws, items) => AllWs(ws) && ValidItems(items)
    case Object(ws, members) => AllWs(ws) && ValidMembers(members)
  }

  predicate ValidItems(items: Items) {
    match items
    case NoItem => true
    case Item(before, value, after, rest) => AllWs(before) && Valid(value) && AllWs(after) && ValidItems(rest)
  }

  predicate ValidMembers(members: Members) {
    match members
    case NoMember => true
    case Member(before, name, colon, value, after, rest) =>
      AllWs(before) && ValidText(name) && AllWs(colon.0) && AllWs(colon.1) && Valid(value) && AllWs(after)
      && ValidMembers(rest)
  }

  function PrintChar(ch: Character): Bytes {
    match ch
    case Plain(u) => u
    case Escaped(code) => [92, code]
    case CodeUnit(hex) => [92, 117] + hex
  }

  function PrintChars(chars: seq<Character>): Bytes {
    if chars == [] then [] else PrintChar(chars[0]) + PrintChars(chars[1..])
  }

  function PrintText(chars: seq<Character>): Bytes { [34] + PrintChars(chars) + [34] }

  function Print(v: Json): Bytes {
    match v
    case Literal(text) => text
    case Text(chars) => PrintText(chars)
    case Array(ws, items) => [91] + (ws + PrintItems(items)) + [93]
    case Object(ws, members) => [123] + (ws + PrintMembers(members)) + [125]
  }

  function PrintItems(items: Items): Bytes {
    match items
    case NoItem => []
    case Item(before, value, after, rest) =>
      before + Print(value) + after + (if rest.NoItem? then [] else [44]) + PrintItems(rest)
  }

  function PrintMembers(members: Members): Bytes {
    match members
    case NoMember => []
    case Member(before, name, colon, value, after, rest) =>
      before + PrintText(name) + colon.0 + [58] + colon.1 + Print(value) + after
      + (if rest.NoMember? then [] else [44]) + PrintMembers(rest)
  }

  // ---- Round trip ----

  /** Outside strings and inside an object, the text leaves the scanner as it was. */
  ghost predicate Neutral(text: Bytes) {
    forall d: int :: d >= 1 ==>
      Closing(Scanner(d, false, false), text).None? && After(Scanner(d, false, false), text) == Scanner(d, false, false)
  }

  lemma NeutralConcat(a: Bytes, b: Bytes)
    requires Neutral(a) && Neutral(b)
    ensures Neutral(a + b)
  {
    forall d: int | d >= 1
      ensures Closing(Scanner(d, false, false), a + b).None?
      ensures After(Scanner(d, false, false), a + b) == Scanner(d, false, false)
    {
      ClosingConcat(Scanner(d, false, false), a, b);
    }
  }

  lemma {:induction false} QuietIsNeutral(text: Bytes)
    requires forall i :: 0 <= i < |text| ==> text[i] != QUOTE && text[i] != OPEN && text[i] != CLOSE
    ensures Neutral(text)
  {
    if text != [] { QuietIsNeutral(text[1..]); }
  }

  lemma {:induction false} InsideText(d: int, text: Bytes)
    requires forall i :: 0 <= i < |text| ==> text[i] != QUOTE && text[i] != BACKSLASH
    ensures Closing(Scanner(d, true, false), text).None? && After(Scanner(d, true, false), text) == Scanner(d, true, false)
  {
    if text != [] { InsideText(d, text[1..]); }
  }

  lemma {:induction false} CharsStayInside(d: int, chars: seq<Character>)
    requires ValidText(chars)
    ensures Closing(Scanner(d, true, false), PrintChars(chars)).None?
    ensures After(Scanner(d, true, false), PrintChars(chars)) == Scanner(d, true, false)
  {
    if chars != [] {
      var ch := chars[0];
      CharsStayInside(d, chars[1..]);
      var s := Scanner(d, true, false);
      assert ValidChar(ch);
      match ch {
        case Plain(u) => InsideText(d, u);
        case Escaped(code) =>
          assert [BACKSLASH, code][1..] == [code];
        case CodeUnit(hex) =>
          InsideText(d, hex);
          ClosingConcat(s, [BACKSLASH, 117], hex);
          assert [BACKSLASH, 117][1..] == [117];
      }
      ClosingConcat(s, PrintChar(ch), PrintChars(chars[1..]));
    }
  }

  lemma TextIsNeutral(chars: seq<Character>)
    requires ValidText(chars)
    ensures Neutral(PrintText(chars))
  {
    forall d: int | d >= 1
      ensures Closing(Scanner(d, false, false), PrintText(chars)).None?
      ensures After(Scanner(d, false, false), PrintText(chars)) == Scanner(d, false, false)
    {
      var s := Scanner(d, false, false);
      CharsStayInside(d, chars);
      ClosingConcat(s, [QUOTE], PrintChars(chars));
      ClosingConcat(s, [QUOTE] + PrintChars(chars), [QUOTE]);
    }
  }

  /** Braces around a neutral text close exactly at the last byte, or not at all further inside. */
  lemma Braced(d: nat, inner: Bytes)
    requires Neutral(inner)
    ensures var s, text := Scanner(d, false, false), [OPEN] + inner + [CLOSE];
            if d == 0 then Closing(s, text) == Some(|text|)
            else Closing(s, text).None? && After(s, text) == s
  {
    var s := Scanner(d, false, false);
    ClosingConcat(s, [OPEN], inner);
    ClosingConcat(s, [OPEN] + inner, [CLOSE]);
    assert After(s, [OPEN]) == Scanner(d + 1, false, false);
  }

  lemma {:induction false} PrintIsNeutral(v: Json)
    requires Valid(v)
    ensures Neutral(Print(v))
  {
    match v
    case Literal(text) => QuietIsNeutral(text);
    case Text(chars) => TextIsNeutral(chars);
    case Array(ws, items) =>
      QuietIsNeutral(ws);
      ItemsAreNeutral(items);
      QuietIsNeutral([91]);
      QuietIsNeutral([93]);
      NeutralConcat(ws, PrintItems(items));
      NeutralConcat([91], ws + PrintItems(items));
      NeutralConcat([91] + (ws + PrintItems(items)), [93]);
    case Object(ws, members) =>
      QuietIsNeutral(ws);
      MembersAreNeutral(members);
      NeutralConcat(ws, PrintMembers(members));
      forall d: int | d >= 1
        ensures Closing(Scanner(d, false, false), Print(v)).None?
        ensures After(Scanner(d, false, false), Print(v)) == Scanner(d, false, false)
      {
        Braced(d, ws + PrintMembers(members));
      }
  }

  lemma {:induction false} ItemsAreNeutral(items: Items)
    requires ValidItems(items)
    ensures Neutral(PrintItems(items))
  {
    match items
    case NoItem =>
    case Item(before, value, after, rest) =>
      var comma: Bytes := if rest.NoItem? then [] else [44];
      QuietIsNeutral(before);
      PrintIsNeutral(value);
      QuietIsNeutral(after);
      QuietIsNeutral(comma);
      ItemsAreNeutral(rest);
      hide Neutral;
      NeutralConcat(before, Print(value));
      NeutralConcat(before + Print(value), after);
      NeutralConcat(before + Print(value) + after, comma);
      NeutralConcat(before + Print(value) + after + comma, PrintItems(rest));
  }

  lemma {:induction false} MembersAreNeutral(members: Members)
    requires ValidMembers(members)
    ensures Neutral(PrintMembers(members))
  {
    match members
    case NoMember =>
    case Member(before, name, colon, value, after, rest) =>
      var comma: Bytes := if rest.NoMember? then [] else [44];
      QuietIsNeutral(before);
      TextIsNeutral(name);
      QuietIsNeutral(colon.0);
      QuietIsNeutral([58]);
      QuietIsNeutral(colon.1);
      PrintIsNeutral(value);
      QuietIsNeutral(after);
      QuietIsNeutral(comma);
      MembersAreNeutral(rest);
      hide Neutral;
      var a := before + PrintText(name);
      NeutralConcat(before, PrintText(name));
      NeutralConcat(a, colon.0);
      NeutralConcat(a + colon.0, [58]);
      NeutralConcat(a + colon.0 + [58], colon.1);
      var b := a + colon.0 + [58] + colon.1;
      NeutralConcat(b, Print(value));
      NeutralConcat(b + Print(value), after);
      NeutralConcat(b + Print(value) + after, comma);
      NeutralConcat(b + Print(value) + after + comma, PrintMembers(rest));
  }

  /** For every object and any surrounding bytes, slicing at its first brace returns the object. */
  lemma SliceRoundTrip(before: Bytes, v: Json, after: Bytes)
    requires v.Object? && Valid(v)
    ensures SliceAt(before + Print(v) + after, |before|) == Some(Print(v))
  {
    var data := before + Print(v) + after;
    var inner := v.ws + PrintMembers(v.members);
    QuietIsNeutral(v.ws);
    MembersAreNeutral(v.members);
    NeutralConcat(v.ws, PrintMembers(v.members));
    Braced(0, inner);
    ClosingConcat(START, Print(v), after);
    assert data[|before|..] == Print(v) + after;
    assert data[|before|] == OPEN;
    assert data[|before|..|before| + |Print(v)|] == Print(v);
  }

  /** A slice is self-delimiting: it starts and ends with braces and no shorter piece of it, and
      nothing that follows it, changes the cut. */
  lemma SliceIsSelfDelimiting(data: Bytes, start: nat, after: Bytes)
    requires SliceAt(data, start).Some?
    ensures var r := SliceAt(data, start).value;
            && |r| >= 2 && r[0] == OPEN && r[|r| - 1] == CLOSE
            && SliceAt(r + after, 0) == Some(r)
            && (forall n :: 0 <= n < |r| ==> SliceAt(r[..n], 0).None?)
  {
    var r := SliceAt(data, start).value;
    var rest := data[start + |r|..];
    assert data[start..] == r + rest;
    ClosingConcat(START, r, rest);
    ClosingConcat(START, r, after);
    ClosesAtEnd(START, r);
    assert (r + after)[0..] == r + after && (r + after)[..|r|] == r;
    forall n | 0 <= n < |r| ensures SliceAt(r[..n], 0).None? {
      assert r == r[..n] + r[n..];
      ClosingConcat(START, r[..n], r[n..]);
      if n > 0 { assert r[..n][0..] == r[..n]; }
    }
  }

  lemma {:induction false} ClosesAtEnd(s: Scanner, r: Bytes)
    requires Closing(s, r) == Some(|r|)
    ensures r[|r| - 1] == CLOSE
    decreases |r|
  {
    if |r| > 1 { ClosesAtEnd(Next(s, r[0]), r[1..]); }
  }

  // ---- Embedded export records ----

  predicate OccursAt(data: Bytes, marker: Bytes, p: int) {
    0 <= p && p + |marker| <= |data| && data[p..p + |marker|] == marker
  }

  /** What is unwrapped at a position, when a marker is there and the object unwraps. */
  function Unwrapped(unwrap: Bytes -> Bytes, data: Bytes, marker: Bytes, p: int): Option<Bytes> {
    if !OccursAt(data, marker, p) then None
    else
      var obj := SliceAt(data, p);
      if obj.None? then None
      else
        var inner := unwrap(obj.value);
        if |inner| > 0 && inner != obj.value then Some(inner) else None
  }

  /** Marker `k` at `p` unwraps to `r`; no earlier marker anywhere, and not `k` before `p`, does. */
  ghost predicate FirstHit(unwrap: Bytes -> Bytes, markers: seq<Bytes>, data: Bytes, k: int, p: int, r: Option<Bytes>) {
    && 0 <= k < |markers|
    && Unwrapped(unwrap, data, markers[k], p) == r
    && (forall q :: q < p ==> Unwrapped(unwrap, data, markers[k], q).None?)
    && (forall j, q :: 0 <= j < k ==> Unwrapped(unwrap, data, markers[j], q).None?)
  }

  method IndexFrom(data: Bytes, marker: Bytes, from: nat) returns (idx: int)
    requires from <= |data|
    ensures idx < 0 ==> forall p :: p >= from ==> !OccursAt(data, marker, p)
    ensures idx >= 0 ==> idx >= from && OccursAt(data, marker, idx) && forall p :: from <= p < idx ==> !OccursAt(data, marker, p)
  {
    idx := from;
    while idx + |marker| <= |data|
      invariant from <= idx
      invariant forall p :: from <= p < idx ==> !OccursAt(data, marker, p)
    {
      if data[idx..idx + |marker|] == marker { return; }
      idx := idx + 1;
    }
    return -1;
  }

  /** The first marker, and for it the first position, whose object unwraps; none if there is none. */
  method ExtractEmbeddedExportJSON(unwrap: Bytes -> Bytes, markers: seq<Bytes>, data: Bytes) returns (r: Option<Bytes>)
    requires forall m <- markers :: |m| > 0
    ensures r.None? ==> forall m, p :: m in markers ==> Unwrapped(unwrap, data, m, p).None?
    ensures r.Some? ==> exists k, p :: FirstHit(unwrap, markers, data, k, p, r)
  {
    for k := 0 to |markers|
      invariant forall j, q :: 0 <= j < k ==> Unwrapped(unwrap, data, markers[j], q).None?
    {
      var marker := markers[k];
      var searchFrom := 0;
      while true
        invariant 0 <= searchFrom <= |data|
        invariant forall q :: q < searchFrom ==> Unwrapped(unwrap, data, marker, q).None?
        decreases |data| - searchFrom
      {
        var idx := IndexFrom(data, marker, searchFrom);
        if idx < 0 { break; }
        var obj := SliceJSONObject(data, idx);
        if obj.None? {
          searchFrom := idx + 1;
          continue;
        }
        var inner := unwrap(obj.value);
        if |inner| > 0 && inner != obj.value {
          assert FirstHit(unwrap, markers, data, k, idx, Some(inner));
          return Some(inner);
        }
        searchFrom := idx + 1;
      }
      assert forall q :: Unwrapped(unwrap, data, marker, q).None?;
    }
    return None;
  }
}
