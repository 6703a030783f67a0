/** The display buffers of a packet capture: each keeps the newest rows it has been given, by time
    and then by index, and the table shows the newest of both. */
module Display {
  import opened Records

  /** A displayed record with the index it was given on arrival. */
  datatype Row = Row(index: nat, fields: GenericMap)

  function Number(v: Value): real { if v.Num? then v.x else 0.0 }

  function TimeMs(m: GenericMap): real {
    var t := Number(Get(m, "TimeFlowStartMs"));
    if t > 0.0 then t else Number(Get(m, "Time")) * 1000.0
  }

  predicate Before(a: Row, b: Row) {
    var s, t := TimeMs(a.fields), TimeMs(b.fields);
    if s != t then s < t else a.index < b.index
  }

  predicate IsPlaintextRecord(m: GenericMap) { Get(m, "RecordType") == Str("plaintext") }
  predicate IsWirePacketRecord(m: GenericMap) { "Data" in m }

  predicate Sorted(s: seq<Row>) {
    forall i, j :: 0 <= i < j < |s| ==> Before(s[i], s[j])
  }

  predicate DistinctIndexes(s: seq<Row>) {
    forall i, j :: 0 <= i < j < |s| ==> s[i].index != s[j].index
  }

  ghost predicate SameRows(a: seq<Row>, b: seq<Row>) {
    forall r :: r in a <==> r in b
  }

  // ---- Sorting ----

  function Insert(x: Row, s: seq<Row>): seq<Row> {
    if s == [] then [x]
    else if Before(s[|s| - 1], x) then s + [x]
    else Insert(x, s[..|s| - 1]) + [s[|s| - 1]]
  }

  function Sort(s: seq<Row>): seq<Row> {
    if s == [] then [] else Insert(s[|s| - 1], Sort(s[..|s| - 1]))
  }

  lemma BeforeIsAnOrder()
    ensures forall a: Row, b: Row, c: Row :: Before(a, b) && Before(b, c) ==> Before(a, c)
    ensures forall a: Row, b: Row :: Before(a, b) ==> !Before(b, a)
    ensures forall a: Row, b: Row :: a.index != b.index ==> Before(a, b) || Before(b, a)
  {
    hide TimeMs;
  }

  lemma {:induction false} InsertSorts(x: Row, s: seq<Row>)
    requires Sorted(s) && forall r <- s :: r.index != x.index
    ensures Sorted(Insert(x, s)) && SameRows(Insert(x, s), s + [x])
    ensures multiset(Insert(x, s)) == multiset(s) + multiset{x}
  {
    BeforeIsAnOrder();
    hide Before;
    if s == [] {
    } else if Before(s[|s| - 1], x) {
    } else {
      var init, last := s[..|s| - 1], s[|s| - 1];
      InsertSorts(x, init);
      assert s == init + [last];
      var t := Insert(x, init);
      hide Insert;
      forall r | r in t ensures Before(r, last) {
        assert r in init + [x];
      }
      SortedSnoc(t, last);
      assert SameRows(t + [last], s + [x]);
    }
  }

  lemma SortedSnoc(s: seq<Row>, last: Row)
    requires Sorted(s) && forall r :: r in s ==> Before(r, last)
    ensures Sorted(s + [last])
  {
    hide Before;
  }

  lemma DistinctFront(s: seq<Row>, last: Row)
    requires DistinctIndexes(s + [last])
    ensures DistinctIndexes(s) && forall r <- s :: r.index != last.index
  {
    var all := s + [last];
    assert all[|s|] == last && forall i :: 0 <= i < |s| ==> all[i] == s[i];
  }

  lemma {:induction false} SortSorts(s: seq<Row>)
    requires DistinctIndexes(s)
    ensures Sorted(Sort(s)) && SameRows(Sort(s), s) && multiset(Sort(s)) == multiset(s)
  {
    if s != [] {
      hide Insert, Sorted;
      var init, last := s[..|s| - 1], s[|s| - 1];
      assert s == init + [last];
      DistinctFront(init, last);
      hide DistinctIndexes;
      SortSorts(init);
      InsertSorts(last, Sort(init));
    }
  }

  /** A sorted sequence is determined by its rows, so an unstable sort has only one answer. */
  lemma {:induction false} SortedUnique(a: seq<Row>, b: seq<Row>)
    requires Sorted(a) && Sorted(b) && SameRows(a, b)
    ensures a == b
  {
    BeforeIsAnOrder();
    hide Before;
    if a == [] || b == [] {
      var x := if a != [] then a[0] else if b != [] then b[0] else Row(0, map[]);
      assert x in a <==> x in b;
    } else {
      var x, y := a[|a| - 1], b[|b| - 1];
      assert x in b && y in a;
      assert x == y;
      var a', b' := a[..|a| - 1], b[..|b| - 1];
      assert a == a' + [x] && b == b' + [y];
      forall r ensures r in a' <==> r in b' {
        assert r in a' ==> Before(r, x) && r in b;
        assert r in b' ==> Before(r, y) && r in a;
      }
      SortedUnique(a', b');
    }
  }

  lemma SortOfSorted(s: seq<Row>)
    requires Sorted(s) && DistinctIndexes(s)
    ensures Sort(s) == s
  {
    SortSorts(s);
    SortedUnique(Sort(s), s);
  }

  /** The library sort returns some sorted permutation, and there is only one. */
  method SortPacketFlows(flows: seq<Row>) returns (sorted: seq<Row>)
    requires DistinctIndexes(flows)
    ensures sorted == Sort(flows)
  {
    SortSorts(flows);
    sorted :| multiset(sorted) == multiset(flows) && Sorted(sorted);
    forall r ensures r in sorted <==> r in flows {
      assert r in multiset(sorted) <==> r in multiset(flows);
    }
    SortedUnique(sorted, Sort(flows));
  }

  // ---- The newest rows ----

  function Last(k: nat, s: seq<Row>): seq<Row> {
    if |s| <= k then s else s[|s| - k..]
  }

  /** The newest `k` of all the given rows. */
  function Newest(k: nat, s: seq<Row>): seq<Row> { Last(k, Sort(s)) }

  lemma {:induction false} InsertIntoLast(k: nat, x: Row, s: seq<Row>)
    ensures Last(k, Insert(x, s)) == Last(k, Insert(x, Last(k, s)))
  {
    if k > 0 && |s| > k {
      hide Before, Last, Insert;
      var init, last := s[..|s| - 1], s[|s| - 1];
      var t, u := Last(k, s), Last(k - 1, init);
      assert s == init + [last];
      LastOfSnoc(k, init, last);
      InsertSnoc(x, init, last);
      InsertSnoc(x, u, last);
      if Before(last, x) {
        LastOfSnoc(k, s, x);
        LastOfSnoc(k, t, x);
        LastOfLast(k - 1, k, s);
      } else {
        InsertIntoLast(k - 1, x, init);
        LastOfSnoc(k, Insert(x, init), last);
        LastOfSnoc(k, Insert(x, u), last);
      }
    } else {
      InsertIntoNone(k, x, s);
    }
  }

  lemma InsertIntoNone(k: nat, x: Row, s: seq<Row>)
    requires k == 0 || |s| <= k
    ensures Last(k, Insert(x, s)) == Last(k, Insert(x, Last(k, s)))
  {
    hide Insert;
  }

  lemma InsertSnoc(x: Row, s: seq<Row>, last: Row)
    ensures Insert(x, s + [last]) == if Before(last, x) then s + [last] + [x] else Insert(x, s) + [last]
  {
    hide Before;
    var t := s + [last];
    assert t[..|t| - 1] == s;
  }

  lemma LastOfLast(j: nat, k: nat, s: seq<Row>)
    requires j <= k
    ensures Last(j, Last(k, s)) == Last(j, s)
  {
  }

  lemma LastOfSnoc(k: nat, s: seq<Row>, x: Row)
    requires k > 0
    ensures Last(k, s + [x]) == Last(k - 1, s) + [x]
  {
  }

  lemma LastSorted(k: nat, s: seq<Row>)
    requires DistinctIndexes(s)
    ensures Sorted(Newest(k, s)) && DistinctIndexes(Newest(k, s)) && forall r <- Newest(k, s) :: r in s
  {
    SortSorts(s);
    SortedDistinct(s);
  }

  lemma SortedDistinct(s: seq<Row>)
    requires DistinctIndexes(s)
    ensures DistinctIndexes(Sort(s))
  {
    SortSorts(s);
    var t := Sort(s);
    forall i, j | 0 <= i < j < |t| ensures t[i].index != t[j].index {
      assert t[i] in s && t[j] in s && Before(t[i], t[j]);
      var x :| 0 <= x < |s| && s[x] == t[i];
      var y :| 0 <= y < |s| && s[y] == t[j];
    }
  }

  /** Keeping the newest `k` and adding a row is as good as sorting every row ever given. */
  lemma IncrementalNewest(k: nat, all: seq<Row>, x: Row)
    requires DistinctIndexes(all + [x])
    ensures Newest(k, Newest(k, all) + [x]) == Newest(k, all + [x])
  {
    assert forall i :: 0 <= i < |all| ==> (all + [x])[i] == all[i];
    assert (all + [x])[..|all|] == all && (all + [x])[|all|] == x;
    LastSorted(k, all);
    var kept := Newest(k, all);
    assert (kept + [x])[..|kept|] == kept;
    SortOfSorted(kept);
    InsertIntoLast(k, x, Sort(all));
  }

  /** The time of a row in milliseconds: its own if positive, else its seconds, else zero. */
  lemma TimeMsMeaning(m: GenericMap)
    ensures var ms, secs := Get(m, "TimeFlowStartMs"), Get(m, "Time");
            TimeMs(m) == if ms.Num? && ms.x > 0.0 then ms.x else if secs.Num? then 1000.0 * secs.x else 0.0
  {
  }

  /** Which of two rows is newer: by time, and by index at the same time. */
  predicate Newer(a: Row, b: Row) {
    TimeMs(a.fields) > TimeMs(b.fields) || (TimeMs(a.fields) == TimeMs(b.fields) && a.index > b.index)
  }

  /** `kept` are `k` of the rows, or all if there are no more; each is newer than the one before it
      and than every row that is left out. */
  ghost predicate KeepsNewest(k: nat, kept: seq<Row>, all: seq<Row>) {
    && |kept| == (if |all| <= k then |all| else k)
    && (forall r <- kept :: r in all)
    && (forall i, j :: 0 <= i < j < |kept| ==> Newer(kept[j], kept[i]))
    && (forall x, y :: x in kept && y in all && y !in kept ==> Newer(x, y))
  }

  lemma NewerIsAfter()
    ensures forall a: Row, b: Row :: Before(a, b) <==> Newer(b, a)
  {
    hide TimeMs;
  }

  lemma NewestMeaning(k: nat, s: seq<Row>)
    requires DistinctIndexes(s)
    ensures KeepsNewest(k, Newest(k, s), s)
  {
    SortSorts(s);
    SortLength(s);
    NewerIsAfter();
    hide Before, Newer, Sort, DistinctIndexes;
    LastIsNewer(k, Sort(s));
    hide Sorted, Last;
  }

  lemma LastIsNewer(k: nat, sorted: seq<Row>)
    requires forall i, j :: 0 <= i < j < |sorted| ==> Newer(sorted[j], sorted[i])
    ensures KeepsNewest(k, Last(k, sorted), sorted)
  {
    hide Newer;
    var kept := Last(k, sorted);
    var from := |sorted| - |kept|;
    assert kept == sorted[from..];
    hide Last;
    assert forall j :: from <= j < |sorted| ==> kept[j - from] == sorted[j];
    forall x, y | x in kept && y in sorted && y !in kept ensures Newer(x, y) {
      var i :| 0 <= i < |kept| && kept[i] == x;
      var j :| 0 <= j < |sorted| && sorted[j] == y;
      assert sorted[from + i] == x && j < from;
    }
  }

  // ---- What the table shows ----

  const WIRE_KEEP := 200
  const PLAINTEXT_KEEP := 300

  /** The rows of `s` that are also in `allowed`. */
  function Among(s: seq<Row>, allowed: seq<Row>): seq<Row> {
    if s == [] then []
    else
      var rest := Among(s[..|s| - 1], allowed);
      if s[|s| - 1] in allowed then rest + [s[|s| - 1]] else rest
  }

  lemma {:induction false} AmongSorted(s: seq<Row>, allowed: seq<Row>)
    requires Sorted(s)
    ensures Sorted(Among(s, allowed)) && forall r :: r in Among(s, allowed) <==> r in s && r in allowed
  {
    if s != [] {
      hide Before;
      assert s == s[..|s| - 1] + [s[|s| - 1]];
      AmongSorted(s[..|s| - 1], allowed);
      var init, last := s[..|s| - 1], s[|s| - 1];
      assert forall r <- init :: Before(r, last);
      var rest := Among(init, allowed);
      assert forall r <- rest :: r in init;
    }
  }

  lemma {:induction false} AmongConcat(s: seq<Row>, t: seq<Row>, allowed: seq<Row>)
    requires forall r <- t :: r in allowed
    ensures Among(s + t, allowed) == Among(s, allowed) + t
  {
    if t == [] {
      assert s + t == s;
    } else {
      var n := |s + t| - 1;
      assert (s + t)[..n] == s + t[..|t| - 1] && (s + t)[n] == t[|t| - 1];
      AmongConcat(s, t[..|t| - 1], allowed);
      assert t == t[..|t| - 1] + [t[|t| - 1]];
    }
  }

  /** How many rows of one kind are in a list of rows. */
  ghost function CountIn(s: seq<Row>, kind: seq<Row>): nat { |set r | r in s && r in kind| }

  lemma {:induction false} SortedCardinality(s: seq<Row>)
    requires Sorted(s)
    ensures |set r | r in s| == |s|
  {
    if s == [] {
      assert (set r | r in s) == {};
    } else {
      BeforeIsAnOrder();
      hide Before;
      var init, last := s[..|s| - 1], s[|s| - 1];
      assert s == init + [last];
      SortedCardinality(init);
      assert forall r <- init :: Before(r, last);
      assert (set r | r in s) == (set r | r in init) + {last};
    }
  }

  lemma SubsetCardinality<T>(a: set<T>, b: set<T>)
    requires a <= b
    ensures |a| <= |b|
  {
    assert b == a + (b - a);
  }

  /** A row of one kind among the newest `k` of everything is kept in the buffer of its kind,
      unless more rows of that kind than the buffer holds are among the newest `k`. */
  lemma NewestIsKept(k: nat, cap: nat, kind: seq<Row>, all: seq<Row>, x: Row)
    requires DistinctIndexes(kind) && DistinctIndexes(all) && forall r <- kind :: r in all
    requires x in Newest(k, all) && x in kind && CountIn(Newest(k, all), kind) <= cap
    ensures x in Newest(cap, kind)
  {
    var kept := Newest(cap, kind);
    if x !in kept {
      KeptRowsAreNewer(k, cap, kind, all, x);
      SortedCardinality(kept);
      hide Newest, DistinctIndexes, Sorted, Before;
      var bigger := (set r | r in kept) + {x};
      assert |bigger| == cap + 1;
      var counted := set r | r in Newest(k, all) && r in kind;
      assert bigger <= counted;
      SubsetCardinality(bigger, counted);
    }
  }

  /** A row missing from the buffer of its kind is older than all that the buffer holds. */
  lemma KeptRowsAreNewer(k: nat, cap: nat, kind: seq<Row>, all: seq<Row>, x: Row)
    requires DistinctIndexes(kind) && DistinctIndexes(all) && forall r <- kind :: r in all
    requires x in Newest(k, all) && x in kind && x !in Newest(cap, kind)
    ensures var kept := Newest(cap, kind);
            && Sorted(kept) && |kept| == cap
            && forall w <- kept :: w in Newest(k, all) && w in kind
  {
    SortSorts(kind);
    SortSorts(all);
    hide Before, Sort, DistinctIndexes;
    var sorted, kept := Sort(kind), Newest(cap, kind);
    assert x in sorted && |sorted| > cap;
    var i :| 0 <= i < |sorted| - cap && sorted[i] == x;
    forall w | w in kept ensures w in Newest(k, all) && w in kind {
      var j :| |sorted| - cap <= j < |sorted| && sorted[j] == w;
      assert w in sorted && Before(x, w);
      LaterIsNewest(k, Sort(all), x, w);
    }
  }

  lemma LaterIsNewest(k: nat, s: seq<Row>, x: Row, w: Row)
    requires Sorted(s) && x in Last(k, s) && w in s && Before(x, w)
    ensures w in Last(k, s)
  {
    hide Before, Sorted;
    var l, from := Last(k, s), |s| - |Last(k, s)|;
    assert l == s[from..];
    hide Last;
    var j :| 0 <= j < |l| && l[j] == x;
    var i :| 0 <= i < |s| && s[i] == w;
    assert s[from + j] == x;
    PositionsFollow(s, from + j, i);
    assert l[i - from] == w;
  }

  lemma PositionsFollow(s: seq<Row>, i: nat, j: nat)
    requires Sorted(s) && i < |s| && j < |s| && Before(s[i], s[j])
    ensures i < j
  {
    assert !Before(s[j], s[i]) by { BeforeIsAnOrder(); }
    hide Before;
  }

  function Shown(k: int, wire: seq<Row>, plain: seq<Row>): seq<Row> {
    if k <= 0 then [] else Last(k, Sort(wire + plain))
  }

  lemma JoinDistinct(wire: seq<Row>, plain: seq<Row>, w: seq<Row>, p: seq<Row>)
    requires DistinctIndexes(wire + plain) && DistinctIndexes(w) && DistinctIndexes(p)
    requires (forall r <- w :: r in wire) && (forall r <- p :: r in plain)
    ensures DistinctIndexes(w + p)
  {
    var all, few := wire + plain, w + p;
    forall i, j | 0 <= i < j < |few| ensures few[i].index != few[j].index {
      if i < |w| <= j {
        assert few[i] in w && few[j] in p;
        var x :| 0 <= x < |wire| && wire[x] == few[i];
        var y :| 0 <= y < |plain| && plain[y] == few[j];
        assert all[x] == few[i] && all[|wire| + y] == few[j];
      }
    }
  }

  lemma PartsDistinct(wire: seq<Row>, plain: seq<Row>)
    requires DistinctIndexes(wire + plain)
    ensures DistinctIndexes(wire) && DistinctIndexes(plain)
    ensures forall r <- wire :: r !in plain
  {
    var all := wire + plain;
    assert forall i :: 0 <= i < |wire| ==> all[i] == wire[i];
    assert forall i :: 0 <= i < |plain| ==> all[|wire| + i] == plain[i];
  }

  /** The table shows the newest `k` of everything ever appended if and only if those rows hold no
      more packets and no more plaintext records than the two buffers keep. */
  lemma ShownIsNewestIff(k: nat, wire: seq<Row>, plain: seq<Row>)
    requires DistinctIndexes(wire + plain) && k > 0
    ensures Shown(k, Newest(WIRE_KEEP, wire), Newest(PLAINTEXT_KEEP, plain)) == Newest(k, wire + plain)
            <==> CountIn(Newest(k, wire + plain), wire) <= 200
                 && CountIn(Newest(k, wire + plain), plain) <= 300
  {
    var N, w, p := Newest(k, wire + plain), Newest(WIRE_KEEP, wire), Newest(PLAINTEXT_KEEP, plain);
    PartsDistinct(wire, plain);
    LastSorted(WIRE_KEEP, wire);
    LastSorted(PLAINTEXT_KEEP, plain);
    LastSorted(k, wire + plain);
    JoinDistinct(wire, plain, w, p);
    if CountIn(N, wire) <= WIRE_KEEP && CountIn(N, plain) <= PLAINTEXT_KEEP {
      forall r | r in N ensures r in w + p {
        if r in wire { NewestIsKept(k, WIRE_KEEP, wire, wire + plain, r); }
        else { NewestIsKept(k, PLAINTEXT_KEEP, plain, wire + plain, r); }
      }
      FewerRowsSameNewest(k, wire + plain, w + p);
    }
    if Shown(k, w, p) == N {
      ShownCounts(k, wire, plain);
    }
  }

  /** Dropping rows that are not among the newest `k` does not change the newest `k`. */
  lemma FewerRowsSameNewest(k: nat, all: seq<Row>, few: seq<Row>)
    requires DistinctIndexes(all) && DistinctIndexes(few) && forall r <- few :: r in all
    requires forall r <- Newest(k, all) :: r in few
    ensures Newest(k, few) == Newest(k, all)
  {
    hide Before, Sort;
    SortSorts(all);
    SortSorts(few);
    var S, N := Sort(all), Newest(k, all);
    AmongSorted(S, few);
    SortedUnique(Among(S, few), Sort(few));
    if |S| <= k {
      AmongConcat([], S, few);
      assert [] + S == S;
    } else {
      var front := S[..|S| - k];
      assert S == front + N;
      AmongConcat(front, N, few);
    }
  }

  lemma ShownCounts(k: nat, wire: seq<Row>, plain: seq<Row>)
    requires DistinctIndexes(wire + plain) && k > 0
    ensures var shown := Shown(k, Newest(WIRE_KEEP, wire), Newest(PLAINTEXT_KEEP, plain));
            CountIn(shown, wire) <= WIRE_KEEP && CountIn(shown, plain) <= PLAINTEXT_KEEP
  {
    PartsDistinct(wire, plain);
    LastSorted(WIRE_KEEP, wire);
    LastSorted(PLAINTEXT_KEEP, plain);
    var w, p := Newest(WIRE_KEEP, wire), Newest(PLAINTEXT_KEEP, plain);
    JoinDistinct(wire, plain, w, p);
    SortSorts(w + p);
    SortedCardinality(w);
    SortedCardinality(p);
    var shown := Shown(k, w, p);
    hide Before, Sort, Newest;
    assert forall r <- shown :: r in w + p;
    SubsetCardinality(set r | r in shown && r in wire, set r | r in w);
    SubsetCardinality(set r | r in shown && r in plain, set r | r in p);
  }

  /** Up to 200 rows the table is always exact. */
  lemma ShownIsNewest(k: nat, wire: seq<Row>, plain: seq<Row>)
    requires DistinctIndexes(wire + plain) && 0 < k <= WIRE_KEEP
    ensures Shown(k, Newest(WIRE_KEEP, wire), Newest(PLAINTEXT_KEEP, plain)) == Newest(k, wire + plain)
  {
    var N := Newest(k, wire + plain);
    LastSorted(k, wire + plain);
    SortedCardinality(N);
    SubsetCardinality(set r | r in N && r in wire, set r | r in N);
    SubsetCardinality(set r | r in N && r in plain, set r | r in N);
    ShownIsNewestIff(k, wire, plain);
  }

  lemma {:induction false} SortLength(s: seq<Row>)
    ensures |Sort(s)| == |s|
  {
    hide Before;
    if s != [] {
      SortLength(s[..|s| - 1]);
      InsertLength(s[|s| - 1], Sort(s[..|s| - 1]));
    }
  }

  lemma {:induction false} InsertLength(x: Row, s: seq<Row>)
    ensures |Insert(x, s)| == |s| + 1
  {
    hide Before;
    if s != [] { InsertLength(x, s[..|s| - 1]); }
  }

  /** After this history the table shows the newest `k` rows of everything ever appended. */
  ghost predicate Exact(k: nat, wire: seq<Row>, plain: seq<Row>) {
    Shown(k, Newest(WIRE_KEEP, wire), Newest(PLAINTEXT_KEEP, plain)) == Newest(k, wire + plain)
  }

  /** Beyond 200 any history of more than 200 packets alone is cut short. */
  lemma PacketsAloneAreCutShort(k: nat, wire: seq<Row>)
    requires k > 200 && |wire| > 200
    ensures !Exact(k, wire, [])
  {
    assert wire + [] == wire && Newest(PLAINTEXT_KEEP, []) == [];
    SortLength(wire);
    var w := Newest(WIRE_KEEP, wire);
    assert w + [] == w && |w| == WIRE_KEEP;
    SortLength(w);
    assert |Shown(k, w, [])| <= WIRE_KEEP < |Newest(k, wire)|;
    hide Sort, Newest;
  }

  /** The show counts for which the table is right whatever has been received are 0 to 200. */
  lemma AlwaysExactIff(k: nat)
    ensures k <= 200 <==> forall wire, plain :: DistinctIndexes(wire + plain) ==> Exact(k, wire, plain)
  {
    hide Newest, Sort;
    if k <= WIRE_KEEP {
      forall wire, plain | DistinctIndexes(wire + plain) ensures Exact(k, wire, plain) {
        if k == 0 { NewestNone(wire + plain); } else { ShownIsNewest(k, wire, plain); }
      }
    } else {
      var wire := seq(WIRE_KEEP + 1, (i: nat) => Row(i, map[]));
      assert wire + [] == wire && DistinctIndexes(wire);
      PacketsAloneAreCutShort(k, wire);
    }
  }

  lemma NewestNone(s: seq<Row>)
    ensures Newest(0, s) == []
  {
  }

  // ---- The buffers ----

  class FlowDisplay {
    const tls: bool           // plaintext capture enabled
    const keepCount: nat
    var paused: bool
    var flowIndex: nat
    var lastFlows: seq<Row>
    var lastWirePackets: seq<Row>
    var lastPlaintextFlows: seq<Row>
    // every row ever appended, by destination
    ghost var others: seq<Row>
    ghost var wire: seq<Row>
    ghost var plain: seq<Row>

    ghost predicate Valid()
      reads this
    {
      && DistinctIndexes(wire + plain + others)
      && (forall r <- wire + plain + others :: r.index < flowIndex)
      && lastFlows == Newest(keepCount, others)
      && lastWirePackets == Newest(WIRE_KEEP, wire)
      && lastPlaintextFlows == Newest(PLAINTEXT_KEEP, plain)
    }

    constructor (tls: bool, keepCount: nat)
      ensures Valid() && this.tls == tls && this.keepCount == keepCount
      ensures wire == [] && plain == [] && others == []
    {
      this.tls, this.keepCount := tls, keepCount;
      paused, flowIndex := false, 0;
      lastFlows, lastWirePackets, lastPlaintextFlows := [], [], [];
      others, wire, plain := [], [], [];
    }

    lemma BuffersKeepNewest()
      requires Valid()
      ensures KeepsNewest(200, lastWirePackets, wire) && KeepsNewest(300, lastPlaintextFlows, plain)
      ensures KeepsNewest(keepCount, lastFlows, others)
    {
      assert wire + plain + others == wire + (plain + others);
      PartsDistinct(wire, plain + others);
      PartsDistinct(plain, others);
      hide Newest, KeepsNewest, DistinctIndexes;
      NewestMeaning(200, wire);
      NewestMeaning(300, plain);
      NewestMeaning(keepCount, others);
    }

    method AppendFlow(m: GenericMap)
      requires Valid()
      modifies this
      ensures Valid() && paused == old(paused)
      ensures flowIndex == old(flowIndex) + if paused then 0 else 1
      ensures var row := Row(old(flowIndex), m);
              if paused then wire == old(wire) && plain == old(plain) && others == old(others)
              else if tls && Get(m, "RecordType") == Str("plaintext") then
                plain == old(plain) + [row] && wire == old(wire) && others == old(others)
              else if tls && "Data" in m then
                wire == old(wire) + [row] && plain == old(plain) && others == old(others)
              else others == old(others) + [row] && wire == old(wire) && plain == old(plain)
      ensures KeepsNewest(200, lastWirePackets, wire) && KeepsNewest(300, lastPlaintextFlows, plain)
      ensures KeepsNewest(keepCount, lastFlows, others)
    {
      PlaceRow(m);
      BuffersKeepNewest();
    }

    /** The row goes to the buffer of its kind. */
    method PlaceRow(m: GenericMap)
      requires Valid()
      modifies this
      ensures Valid() && paused == old(paused)
      ensures flowIndex == old(flowIndex) + if paused then 0 else 1
      ensures var row := Row(old(flowIndex), m);
              if paused then wire == old(wire) && plain == old(plain) && others == old(others)
              else if tls && IsPlaintextRecord(m) then
                plain == old(plain) + [row] && wire == old(wire) && others == old(others)
              else if tls && IsWirePacketRecord(m) then
                wire == old(wire) + [row] && plain == old(plain) && others == old(others)
              else others == old(others) + [row] && wire == old(wire) && plain == old(plain)
    {
      hide Newest, DistinctIndexes, IsPlaintextRecord, IsWirePacketRecord, KeepsNewest;
      if paused { return; }
      var row := Row(flowIndex, m);
      NewRowDistinct(wire, plain, others, row);
      flowIndex := flowIndex + 1;
      if tls && IsPlaintextRecord(m) {
        lastPlaintextFlows := AppendToTimeSortedBuffer(lastPlaintextFlows, row, PLAINTEXT_KEEP, plain);
        plain := plain + [row];
      } else if tls && IsWirePacketRecord(m) {
        lastWirePackets := AppendToTimeSortedBuffer(lastWirePackets, row, WIRE_KEEP, wire);
        wire := wire + [row];
      } else {
        lastFlows := AppendToTimeSortedBuffer(lastFlows, row, keepCount, others);
        others := others + [row];
      }
    }

    /** The rows shown with plaintext capture on and no filter. */
    method GetFlows(showCount: int) returns (rows: seq<Row>)
      requires Valid() && tls
      ensures showCount <= 0 ==> rows == []
      ensures 0 < showCount <= 200 ==> rows == Newest(showCount, wire + plain) && KeepsNewest(showCount, rows, wire + plain)
      ensures showCount > 0 ==>
                (rows == Newest(showCount, wire + plain)
                 <==> CountIn(Newest(showCount, wire + plain), wire) <= 200
                      && CountIn(Newest(showCount, wire + plain), plain) <= 300)
      ensures showCount > 0 && rows == Newest(showCount, wire + plain) ==> KeepsNewest(showCount, rows, wire + plain)
    {
      ghost var all := wire + plain + others;
      assert forall i :: 0 <= i < |wire + plain| ==> all[i] == (wire + plain)[i];
      PartsDistinct(wire, plain);
      LastSorted(WIRE_KEEP, wire);
      LastSorted(PLAINTEXT_KEEP, plain);
      JoinDistinct(wire, plain, lastWirePackets, lastPlaintextFlows);
      SortSorts(lastWirePackets + lastPlaintextFlows);
      SortedDistinct(lastWirePackets + lastPlaintextFlows);
      hide Newest, Sort, Before;
      var merged := SortPacketFlows(lastWirePackets + lastPlaintextFlows);
      SortOfSorted(merged);
      rows := TrimFlowsToShowCount(merged, showCount);
      if showCount > 0 {
        ShownIsNewestIff(showCount, wire, plain);
        NewestMeaning(showCount, wire + plain);
        hide KeepsNewest;
        if showCount <= WIRE_KEEP { ShownIsNewest(showCount, wire, plain); }
      }
    }
  }

  method AppendToTimeSortedBuffer(buf: seq<Row>, row: Row, maxLen: nat, ghost all: seq<Row>) returns (r: seq<Row>)
    requires DistinctIndexes(all + [row]) && buf == Newest(maxLen, all)
    ensures r == Newest(maxLen, all + [row]) && KeepsNewest(maxLen, r, all + [row])
  {
    NewestMeaning(maxLen, all + [row]);
    hide KeepsNewest;
    IncrementalNewest(maxLen, all, row);
    assert forall i :: 0 <= i < |all| ==> (all + [row])[i] == all[i];
    LastSorted(maxLen, all);
    assert DistinctIndexes(buf + [row]) by {
      assert (all + [row])[|all|] == row;
      forall x <- all ensures x.index != row.index {
        var i :| 0 <= i < |all| && all[i] == x;
        assert (all + [row])[i] == x;
      }
    }
    hide Sort;
    r := SortPacketFlows(buf + [row]);
    if |r| > maxLen { r := r[|r| - maxLen..]; }
  }

  method TrimFlowsToShowCount(flows: seq<Row>, limit: int) returns (r: seq<Row>)
    requires DistinctIndexes(flows)
    ensures r == if limit <= 0 then [] else if |flows| <= limit then flows else Newest(limit, flows)
  {
    if limit <= 0 { return []; }
    if |flows| <= limit { return flows; }
    SortSorts(flows);
    assert |Sort(flows)| == |multiset(flows)|;
    r := SortPacketFlows(flows);
    r := r[|r| - limit..];
  }

  lemma NewRowDistinct(wire: seq<Row>, plain: seq<Row>, others: seq<Row>, row: Row)
    requires DistinctIndexes(wire + plain + others)
    requires forall r <- wire + plain + others :: r.index < row.index
    ensures DistinctIndexes((wire + [row]) + plain + others) && DistinctIndexes(wire + [row])
    ensures DistinctIndexes(wire + (plain + [row]) + others) && DistinctIndexes(plain + [row])
    ensures DistinctIndexes(wire + plain + (others + [row])) && DistinctIndexes(others + [row])
    ensures forall r <- (wire + [row]) + plain + others :: r.index <= row.index
    ensures forall r <- wire + (plain + [row]) + others :: r.index <= row.index
    ensures forall r <- wire + plain + (others + [row]) :: r.index <= row.index
  {
    OneMoreRow(wire, plain + others, [], row);
    OneMoreRow(plain, others, wire, row);
    OneMoreRow(others, [], wire + plain, row);
    assert [] + wire + (plain + others) == wire + plain + others;
    assert [] + (wire + [row]) + (plain + others) == (wire + [row]) + plain + others;
    assert (wire + plain) + others + [] == wire + plain + others;
    assert (wire + plain) + (others + [row]) + [] == wire + plain + (others + [row]);
  }

  /** A row with a new highest index may join any of the three lists. */
  lemma OneMoreRow(b: seq<Row>, c: seq<Row>, a: seq<Row>, row: Row)
    requires DistinctIndexes(a + b + c) && forall r <- a + b + c :: r.index < row.index
    ensures DistinctIndexes(a + (b + [row]) + c) && DistinctIndexes(b + [row])
    ensures forall r <- a + (b + [row]) + c :: r.index <= row.index
  {
    InsertDistinct(a + b, c, row);
    assert a + (b + [row]) + c == (a + b) + [row] + c;
    SliceDistinct(a, b + [row], c);
  }

  lemma InsertDistinct(a: seq<Row>, b: seq<Row>, row: Row)
    requires DistinctIndexes(a + b) && forall r <- a + b :: r.index < row.index
    ensures DistinctIndexes(a + [row] + b) && forall r <- a + [row] + b :: r.index <= row.index
  {
    var s, t := a + b, a + [row] + b;
    forall i | 0 <= i < |t| && i != |a| ensures t[i] in s && t[i] == s[if i < |a| then i else i - 1] {
    }
    assert t[|a|] == row;
    forall i, j | 0 <= i < j < |t| ensures t[i].index != t[j].index {
      if i == |a| { assert t[j] in s; }
      else if j == |a| { assert t[i] in s; }
    }
  }

  lemma SliceDistinct(a: seq<Row>, b: seq<Row>, c: seq<Row>)
    requires DistinctIndexes(a + b + c)
    ensures DistinctIndexes(b)
  {
    assert forall i :: 0 <= i < |b| ==> (a + b + c)[|a| + i] == b[i];
  }
}
