/**
 * src/utils/compute-sizes-value.ts: the `sizes` attribute, either a literal
 * string or built from a breakpoint record (a list of
 * `"(min-width: <key>) <width>"` media queries followed by a fallback width,
 * the form section 4.8.4.2 of the HTML Living Standard describes).
 */
module SizesAttribute {
  import opened Wrappers
  import opened JsText

  /** One `[key, value]` pair of the record: a breakpoint and the width used beyond it. */
  datatype Breakpoint = Breakpoint(condition: string, width: string)

  /** The `sizes` option: a literal string, or a record's entries in insertion order. */
  datatype Sizes = SizesText(text: string) | SizesRecord(entries: seq<Breakpoint>)

  const DefaultWidth := "100vw"
  const FallbackKey := "fallback"

  /** The value stored under `key`, if any. */
  function Lookup(entries: seq<Breakpoint>, key: string): (r: Option<string>)
    ensures r.None? <==> forall i :: 0 <= i < |entries| ==> entries[i].condition != key
    ensures r.Some? ==> Breakpoint(key, r.value) in entries
  {
    if entries == [] then None
    else if entries[0].condition == key then Some(entries[0].width)
    else Lookup(entries[1..], key)
  }

  /** The record without its `fallback` key (`const { fallback, ...breakpoints } = sizes`). */
  function WithoutFallback(entries: seq<Breakpoint>): (r: seq<Breakpoint>)
    ensures forall b :: b in r <==> b in entries && b.condition != FallbackKey
    ensures |r| <= |entries|
  {
    if entries == [] then []
    else (if entries[0].condition != FallbackKey then [entries[0]] else []) + WithoutFallback(entries[1..])
  }

  /** `Number.parseInt(condition, 10) || 0`: NaN and zero both give 0. */
  function BreakpointValue(b: Breakpoint): (r: int)
    ensures r != 0 ==> ParseInt(b.condition) == Some(r)
    ensures ParseInt(b.condition).None? ==> r == 0
  {
    match ParseInt(b.condition)
    case None => 0
    case Some(v) => v
  }

  /** An entry with its parsed key, as `getSortedBreakpoints` maps it before filtering. */
  datatype Valued = Valued(value: int, condition: string, width: string)

  function WithValue(b: Breakpoint): (d: Valued)
    ensures Strip(d) == b
  {
    Valued(BreakpointValue(b), b.condition, b.width)
  }

  function Strip(d: Valued): Breakpoint {
    Breakpoint(d.condition, d.width)
  }

  /** `d.value` is the parsed key of the entry `d` came from. */
  predicate Faithful(d: Valued) {
    d.value == BreakpointValue(Strip(d))
  }

  function WithValues(bs: seq<Breakpoint>): (r: seq<Valued>)
    ensures |r| == |bs|
    ensures forall i :: 0 <= i < |bs| ==> r[i] == WithValue(bs[i])
  {
    if bs == [] then [] else [WithValue(bs[0])] + WithValues(bs[1..])
  }

  function StripAll(ds: seq<Valued>): (r: seq<Breakpoint>)
    ensures |r| == |ds|
    ensures forall i :: 0 <= i < |ds| ==> r[i] == Strip(ds[i])
  {
    if ds == [] then [] else [Strip(ds[0])] + StripAll(ds[1..])
  }

  /** The auto-sort filter: `d.value > 0 && Number.parseInt(d.width, 10)` is truthy (a non-zero number). */
  predicate IsUsable(d: Valued): (r: bool)
    ensures r ==> d.value > 0 && d.width != []
  {
    d.value > 0 && ParseInt(d.width).Some? && ParseInt(d.width).value != 0
  }

  function KeepUsable(ds: seq<Valued>): (r: seq<Valued>)
    ensures |r| <= |ds|
  {
    if ds == [] then []
    else (if IsUsable(ds[0]) then [ds[0]] else []) + KeepUsable(ds[1..])
  }

  lemma {:induction false} KeepUsableMultiset(ds: seq<Valued>)
    ensures forall x :: multiset(KeepUsable(ds))[x] == if IsUsable(x) then multiset(ds)[x] else 0
  {
    if ds != [] {
      KeepUsableMultiset(ds[1..]);
      assert ds == [ds[0]] + ds[1..];
    }
  }

  /**
   * The sort key: the comparator `sortFactor * (a.value - b.value)` orders by
   * this value ascending, with `sortFactor` 1 for desktop-first and -1 for
   * mobile-first.
   */
  function Rank(d: Valued, desktopFirst: bool): int {
    if desktopFirst then d.value else -d.value
  }

  predicate SortedByRank(s: seq<Valued>, desktopFirst: bool) {
    forall i, j :: 0 <= i < j < |s| ==> Rank(s[i], desktopFirst) <= Rank(s[j], desktopFirst)
  }

  /** Places `d` before the first element whose rank is not lower. */
  function Insert(d: Valued, s: seq<Valued>, desktopFirst: bool): (r: seq<Valued>)
    ensures multiset(r) == multiset(s) + multiset{d}
  {
    if s == [] || Rank(d, desktopFirst) <= Rank(s[0], desktopFirst) then [d] + s
    else
      assert s == [s[0]] + s[1..];
      [s[0]] + Insert(d, s[1..], desktopFirst)
  }

  /** Inserting into a list sorted by rank keeps it sorted. */
  lemma {:induction false} InsertSorted(d: Valued, s: seq<Valued>, desktopFirst: bool)
    requires SortedByRank(s, desktopFirst)
    ensures SortedByRank(Insert(d, s, desktopFirst), desktopFirst)
  {
    if s == [] || Rank(d, desktopFirst) <= Rank(s[0], desktopFirst) {
      var r := [d] + s;
      forall i, j | 0 <= i < j < |r| ensures Rank(r[i], desktopFirst) <= Rank(r[j], desktopFirst) {
        if i > 0 {
          assert r[i] == s[i - 1] && r[j] == s[j - 1];
        } else {
          assert r[j] == s[j - 1];
        }
      }
    } else {
      SortedTail(s, desktopFirst);
      var tail := Insert(d, s[1..], desktopFirst);
      InsertSorted(d, s[1..], desktopFirst);
      HeadBelowTail(s, tail, d, desktopFirst);
    }
  }

  lemma HeadBelowTail(s: seq<Valued>, tail: seq<Valued>, d: Valued, desktopFirst: bool)
    requires s != [] && SortedByRank(s, desktopFirst) && SortedByRank(tail, desktopFirst)
    requires multiset(tail) == multiset(s[1..]) + multiset{d}
    requires Rank(s[0], desktopFirst) < Rank(d, desktopFirst)
    ensures SortedByRank([s[0]] + tail, desktopFirst)
  {
    forall j | 0 <= j < |tail| ensures Rank(s[0], desktopFirst) <= Rank(tail[j], desktopFirst) {
      var x := tail[j];
      assert x in multiset(tail);
      if x != d {
        assert x in multiset(s[1..]);
        var k :| 0 <= k < |s[1..]| && s[1..][k] == x;
        assert s[k + 1] == x;
      }
    }
    var r := [s[0]] + tail;
    forall i, j | 0 <= i < j < |r| ensures Rank(r[i], desktopFirst) <= Rank(r[j], desktopFirst) {
      if i > 0 {
        assert r[i] == tail[i - 1] && r[j] == tail[j - 1];
      } else {
        assert r[j] == tail[j - 1];
      }
    }
  }

  /** A stable sort by rank, as `Array.prototype.sort` is. */
  function SortByRank(s: seq<Valued>, desktopFirst: bool): (r: seq<Valued>)
    ensures SortedByRank(r, desktopFirst)
    ensures multiset(r) == multiset(s)
  {
    if s == [] then []
    else
      assert s == [s[0]] + s[1..];
      InsertSorted(s[0], SortByRank(s[1..], desktopFirst), desktopFirst);
      Insert(s[0], SortByRank(s[1..], desktopFirst), desktopFirst)
  }

  /** `getSortedBreakpoints`. */
  function GetSortedBreakpoints(bs: seq<Breakpoint>, desktopFirst: bool, disableAutoSort: bool): (r: seq<Breakpoint>)
    ensures disableAutoSort ==> r == bs
    ensures |r| <= |bs|
  {
    if disableAutoSort then bs
    else
      var kept := KeepUsable(WithValues(bs));
      assert |SortByRank(kept, desktopFirst)| == |multiset(kept)|;
      StripAll(SortByRank(kept, desktopFirst))
  }

  function MediaCondition(desktopFirst: bool): (r: string)
    ensures r == "max-width" <==> desktopFirst
    ensures r == "min-width" <==> !desktopFirst
  {
    if desktopFirst then "max-width" else "min-width"
  }

  function MediaQuery(b: Breakpoint, mediaCondition: string): (r: string)
    ensures |r| == |mediaCondition| + |b.condition| + |b.width| + 5
    ensures r[..|mediaCondition| + 3] == "(" + mediaCondition + ": "
    ensures r[|mediaCondition| + 3..|mediaCondition| + 3 + |b.condition|] == b.condition
    ensures r[|mediaCondition| + 3 + |b.condition|..|mediaCondition| + 5 + |b.condition|] == ") "
    ensures r[|r| - |b.width|..] == b.width
  {
    "(" + mediaCondition + ": " + b.condition + ") " + b.width
  }

  function MediaQueries(bs: seq<Breakpoint>, mediaCondition: string): (r: seq<string>)
    ensures |r| == |bs|
    ensures forall i :: 0 <= i < |bs| ==> r[i] == MediaQuery(bs[i], mediaCondition)
  {
    if bs == [] then [] else [MediaQuery(bs[0], mediaCondition)] + MediaQueries(bs[1..], mediaCondition)
  }

  /** `fallback || '100vw'`. */
  function FallbackWidth(entries: seq<Breakpoint>): (r: string)
    ensures r != ""
  {
    match Lookup(entries, FallbackKey)
    case Some(f) => if f != "" then f else DefaultWidth
    case None => DefaultWidth
  }

  /** `computeSizesValue`: `None` is an absent `sizes` option. */
  function ComputeSizesValue(sizes: Option<Sizes>, desktopFirst: bool, disableAutoSort: bool): (r: string)
    ensures r != ""
    // an absent or empty string gives the default width
    ensures sizes.None? || sizes == Some(SizesText("")) ==> r == DefaultWidth
    // any other string is passed through untouched
    ensures sizes.Some? && sizes.value.SizesText? && sizes.value.text != "" ==> r == sizes.value.text
  {
    match sizes
    case None => DefaultWidth
    case Some(SizesText(text)) => if text == "" then DefaultWidth else text
    case Some(SizesRecord(entries)) =>
      var sorted := GetSortedBreakpoints(WithoutFallback(entries), desktopFirst, disableAutoSort);
      Join(", ", MediaQueries(sorted, MediaCondition(desktopFirst)) + [FallbackWidth(entries)])
  }

  // ---------------------------------------------------------------------------
  // Properties of a breakpoint record

  /**
   * A record gives its media queries, each `"(<condition>: <key>) <width>"`,
   * separated by `", "`, and then its fallback width; with no breakpoint left,
   * only the fallback width.
   */
  lemma {:induction false} RecordLayout(entries: seq<Breakpoint>, desktopFirst: bool, disableAutoSort: bool)
    ensures var sorted := GetSortedBreakpoints(WithoutFallback(entries), desktopFirst, disableAutoSort);
            var queries := MediaQueries(sorted, MediaCondition(desktopFirst));
            ComputeSizesValue(Some(SizesRecord(entries)), desktopFirst, disableAutoSort) ==
              if sorted == [] then FallbackWidth(entries) else Join(", ", queries) + ", " + FallbackWidth(entries)
  {
    var sorted := GetSortedBreakpoints(WithoutFallback(entries), desktopFirst, disableAutoSort);
    JoinAppend(", ", MediaQueries(sorted, MediaCondition(desktopFirst)), FallbackWidth(entries));
  }

  /** An empty record gives the default width. */
  lemma EmptyRecord(desktopFirst: bool, disableAutoSort: bool)
    ensures ComputeSizesValue(Some(SizesRecord([])), desktopFirst, disableAutoSort) == DefaultWidth
  {
  }

  /** The breakpoints auto-sort keeps, with their parsed keys, sorted. */
  function AutoSorted(bs: seq<Breakpoint>, desktopFirst: bool): seq<Valued> {
    SortByRank(KeepUsable(WithValues(bs)), desktopFirst)
  }

  /** An entry's multiplicity among the kept, valued entries. */
  lemma {:induction false} AutoSortedMultiset(bs: seq<Breakpoint>, desktopFirst: bool)
    ensures forall d :: multiset(AutoSorted(bs, desktopFirst))[d] ==
                          if Faithful(d) && IsUsable(d) then multiset(bs)[Strip(d)] else 0
  {
    KeepUsableMultiset(WithValues(bs));
    WithValuesMultiset(bs);
  }

  lemma {:induction false} WithValuesMultiset(bs: seq<Breakpoint>)
    ensures forall d :: multiset(WithValues(bs))[d] == if Faithful(d) then multiset(bs)[Strip(d)] else 0
  {
    if bs != [] {
      WithValuesMultiset(bs[1..]);
      assert bs == [bs[0]] + bs[1..];
      assert WithValues(bs) == [WithValue(bs[0])] + WithValues(bs[1..]);
    }
  }

  /** The `fallback` key is never emitted as a breakpoint, whichever strategy is used. */
  lemma FallbackIsNotABreakpoint(entries: seq<Breakpoint>, desktopFirst: bool, disableAutoSort: bool)
    ensures forall b :: b in GetSortedBreakpoints(WithoutFallback(entries), desktopFirst, disableAutoSort) ==>
                          b.condition != FallbackKey
  {
    var bs := WithoutFallback(entries);
    if !disableAutoSort {
      var sorted := AutoSorted(bs, desktopFirst);
      AutoSortedMultiset(bs, desktopFirst);
      forall b | b in StripAll(sorted) ensures b.condition != FallbackKey {
        var i :| 0 <= i < |sorted| && Strip(sorted[i]) == b;
        assert sorted[i] in multiset(sorted);
        assert b in multiset(bs);
      }
    }
  }

  /**
   * With auto-sort on, a breakpoint is emitted exactly when its key parses to
   * a positive number and its width to a non-zero number.
   */
  lemma AutoSortKeepsExactlyUsable(bs: seq<Breakpoint>, desktopFirst: bool, b: Breakpoint)
    ensures b in GetSortedBreakpoints(bs, desktopFirst, false) <==> b in bs && IsUsable(WithValue(b))
  {
    var sorted := AutoSorted(bs, desktopFirst);
    if b in StripAll(sorted) {
      var i :| 0 <= i < |sorted| && Strip(sorted[i]) == b;
      assert sorted[i] in multiset(sorted);
      AutoSortedMember(bs, desktopFirst, sorted[i]);
      assert sorted[i] == WithValue(b);
    }
    if b in bs && IsUsable(WithValue(b)) {
      AutoSortedMember(bs, desktopFirst, WithValue(b));
      var i :| 0 <= i < |sorted| && sorted[i] == WithValue(b);
      assert StripAll(sorted)[i] == b;
    }
  }

  /** An entry is among the auto-sorted ones exactly when it carries its own key, is usable and came from the input. */
  lemma AutoSortedMember(bs: seq<Breakpoint>, desktopFirst: bool, d: Valued)
    ensures d in multiset(AutoSorted(bs, desktopFirst)) <==> Faithful(d) && IsUsable(d) && Strip(d) in bs
  {
    AutoSortedMultiset(bs, desktopFirst);
  }

  /**
   * With auto-sort on, the breakpoints come out by parsed key, units ignored:
   * descending for mobile-first, ascending for desktop-first.
   */
  lemma AutoSortOrder(bs: seq<Breakpoint>, desktopFirst: bool)
    ensures var r := GetSortedBreakpoints(bs, desktopFirst, false);
            forall i, j :: 0 <= i < j < |r| ==>
              if desktopFirst then BreakpointValue(r[i]) <= BreakpointValue(r[j])
              else BreakpointValue(r[i]) >= BreakpointValue(r[j])
  {
    var sorted := AutoSorted(bs, desktopFirst);
    var r := StripAll(sorted);
    forall i, j | 0 <= i < j < |r|
      ensures if desktopFirst then BreakpointValue(r[i]) <= BreakpointValue(r[j])
              else BreakpointValue(r[i]) >= BreakpointValue(r[j])
    {
      SortedKeyAt(bs, desktopFirst, i);
      SortedKeyAt(bs, desktopFirst, j);
      assert Rank(sorted[i], desktopFirst) <= Rank(sorted[j], desktopFirst);
    }
  }

  /** Each auto-sorted breakpoint carries its own parsed key. */
  lemma SortedKeyAt(bs: seq<Breakpoint>, desktopFirst: bool, i: int)
    requires 0 <= i < |AutoSorted(bs, desktopFirst)|
    ensures BreakpointValue(StripAll(AutoSorted(bs, desktopFirst))[i]) == AutoSorted(bs, desktopFirst)[i].value
  {
    var sorted := AutoSorted(bs, desktopFirst);
    AutoSortedMultiset(bs, desktopFirst);
    assert sorted[i] in multiset(sorted);
  }

  /** With auto-sort off, every breakpoint is emitted once, in insertion order, unfiltered. */
  lemma DisabledSortKeepsInsertionOrder(entries: seq<Breakpoint>, desktopFirst: bool)
    ensures GetSortedBreakpoints(WithoutFallback(entries), desktopFirst, true) == WithoutFallback(entries)
  {
  }

  /** The entries of one rank, in order. */
  function OfRank(s: seq<Valued>, k: int, desktopFirst: bool): seq<Valued> {
    if s == [] then []
    else (if Rank(s[0], desktopFirst) == k then [s[0]] else []) + OfRank(s[1..], k, desktopFirst)
  }

  lemma {:induction false} InsertOfRank(d: Valued, s: seq<Valued>, k: int, desktopFirst: bool)
    ensures OfRank(Insert(d, s, desktopFirst), k, desktopFirst) ==
              (if Rank(d, desktopFirst) == k then [d] else []) + OfRank(s, k, desktopFirst)
  {
    if s == [] || Rank(d, desktopFirst) <= Rank(s[0], desktopFirst) {
      assert ([d] + s)[1..] == s;
    } else {
      var tail := Insert(d, s[1..], desktopFirst);
      var mine := if Rank(d, desktopFirst) == k then [d] else [];
      var head := if Rank(s[0], desktopFirst) == k then [s[0]] else [];
      assert OfRank(tail, k, desktopFirst) == mine + OfRank(s[1..], k, desktopFirst) by {
        InsertOfRank(d, s[1..], k, desktopFirst);
      }
      assert Insert(d, s, desktopFirst) == [s[0]] + tail;
      assert OfRank([s[0]] + tail, k, desktopFirst) == head + OfRank(tail, k, desktopFirst) by {
        assert ([s[0]] + tail)[1..] == tail;
      }
      assert head == [] || mine == [];
    }
  }

  /** The sort is stable: entries with equal parsed keys keep their insertion order. */
  lemma {:induction false} SortIsStable(s: seq<Valued>, k: int, desktopFirst: bool)
    ensures OfRank(SortByRank(s, desktopFirst), k, desktopFirst) == OfRank(s, k, desktopFirst)
  {
    if s != [] {
      SortIsStable(s[1..], k, desktopFirst);
      InsertOfRank(s[0], SortByRank(s[1..], desktopFirst), k, desktopFirst);
    }
  }

  /** No two distinct entries in `m` share a parsed key. */
  predicate DistinctValues(m: multiset<Valued>) {
    forall a, b :: a in m && b in m && a.value == b.value ==> a == b
  }

  lemma DistinctValuesOfSmaller(m1: multiset<Valued>, m2: multiset<Valued>)
    requires m1 <= m2 && DistinctValues(m2)
    ensures DistinctValues(m1)
  {
    forall a, b | a in m1 && b in m1 && a.value == b.value ensures a == b {
      assert a in m2 && b in m2;
    }
  }

  lemma SortedTail(s: seq<Valued>, desktopFirst: bool)
    requires s != [] && SortedByRank(s, desktopFirst)
    ensures SortedByRank(s[1..], desktopFirst)
  {
  }

  lemma MultisetOfTail(s: seq<Valued>)
    requires s != []
    ensures multiset(s[1..]) == multiset(s) - multiset{s[0]}
    ensures multiset(s[1..]) <= multiset(s)
  {
    assert s == [s[0]] + s[1..];
  }

  /** The first element of a rank-sorted sequence has the lowest rank among its elements. */
  lemma HeadIsLowest(s: seq<Valued>, x: Valued, desktopFirst: bool)
    requires s != [] && SortedByRank(s, desktopFirst) && x in multiset(s)
    ensures Rank(s[0], desktopFirst) <= Rank(x, desktopFirst)
  {
    var i :| 0 <= i < |s| && s[i] == x;
  }

  /** Two rank-sorted sequences with the same elements and no rank ties are equal. */
  lemma {:induction false} SortedPermutationsAreEqual(s: seq<Valued>, t: seq<Valued>, desktopFirst: bool)
    requires SortedByRank(s, desktopFirst) && SortedByRank(t, desktopFirst)
    requires multiset(s) == multiset(t) && DistinctValues(multiset(s))
    ensures s == t
    decreases |s|
  {
    if s == [] {
      assert multiset(t) == multiset{};
    } else {
      assert s[0] in multiset(s);
      assert t != [];
      assert t[0] in multiset(t);
      HeadIsLowest(t, s[0], desktopFirst);
      HeadIsLowest(s, t[0], desktopFirst);
      assert s[0].value == t[0].value;
      assert s[0] == t[0];
      MultisetOfTail(s);
      MultisetOfTail(t);
      DistinctValuesOfSmaller(multiset(s[1..]), multiset(s));
      SortedTail(s, desktopFirst);
      SortedTail(t, desktopFirst);
      SortedPermutationsAreEqual(s[1..], t[1..], desktopFirst);
    }
  }

  /** Entries of a JavaScript object have distinct keys. */
  predicate DistinctKeys(entries: seq<Breakpoint>) {
    forall i, j :: 0 <= i < j < |entries| ==> entries[i].condition != entries[j].condition
  }

  lemma {:induction false} LookupOfDistinct(entries: seq<Breakpoint>, key: string, v: string)
    requires DistinctKeys(entries) && Breakpoint(key, v) in entries
    ensures Lookup(entries, key) == Some(v)
  {
    if entries[0] != Breakpoint(key, v) {
      assert entries[0].condition != key by {
        var i :| 0 <= i < |entries| && entries[i] == Breakpoint(key, v);
      }
      LookupOfDistinct(entries[1..], key, v);
    }
  }

  lemma {:induction false} SameFallback(e1: seq<Breakpoint>, e2: seq<Breakpoint>)
    requires DistinctKeys(e1) && DistinctKeys(e2) && multiset(e1) == multiset(e2)
    ensures FallbackWidth(e1) == FallbackWidth(e2)
  {
    match Lookup(e1, FallbackKey)
    case Some(f) =>
      assert Breakpoint(FallbackKey, f) in multiset(e2);
      LookupOfDistinct(e2, FallbackKey, f);
    case None =>
      if Lookup(e2, FallbackKey).Some? {
        var f := Lookup(e2, FallbackKey).value;
        assert Breakpoint(FallbackKey, f) in multiset(e1);
        LookupOfDistinct(e1, FallbackKey, f);
      }
  }

  lemma {:induction false} WithoutFallbackMultiset(entries: seq<Breakpoint>)
    ensures forall x :: multiset(WithoutFallback(entries))[x] ==
                          if x.condition != FallbackKey then multiset(entries)[x] else 0
  {
    if entries != [] {
      WithoutFallbackMultiset(entries[1..]);
      assert entries == [entries[0]] + entries[1..];
    }
  }

  lemma WithoutFallbackRespectsPermutation(e1: seq<Breakpoint>, e2: seq<Breakpoint>)
    requires multiset(e1) == multiset(e2)
    ensures multiset(WithoutFallback(e1)) == multiset(WithoutFallback(e2))
  {
    WithoutFallbackMultiset(e1);
    WithoutFallbackMultiset(e2);
    forall x ensures multiset(WithoutFallback(e1))[x] == multiset(WithoutFallback(e2))[x] {
    }
  }

  lemma AutoSortedRespectsPermutation(b1: seq<Breakpoint>, b2: seq<Breakpoint>, desktopFirst: bool)
    requires multiset(b1) == multiset(b2)
    ensures multiset(AutoSorted(b1, desktopFirst)) == multiset(AutoSorted(b2, desktopFirst))
  {
    AutoSortedMultiset(b1, desktopFirst);
    AutoSortedMultiset(b2, desktopFirst);
    forall d ensures multiset(AutoSorted(b1, desktopFirst))[d] == multiset(AutoSorted(b2, desktopFirst))[d] {
    }
  }

  /**
   * With auto-sort on, the result does not depend on the order in which the
   * record's keys were inserted, as long as no two emitted breakpoints share
   * a parsed key.
   */
  lemma {:induction false} AutoSortIgnoresInsertionOrder(e1: seq<Breakpoint>, e2: seq<Breakpoint>, desktopFirst: bool)
    requires DistinctKeys(e1) && DistinctKeys(e2) && multiset(e1) == multiset(e2)
    requires DistinctValues(multiset(AutoSorted(WithoutFallback(e1), desktopFirst)))
    ensures ComputeSizesValue(Some(SizesRecord(e1)), desktopFirst, false) ==
            ComputeSizesValue(Some(SizesRecord(e2)), desktopFirst, false)
  {
    var b1 := WithoutFallback(e1);
    var b2 := WithoutFallback(e2);
    WithoutFallbackRespectsPermutation(e1, e2);
    AutoSortedRespectsPermutation(b1, b2, desktopFirst);
    SortedPermutationsAreEqual(AutoSorted(b1, desktopFirst), AutoSorted(b2, desktopFirst), desktopFirst);
    assert GetSortedBreakpoints(b1, desktopFirst, false) == GetSortedBreakpoints(b2, desktopFirst, false);
    SameFallback(e1, e2);
  }
}
