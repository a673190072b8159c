/** The severity table of the widget (`levelAttributes`) and the lookup over
    it (`getLevelAttributes`): keep the entries whose threshold is strictly
    below the AQI, sort them by descending threshold, take the first.

    An entry is identified by its position in the table: the JavaScript code
    returns a reference to the shared entry object, and a position is what
    tells the entries apart here. */
module Levels {
  import opened JsBuiltins
  import opened Aqi

  /** One entry of `levelAttributes`; `level` is the property that
      `calculateLevel` adds to the entry it selects (None: not set yet). */
  datatype LevelAttributes = LevelAttributes(
    threshold: int,
    labelText: string,
    startColor: string,
    endColor: string,
    textColor: string,
    level: Option<int>)

  /** The table as the script starts with it, highest threshold first. */
  const InitialLevelAttributes: seq<LevelAttributes> := [
    LevelAttributes(300, "Hazardous", "000000", "000000", "ffffff", None),
    LevelAttributes(200, "Very Unhealthy", "1a202c", "2d3748", "ffffff", None),
    LevelAttributes(150, "Unhealthy", "718096", "a0aec0", "000000", None),
    LevelAttributes(100, "Unhealthy (S.G.)", "cbd5e0", "e2e8f0", "000000", None),
    LevelAttributes(50, "Moderate", "edf2f7", "f7fafc", "000000", None),
    LevelAttributes(-20, "Good", "ffffff", "ffffff", "718096", None)
  ]

  function Thresholds(attributes: seq<LevelAttributes>): (ths: seq<int>)
    ensures |ths| == |attributes|
    ensures forall i :: 0 <= i < |attributes| ==> ths[i] == attributes[i].threshold
  {
    seq(|attributes|, i requires 0 <= i < |attributes| => attributes[i].threshold)
  }

  predicate InRange(l: seq<nat>, n: nat) {
    forall p :: 0 <= p < |l| ==> l[p] < n
  }

  predicate Increasing(l: seq<nat>) {
    forall p, q :: 0 <= p < q < |l| ==> l[p] < l[q]
  }

  // ---------------------------------------------------------------- filter

  /** `attributes.filter((c) => level > c.threshold)`, over the positions
      from `from` on: the qualifying positions, in table order. */
  function FilterFrom(level: int, ths: seq<int>, from: nat): (l: seq<nat>)
    requires from <= |ths|
    ensures InRange(l, |ths|) && Increasing(l)
    ensures forall p :: 0 <= p < |l| ==> from <= l[p] && level > ths[l[p]]
    ensures forall i :: from <= i < |ths| && level > ths[i] ==> i in l
    decreases |ths| - from
  {
    if from == |ths| then []
    else if level > ths[from] then [from] + FilterFrom(level, ths, from + 1)
    else FilterFrom(level, ths, from + 1)
  }

  // ---------------------------------------------------------------- sort

  /** The comparator `(a, b) => b.threshold - a.threshold`. */
  function Compare(ths: seq<int>, a: nat, b: nat): (r: int)
    requires a < |ths| && b < |ths|
    ensures r <= 0 <==> ths[a] >= ths[b]
    ensures r == 0 <==> ths[a] == ths[b]
  {
    ths[b] - ths[a]
  }

  /** Sorted by descending threshold, and, among equal thresholds, in table
      order: what a stable sort with `Compare` produces. */
  ghost predicate SortedDescending(l: seq<nat>, ths: seq<int>)
    requires InRange(l, |ths|)
  {
    forall p, q :: 0 <= p < q < |l| ==>
      Compare(ths, l[p], l[q]) <= 0 && (ths[l[p]] == ths[l[q]] ==> l[p] < l[q])
  }

  /** Inserts x, which precedes every element of s in the input, into s:
      x stays in front of the first element that `Compare` does not put
      before it, which keeps the sort stable. */
  function Insert(x: nat, s: seq<nat>, ths: seq<int>): (r: seq<nat>)
    requires x < |ths| && InRange(s, |ths|)
    ensures InRange(r, |ths|)
    ensures multiset(r) == multiset{x} + multiset(s)
  {
    if s == [] || Compare(ths, x, s[0]) <= 0 then [x] + s
    else
      assert s == [s[0]] + s[1..];
      [s[0]] + Insert(x, s[1..], ths)
  }

  /** `Array.prototype.sort` with `Compare`, which is stable (section
      23.1.3.30 of ECMA-262 since 2019), as an insertion sort. */
  function Sort(l: seq<nat>, ths: seq<int>): (r: seq<nat>)
    requires InRange(l, |ths|)
    ensures InRange(r, |ths|)
    ensures multiset(r) == multiset(l)
  {
    if l == [] then []
    else
      assert l == [l[0]] + l[1..];
      Insert(l[0], Sort(l[1..], ths), ths)
  }

  /** Dropping the first element keeps the order. */
  lemma TailSorted(s: seq<nat>, ths: seq<int>)
    requires s != [] && InRange(s, |ths|) && SortedDescending(s, ths)
    ensures InRange(s[1..], |ths|) && SortedDescending(s[1..], ths)
  {
    forall p, q | 0 <= p < q < |s| - 1
      ensures Compare(ths, s[1..][p], s[1..][q]) <= 0 && (ths[s[1..][p]] == ths[s[1..][q]] ==> s[1..][p] < s[1..][q])
    {
      assert s[1..][p] == s[p + 1] && s[1..][q] == s[q + 1];
    }
  }

  /** An element that belongs before every element of a sorted sequence
      can be put in front of it. */
  lemma ConsSorted(a: nat, s: seq<nat>, ths: seq<int>)
    requires a < |ths| && InRange(s, |ths|) && SortedDescending(s, ths)
    requires forall q :: 0 <= q < |s| ==> Compare(ths, a, s[q]) <= 0 && (ths[a] == ths[s[q]] ==> a < s[q])
    ensures InRange([a] + s, |ths|) && SortedDescending([a] + s, ths)
  {
    var r := [a] + s;
    assert forall q :: 1 <= q < |r| ==> r[q] == s[q - 1];
  }

  lemma {:induction false} InsertSorted(x: nat, s: seq<nat>, ths: seq<int>)
    requires x < |ths| && InRange(s, |ths|)
    requires SortedDescending(s, ths)
    requires forall p :: 0 <= p < |s| ==> x < s[p]
    ensures SortedDescending(Insert(x, s, ths), ths)
  {
    if s == [] || Compare(ths, x, s[0]) <= 0 {
      forall q | 0 <= q < |s|
        ensures Compare(ths, x, s[q]) <= 0 && (ths[x] == ths[s[q]] ==> x < s[q])
      {
        if q > 0 {
          assert Compare(ths, s[0], s[q]) <= 0;
        }
      }
      ConsSorted(x, s, ths);
    } else {
      TailSorted(s, ths);
      var t := Insert(x, s[1..], ths);
      InsertSorted(x, s[1..], ths);
      forall q | 0 <= q < |t|
        ensures Compare(ths, s[0], t[q]) <= 0 && (ths[s[0]] == ths[t[q]] ==> s[0] < t[q])
      {
        assert t[q] in multiset(t);
        if t[q] != x {
          assert t[q] in multiset(s[1..]);
          var i :| 0 <= i < |s[1..]| && s[1..][i] == t[q];
          assert s[i + 1] == t[q];
        }
      }
      ConsSorted(s[0], t, ths);
    }
  }

  /** Sorting positions given in table order yields SortedDescending. */
  lemma {:induction false} SortSorted(l: seq<nat>, ths: seq<int>)
    requires InRange(l, |ths|) && Increasing(l)
    ensures SortedDescending(Sort(l, ths), ths)
  {
    if l != [] {
      var rest := Sort(l[1..], ths);
      SortSorted(l[1..], ths);
      forall p | 0 <= p < |rest| ensures l[0] < rest[p] {
        assert rest[p] in multiset(l[1..]);
      }
      InsertSorted(l[0], rest, ths);
    }
  }

  // ---------------------------------------------------------------- getLevelAttributes

  /** Position k holds the greatest threshold strictly below `level`. */
  ghost predicate HighestBelow(level: int, attributes: seq<LevelAttributes>, k: nat) {
    && k < |attributes| && level > attributes[k].threshold
    && forall i :: 0 <= i < |attributes| && level > attributes[i].threshold ==>
         attributes[i].threshold <= attributes[k].threshold
  }

  /** Every qualifying position survives the filter and the sort. */
  lemma QualifyingIsSorted(level: int, ths: seq<int>, sorted: seq<nat>, i: nat)
    requires sorted == Sort(FilterFrom(level, ths, 0), ths)
    requires i < |ths| && level > ths[i]
    ensures exists p :: 0 <= p < |sorted| && sorted[p] == i
  {
    var applicable := FilterFrom(level, ths, 0);
    assert i in applicable;
    assert i in multiset(applicable);
    assert i in multiset(sorted);
    assert i in sorted;
  }

  /** The first position of the sorted filter qualifies. */
  lemma HeadQualifies(level: int, ths: seq<int>, sorted: seq<nat>)
    requires sorted == Sort(FilterFrom(level, ths, 0), ths) && sorted != []
    ensures sorted[0] < |ths| && level > ths[sorted[0]]
  {
    var applicable := FilterFrom(level, ths, 0);
    assert sorted[0] in multiset(applicable);
    assert sorted[0] in applicable;
  }

  /** No qualifying position beats the first one of the stably sorted
      filter, and one before it in the table has a smaller threshold. */
  lemma HeadIsHighest(level: int, ths: seq<int>, sorted: seq<nat>, i: nat)
    requires sorted == Sort(FilterFrom(level, ths, 0), ths) && sorted != []
    requires i < |ths| && level > ths[i]
    ensures ths[i] <= ths[sorted[0]] && (i < sorted[0] ==> ths[i] < ths[sorted[0]])
  {
    SortSorted(FilterFrom(level, ths, 0), ths);
    QualifyingIsSorted(level, ths, sorted, i);
    var p :| 0 <= p < |sorted| && sorted[p] == i;
    if p > 0 {
      assert Compare(ths, sorted[0], sorted[p]) <= 0;
    }
  }

  /** The first position of the stably sorted filter holds the greatest
      qualifying threshold, and the earliest one among equal thresholds. */
  lemma SortedHeadIsHighest(level: int, ths: seq<int>, sorted: seq<nat>)
    requires sorted == Sort(FilterFrom(level, ths, 0), ths)
    ensures sorted == [] <==> forall i :: 0 <= i < |ths| ==> level <= ths[i]
    ensures sorted != [] ==> sorted[0] < |ths| && level > ths[sorted[0]]
    ensures sorted != [] ==> forall i :: 0 <= i < |ths| && level > ths[i] ==>
      ths[i] <= ths[sorted[0]] && (i < sorted[0] ==> ths[i] < ths[sorted[0]])
  {
    forall i: nat | i < |ths| && level > ths[i]
      ensures exists p :: 0 <= p < |sorted| && sorted[p] == i
    {
      QualifyingIsSorted(level, ths, sorted, i);
    }
    if sorted != [] {
      HeadQualifies(level, ths, sorted);
      forall i: nat | i < |ths| && level > ths[i]
        ensures ths[i] <= ths[sorted[0]] && (i < sorted[0] ==> ths[i] < ths[sorted[0]])
      {
        HeadIsHighest(level, ths, sorted, i);
      }
    }
  }

  /** The facts of SortedHeadIsHighest, read on the entries themselves. */
  lemma HeadOfEntries(level: int, attributes: seq<LevelAttributes>, ths: seq<int>, sorted: seq<nat>)
    requires ths == Thresholds(attributes)
    requires sorted == [] <==> forall i :: 0 <= i < |ths| ==> level <= ths[i]
    requires sorted != [] ==> sorted[0] < |ths| && level > ths[sorted[0]]
    requires sorted != [] ==> forall i :: 0 <= i < |ths| && level > ths[i] ==>
      ths[i] <= ths[sorted[0]] && (i < sorted[0] ==> ths[i] < ths[sorted[0]])
    ensures sorted == [] <==> forall i :: 0 <= i < |attributes| ==> level <= attributes[i].threshold
    ensures sorted != [] ==> HighestBelow(level, attributes, sorted[0])
    ensures sorted != [] ==> forall i :: 0 <= i < sorted[0] && level > attributes[i].threshold ==>
      attributes[i].threshold < attributes[sorted[0]].threshold
  {
  }

  /** `getLevelAttributes(level, attributes)`: the position of the entry it
      returns, or None where it returns `undefined` (nothing qualifies). */
  function GetLevelAttributes(level: int, attributes: seq<LevelAttributes>): (r: Option<nat>)
    ensures r.None? <==> forall i :: 0 <= i < |attributes| ==> level <= attributes[i].threshold
    ensures r.Some? ==> HighestBelow(level, attributes, r.value)
    ensures r.Some? ==> forall i :: 0 <= i < r.value && level > attributes[i].threshold ==>
      attributes[i].threshold < attributes[r.value].threshold
  {
    var ths := Thresholds(attributes);
    var sorted := Sort(FilterFrom(level, ths, 0), ths);
    SortedHeadIsHighest(level, ths, sorted);
    HeadOfEntries(level, attributes, ths, sorted);
    if sorted == [] then None else Some(sorted[0])
  }

  /** Distinct thresholds leave exactly one entry holding the greatest
      threshold strictly below a given level. */
  lemma HighestBelowUnique(level: int, attributes: seq<LevelAttributes>, k: nat, j: nat)
    requires forall a, b :: 0 <= a < b < |attributes| ==> attributes[a].threshold != attributes[b].threshold
    requires HighestBelow(level, attributes, k) && HighestBelow(level, attributes, j)
    ensures k == j
  {
  }

  /** The bands of the script's table written out: the position of the
      entry for an AQI level, highest band first. */
  function Band(level: int): (r: Option<nat>)
    ensures r.Some? ==> r.value < |InitialLevelAttributes|
  {
    if level > 300 then Some(0)
    else if level > 200 then Some(1)
    else if level > 150 then Some(2)
    else if level > 100 then Some(3)
    else if level > 50 then Some(4)
    else if level > -20 then Some(5)
    else None
  }

  lemma InitialThresholdsDistinct()
    ensures forall a, b :: 0 <= a < b < |InitialLevelAttributes| ==>
      InitialLevelAttributes[a].threshold != InitialLevelAttributes[b].threshold
  {
  }

  /** With distinct thresholds the lookup is determined by HighestBelow. */
  lemma LookupIsHighestBelow(level: int, attributes: seq<LevelAttributes>, k: nat)
    requires forall a, b :: 0 <= a < b < |attributes| ==> attributes[a].threshold != attributes[b].threshold
    requires HighestBelow(level, attributes, k)
    ensures GetLevelAttributes(level, attributes) == Some(k)
  {
    var r := GetLevelAttributes(level, attributes);
    HighestBelowUnique(level, attributes, k, r.value);
  }

  /** On the script's table the lookup follows the bands: it is defined
      exactly for levels above -20, and a threshold belongs to the band
      below it, since the comparison is strict. */
  lemma LookupFollowsBands(level: int)
    ensures GetLevelAttributes(level, InitialLevelAttributes) == Band(level)
  {
    var t := InitialLevelAttributes;
    InitialThresholdsDistinct();
    if level <= -20 {
      assert forall i :: 0 <= i < |t| ==> level <= t[i].threshold;
    } else {
      var k := Band(level).value;
      assert HighestBelow(level, t, k);
      LookupIsHighestBelow(level, t, k);
    }
  }

  /** For every level above -20 exactly one entry holds the greatest
      threshold strictly below it, and that is the entry looked up. */
  lemma LevelLookupDefined(level: int)
    ensures GetLevelAttributes(level, InitialLevelAttributes).Some? <==> level > -20
    ensures level > -20 ==>
      (exists k :: HighestBelow(level, InitialLevelAttributes, k)) &&
      forall k, j :: HighestBelow(level, InitialLevelAttributes, k) && HighestBelow(level, InitialLevelAttributes, j) ==> k == j
  {
    LookupFollowsBands(level);
    InitialThresholdsDistinct();
    if level > -20 {
      assert HighestBelow(level, InitialLevelAttributes, Band(level).value);
      forall k, j | HighestBelow(level, InitialLevelAttributes, k) && HighestBelow(level, InitialLevelAttributes, j)
        ensures k == j
      {
        HighestBelowUnique(level, InitialLevelAttributes, k, j);
      }
    }
  }

  /** The label the widget shows for each range of AQI levels, written
      out range by range. */
  function RangeLabel(level: int): string {
    if level <= 50 then "Good"
    else if level <= 100 then "Moderate"
    else if level <= 150 then "Unhealthy (S.G.)"
    else if level <= 200 then "Unhealthy"
    else if level <= 300 then "Very Unhealthy"
    else "Hazardous"
  }

  lemma BandLabel(level: int)
    requires level > -20
    ensures Band(level).Some?
    ensures InitialLevelAttributes[Band(level).value].labelText == RangeLabel(level)
  {
  }

  /** The label chosen for each AQI range. */
  lemma LevelLabels(level: int)
    requires level > -20
    ensures GetLevelAttributes(level, InitialLevelAttributes).Some?
    ensures InitialLevelAttributes[GetLevelAttributes(level, InitialLevelAttributes).value].labelText
         == RangeLabel(level)
  {
    LookupFollowsBands(level);
    BandLabel(level);
  }

  /** At each threshold the lookup picks the entry below it (none below
      -20), and one above the threshold it picks the threshold's own entry:
      50 is "Good", 51 and 100 are "Moderate", 101 is "Unhealthy (S.G.)". */
  lemma LevelBoundaries()
    ensures GetLevelAttributes(-20, InitialLevelAttributes) == None
    ensures GetLevelAttributes(-19, InitialLevelAttributes) == Some(5)
    ensures GetLevelAttributes(50, InitialLevelAttributes) == Some(5)
    ensures GetLevelAttributes(51, InitialLevelAttributes) == Some(4)
    ensures GetLevelAttributes(100, InitialLevelAttributes) == Some(4)
    ensures GetLevelAttributes(101, InitialLevelAttributes) == Some(3)
    ensures GetLevelAttributes(150, InitialLevelAttributes) == Some(3)
    ensures GetLevelAttributes(151, InitialLevelAttributes) == Some(2)
    ensures GetLevelAttributes(200, InitialLevelAttributes) == Some(2)
    ensures GetLevelAttributes(201, InitialLevelAttributes) == Some(1)
    ensures GetLevelAttributes(300, InitialLevelAttributes) == Some(1)
    ensures GetLevelAttributes(301, InitialLevelAttributes) == Some(0)
  {
    LookupFollowsBands(-20);
    LookupFollowsBands(-19);
    LookupFollowsBands(50);
    LookupFollowsBands(51);
    LookupFollowsBands(100);
    LookupFollowsBands(101);
    LookupFollowsBands(150);
    LookupFollowsBands(151);
    LookupFollowsBands(200);
    LookupFollowsBands(201);
    LookupFollowsBands(300);
    LookupFollowsBands(301);
  }

  // ---------------------------------------------------------------- calculateLevel's coercion

  /** `parseInt(aqi, 10) || 0`: parseInt first turns its argument into
      text, which reads back as the AQI; "-" reads as NaN and becomes 0. */
  function LevelNumber(aqi: AqiResult): (level: int)
    ensures level == if aqi.Aqi? then aqi.index else 0
  {
    OrZero(ParseInt(AqiText(aqi)))
  }

  /** An unavailable reading is shown with the lowest severity. */
  lemma UnavailableIsGood()
    ensures LevelNumber(Unavailable) == 0
    ensures GetLevelAttributes(LevelNumber(Unavailable), InitialLevelAttributes) == Some(5)
    ensures InitialLevelAttributes[5].labelText == "Good"
  {
    LookupFollowsBands(0);
  }
}
