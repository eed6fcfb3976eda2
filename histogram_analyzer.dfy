/** The histogram analyser: the binner that turns one column's numeric
    values into `binCount` equal-width bins, the drag-to-zoom state over
    bin indices, and the lookups of the selected column and its backend
    statistics. Sample values are reals, so the width arithmetic and
    `Math.floor` are exact. */
module HistogramAnalyzer {
  import opened Basics
  import opened Dataset

  /** One bar of the chart: its position, its interval, how many values it
      holds and which. */
  datatype Bin = Bin(binIndex: nat, binStart: real, binEnd: real, count: nat, values: seq<real>)

  // ---------------------------------------------------------------- columns and statistics

  /** The initial selection: `columns[0] || ""`. */
  function InitialColumn(columns: seq<string>): (r: string)
    ensures columns != [] ==> r == columns[0]
    ensures columns == [] ==> r == ""
  {
    if columns != [] then columns[0] else ""
  }

  /** The selected-column effect: a selection missing from a non-empty
      column list is replaced by the first column; otherwise it stays. */
  function ReconcileColumn(columns: seq<string>, selected: string): (r: string)
    ensures columns != [] ==> r in columns
    ensures selected in columns || columns == [] ==> r == selected
    ensures r != selected ==> r == columns[0]
  {
    if columns != [] && selected !in columns then columns[0] else selected
  }

  /** The statistics tab: the backend record of the selected column, or
      nothing when there are no statistics, no selection, or no record. */
  function ColumnStatistics(stats: Option<map<string, Stats>>, column: string): (r: Option<Stats>)
    ensures r.Some? <==> stats.Some? && column != "" && column in stats.value
    ensures r.Some? ==> r.value == stats.value[column]
  {
    if stats.None? || column == "" || column !in stats.value then None else Some(stats.value[column])
  }

  // ---------------------------------------------------------------- extremes

  predicate IsMin(m: real, s: seq<real>)
  {
    m in s && forall k :: 0 <= k < |s| ==> m <= s[k]
  }

  predicate IsMax(m: real, s: seq<real>)
  {
    m in s && forall k :: 0 <= k < |s| ==> s[k] <= m
  }

  /** `Math.min(...s)`. */
  function SeqMin(s: seq<real>): (m: real)
    requires s != []
    ensures IsMin(m, s)
  {
    if |s| == 1 then s[0]
    else
      var m := SeqMin(s[1..]);
      assert forall k :: 1 <= k < |s| ==> s[k] == s[1..][k - 1];
      if s[0] <= m then s[0] else m
  }

  /** `Math.max(...s)`. */
  function SeqMax(s: seq<real>): (m: real)
    requires s != []
    ensures IsMax(m, s)
  {
    if |s| == 1 then s[0]
    else
      var m := SeqMax(s[1..]);
      assert forall k :: 1 <= k < |s| ==> s[k] == s[1..][k - 1];
      if s[0] >= m then s[0] else m
  }

  // ---------------------------------------------------------------- binning

  /** `(max - min) / binCount || 1`: the quotient, or 1 when it is zero. */
  function BinWidth(lo: real, hi: real, binCount: nat): (w: real)
    requires lo <= hi && binCount > 0
    ensures w > 0.0
    ensures hi == lo ==> w == 1.0
    ensures hi > lo ==> w == (hi - lo) / (binCount as real)
  {
    var q := (hi - lo) / (binCount as real);
    if q == 0.0 then 1.0 else q
  }

  /** `Math.min(Math.floor((v - min) / width), binCount - 1)`. */
  function BinIndex(v: real, lo: real, w: real, binCount: nat): (i: int)
    requires w > 0.0 && binCount > 0
    ensures i <= binCount - 1
    ensures v >= lo ==> 0 <= i
  {
    QuotientFacts(v - lo, w);
    var f := ((v - lo) / w).Floor;
    if f < binCount - 1 then f else binCount - 1
  }

  /** Division by a positive width undoes multiplication and keeps signs. */
  lemma QuotientFacts(a: real, w: real)
    requires w > 0.0
    ensures (a / w) * w == a
    ensures a >= 0.0 ==> a / w >= 0.0
  {
  }

  lemma MulLe(x: real, y: real, w: real)
    requires w > 0.0 && x <= y
    ensures x * w <= y * w
  {
  }

  lemma MulLt(x: real, y: real, w: real)
    requires w > 0.0 && x < y
    ensures x * w < y * w
  {
  }

  /** `binCount` widths of `(hi - lo) / binCount` span exactly `hi - lo`. */
  lemma CountTimesWidth(d: real, binCount: nat)
    requires binCount > 0
    ensures (binCount as real) * (d / (binCount as real)) == d
  {
  }

  /** Where bin `i` starts: `min + i * binWidth`; bin `i` ends where bin
      `i + 1` starts. */
  function Start(lo: real, w: real, i: nat): real
  {
    lo + (i as real) * w
  }

  lemma StartMono(lo: real, w: real, i: nat, j: nat)
    requires w > 0.0 && i < j
    ensures Start(lo, w, i) < Start(lo, w, j)
  {
  }

  /** Bin `i` before any value is added. */
  function EmptyBin(lo: real, w: real, i: nat): (b: Bin)
    ensures b.binIndex == i && b.count == 0 && b.values == []
    ensures b.binStart == Start(lo, w, i) && b.binEnd == Start(lo, w, i + 1)
  {
    Bin(i, Start(lo, w, i), Start(lo, w, i + 1), 0, [])
  }

  /** Bin `i` of the values `vs`. */
  function BinOf(vs: seq<real>, lo: real, w: real, binCount: nat, i: nat): (b: Bin)
    requires w > 0.0 && binCount > 0
  {
    var m := Members(vs, lo, w, binCount, i);
    Bin(i, Start(lo, w, i), Start(lo, w, i + 1), |m|, m)
  }

  /** The values of `vs` that land in bin `i`, in order. */
  function Members(vs: seq<real>, lo: real, w: real, binCount: nat, i: int): seq<real>
    requires w > 0.0 && binCount > 0
  {
    if vs == [] then []
    else
      var last := vs[|vs| - 1];
      Members(vs[..|vs| - 1], lo, w, binCount, i) + (if BinIndex(last, lo, w, binCount) == i then [last] else [])
  }

  /** A bin collects exactly the values whose clamped index is its position. */
  lemma {:induction false} MembersAreThoseOfTheBin(vs: seq<real>, lo: real, w: real, binCount: nat, i: int)
    requires w > 0.0 && binCount > 0
    ensures forall k :: 0 <= k < |Members(vs, lo, w, binCount, i)| ==>
              Members(vs, lo, w, binCount, i)[k] in vs && BinIndex(Members(vs, lo, w, binCount, i)[k], lo, w, binCount) == i
    ensures forall k :: 0 <= k < |vs| && BinIndex(vs[k], lo, w, binCount) == i ==> vs[k] in Members(vs, lo, w, binCount, i)
  {
    if vs != [] {
      var init, last := vs[..|vs| - 1], vs[|vs| - 1];
      MembersAreThoseOfTheBin(init, lo, w, binCount, i);
      assert vs == init + [last];
      assert forall k :: 0 <= k < |init| ==> init[k] == vs[k];
    }
  }

  /** Adding one value to the data adds it to the end of its own bin only. */
  lemma BinOfSnoc(vs: seq<real>, v: real, lo: real, w: real, binCount: nat, i: nat)
    requires w > 0.0 && binCount > 0
    ensures BinOf(vs + [v], lo, w, binCount, i) ==
            if BinIndex(v, lo, w, binCount) == i
            then BinOf(vs, lo, w, binCount, i).(count := BinOf(vs, lo, w, binCount, i).count + 1,
                                                values := BinOf(vs, lo, w, binCount, i).values + [v])
            else BinOf(vs, lo, w, binCount, i)
  {
    assert (vs + [v])[..|vs|] == vs;
  }

  function Width(values: seq<real>, binCount: nat): (w: real)
    requires values != [] && binCount > 0
    ensures w > 0.0
  {
    BinWidth(SeqMin(values), SeqMax(values), binCount)
  }

  /** The bins of `values`: none for no values, otherwise `binCount` bins
      of equal width starting at the minimum, each holding the values whose
      clamped index is its position. */
  function Histogram(values: seq<real>, binCount: nat): seq<Bin>
    requires binCount > 0
  {
    if values == [] then []
    else
      var lo := SeqMin(values);
      var w := Width(values, binCount);
      seq(binCount, i requires 0 <= i < binCount => BinOf(values, lo, w, binCount, i))
  }

  /** The binning loop: allocate `binCount` empty bins, then add each value,
      in order, to the bin its clamped index names. */
  method Tally(values: seq<real>, lo: real, w: real, binCount: nat) returns (bins: seq<Bin>)
    requires w > 0.0 && binCount > 0
    requires forall k :: 0 <= k < |values| ==> lo <= values[k]
    ensures |bins| == binCount
    ensures forall i :: 0 <= i < binCount ==> bins[i] == BinOf(values, lo, w, binCount, i)
  {
    var arr := new Bin[binCount](i requires 0 <= i < binCount => EmptyBin(lo, w, i));
    assert values[..0] == [];
    var k := 0;
    while k < |values|
      invariant 0 <= k <= |values|
      invariant forall i :: 0 <= i < binCount ==> arr[i] == BinOf(values[..k], lo, w, binCount, i)
    {
      var v := values[k];
      var idx := BinIndex(v, lo, w, binCount);
      arr[idx] := arr[idx].(count := arr[idx].count + 1, values := arr[idx].values + [v]);
      assert values[..k + 1] == values[..k] + [v];
      forall i | 0 <= i < binCount
        ensures arr[i] == BinOf(values[..k + 1], lo, w, binCount, i)
      {
        BinOfSnoc(values[..k], v, lo, w, binCount, i);
      }
      k := k + 1;
    }
    assert values[..k] == values;
    bins := arr[..];
  }

  /** `histogramData`: with no selected column or no numeric value, no
      bins; otherwise exactly `binCount` bins, the i-th with index i, as
      `Histogram` defines them. */
  method ComputeHistogram(rows: seq<Row>, column: string, binCount: nat) returns (bins: seq<Bin>)
    requires binCount > 0
    ensures column == "" || NumericValues(rows, column) == [] ==> bins == []
    ensures column != "" && NumericValues(rows, column) != [] ==>
              && |bins| == binCount
              && (forall i :: 0 <= i < binCount ==> bins[i].binIndex == i)
              && bins == Histogram(NumericValues(rows, column), binCount)
  {
    if column == "" {
      return [];
    }
    var values := NumericValues(rows, column);
    if |values| == 0 {
      return [];
    }
    var lo := SeqMin(values);
    var hi := SeqMax(values);
    var w := BinWidth(lo, hi, binCount);
    bins := Tally(values, lo, w, binCount);
    assert bins == Histogram(values, binCount);
  }

  // ---------------------------------------------------------------- properties of the bins

  function SumCounts(bins: seq<Bin>): nat
  {
    if bins == [] then 0 else SumCounts(bins[..|bins| - 1]) + bins[|bins| - 1].count
  }

  /** Total number of members of bins `0 .. n-1`. */
  function MemberTotal(vs: seq<real>, lo: real, w: real, binCount: nat, n: nat): nat
    requires w > 0.0 && binCount > 0
  {
    if n == 0 then 0 else MemberTotal(vs, lo, w, binCount, n - 1) + |Members(vs, lo, w, binCount, n - 1)|
  }

  /** Appending a value appends it to its own bin's members only. */
  lemma MembersSnoc(vs: seq<real>, v: real, lo: real, w: real, binCount: nat, i: int)
    requires w > 0.0 && binCount > 0
    ensures Members(vs + [v], lo, w, binCount, i) ==
            Members(vs, lo, w, binCount, i) + (if BinIndex(v, lo, w, binCount) == i then [v] else [])
  {
    assert (vs + [v])[..|vs|] == vs;
  }

  lemma {:induction false} MemberTotalSnoc(vs: seq<real>, v: real, lo: real, w: real, binCount: nat, n: nat)
    requires w > 0.0 && binCount > 0
    ensures MemberTotal(vs + [v], lo, w, binCount, n) ==
            MemberTotal(vs, lo, w, binCount, n) + (if 0 <= BinIndex(v, lo, w, binCount) < n then 1 else 0)
  {
    if n > 0 {
      MemberTotalSnoc(vs, v, lo, w, binCount, n - 1);
      MembersSnoc(vs, v, lo, w, binCount, n - 1);
    }
  }

  lemma {:induction false} MemberTotalAll(vs: seq<real>, lo: real, w: real, binCount: nat)
    requires w > 0.0 && binCount > 0
    requires forall k :: 0 <= k < |vs| ==> lo <= vs[k]
    ensures MemberTotal(vs, lo, w, binCount, binCount) == |vs|
  {
    if vs == [] {
      MemberTotalEmpty(lo, w, binCount, binCount);
    } else {
      var init, last := vs[..|vs| - 1], vs[|vs| - 1];
      assert init + [last] == vs;
      MemberTotalAll(init, lo, w, binCount);
      MemberTotalSnoc(init, last, lo, w, binCount, binCount);
    }
  }

  lemma {:induction false} MemberTotalEmpty(lo: real, w: real, binCount: nat, n: nat)
    requires w > 0.0 && binCount > 0
    ensures MemberTotal([], lo, w, binCount, n) == 0
  {
    if n > 0 {
      MemberTotalEmpty(lo, w, binCount, n - 1);
    }
  }

  lemma {:induction false} SumCountsPrefix(bins: seq<Bin>, vs: seq<real>, lo: real, w: real, binCount: nat, n: nat)
    requires w > 0.0 && binCount > 0 && n <= |bins|
    requires forall i :: 0 <= i < n ==> bins[i].count == |Members(vs, lo, w, binCount, i)|
    ensures SumCounts(bins[..n]) == MemberTotal(vs, lo, w, binCount, n)
  {
    if n > 0 {
      SumCountsPrefix(bins, vs, lo, w, binCount, n - 1);
      assert bins[..n][..n - 1] == bins[..n - 1];
    }
  }

  /** Every numeric value lands in exactly one bin: the counts add up to
      the number of values, and each bin's count is its number of values. */
  lemma CountsSumToValues(values: seq<real>, binCount: nat)
    requires binCount > 0
    ensures SumCounts(Histogram(values, binCount)) == |values|
    ensures forall i :: 0 <= i < |Histogram(values, binCount)| ==>
              Histogram(values, binCount)[i].count == |Histogram(values, binCount)[i].values|
  {
    if values != [] {
      var bins := Histogram(values, binCount);
      var lo, w := SeqMin(values), Width(values, binCount);
      forall i | 0 <= i < binCount ensures bins[i] == BinOf(values, lo, w, binCount, i) {
        HistogramBin(values, binCount, i);
      }
      BinTotals(bins, values, lo, w, binCount);
    }
  }

  /** Bins that are the binner's bins of `vs` hold `|vs|` values in all. */
  lemma BinTotals(bins: seq<Bin>, vs: seq<real>, lo: real, w: real, binCount: nat)
    requires w > 0.0 && binCount > 0 && |bins| == binCount
    requires forall k :: 0 <= k < |vs| ==> lo <= vs[k]
    requires forall i :: 0 <= i < binCount ==> bins[i] == BinOf(vs, lo, w, binCount, i)
    ensures SumCounts(bins) == |vs|
  {
    SumCountsPrefix(bins, vs, lo, w, binCount, binCount);
    assert bins[..binCount] == bins;
    MemberTotalAll(vs, lo, w, binCount);
  }

  /** Bin `i` of the histogram, in terms of the minimum and the width. */
  lemma HistogramBin(values: seq<real>, binCount: nat, i: nat)
    requires values != [] && binCount > 0 && i < binCount
    ensures |Histogram(values, binCount)| == binCount
    ensures Histogram(values, binCount)[i] == BinOf(values, SeqMin(values), Width(values, binCount), binCount, i)
  {
  }

  /** With distinct extremes, `binCount` widths from the minimum reach the maximum. */
  lemma LastEnd(lo: real, hi: real, binCount: nat)
    requires lo < hi && binCount > 0
    ensures Start(lo, BinWidth(lo, hi, binCount), binCount) == hi
  {
    CountTimesWidth(hi - lo, binCount);
  }

  /** The interval of bin `i` of the histogram. */
  lemma BinBounds(values: seq<real>, binCount: nat, i: nat)
    requires values != [] && binCount > 0 && i < binCount
    ensures |Histogram(values, binCount)| == binCount
    ensures Histogram(values, binCount)[i].binStart == Start(SeqMin(values), Width(values, binCount), i)
    ensures Histogram(values, binCount)[i].binEnd == Start(SeqMin(values), Width(values, binCount), i + 1)
  {
    HistogramBin(values, binCount, i);
  }

  /** The bins tile the value range: each starts where the previous one
      ends, the first starts at the minimum, every bin has positive width,
      and when the values are not all equal the last ends at the maximum. */
  lemma BinsAreContiguous(values: seq<real>, binCount: nat)
    requires values != [] && binCount > 0
    ensures |Histogram(values, binCount)| == binCount
    ensures forall i :: 0 <= i < binCount ==>
              Histogram(values, binCount)[i].binStart < Histogram(values, binCount)[i].binEnd
    ensures forall i :: 0 <= i < binCount - 1 ==>
              Histogram(values, binCount)[i].binEnd == Histogram(values, binCount)[i + 1].binStart
    ensures Histogram(values, binCount)[0].binStart == SeqMin(values)
    ensures SeqMin(values) < SeqMax(values) ==> Histogram(values, binCount)[binCount - 1].binEnd == SeqMax(values)
  {
    var bins := Histogram(values, binCount);
    var lo, hi, w := SeqMin(values), SeqMax(values), Width(values, binCount);
    forall i | 0 <= i < binCount
      ensures bins[i].binStart == Start(lo, w, i) && bins[i].binEnd == Start(lo, w, i + 1)
    {
      BinBounds(values, binCount, i);
    }
    forall i | 0 <= i < binCount ensures Start(lo, w, i) < Start(lo, w, i + 1) {
      StartMono(lo, w, i, i + 1);
    }
    if lo < hi {
      LastEnd(lo, hi, binCount);
    }
  }

  /** Floor facts for one value: the clamped index `i` satisfies
      `Start(i) <= v`, and `v < Start(i + 1)` unless `i` is the last bin. */
  lemma IndexBounds(v: real, lo: real, w: real, binCount: nat)
    requires w > 0.0 && binCount > 0 && lo <= v
    ensures var i := BinIndex(v, lo, w, binCount);
            Start(lo, w, i) <= v && (i < binCount - 1 ==> v < Start(lo, w, i + 1))
  {
    var q := (v - lo) / w;
    var i := BinIndex(v, lo, w, binCount);
    QuotientFacts(v - lo, w);
    assert (i as real) <= q;
    MulLe(i as real, q, w);
    if i < binCount - 1 {
      assert q < ((i + 1) as real);
      MulLt(q, (i + 1) as real, w);
      assert v - lo == q * w;
      assert Start(lo, w, i + 1) == lo + ((i + 1) as real) * w;
      assert v < Start(lo, w, i + 1);
    }
  }

  /** A member of bin `i` lies in that bin's interval, closed on the left,
      open on the right except for the last bin. */
  lemma MemberBounds(vs: seq<real>, lo: real, w: real, binCount: nat, i: nat, v: real)
    requires w > 0.0 && binCount > 0
    requires forall k :: 0 <= k < |vs| ==> lo <= vs[k]
    requires v in Members(vs, lo, w, binCount, i)
    ensures v in vs
    ensures Start(lo, w, i) <= v && (i < binCount - 1 ==> v < Start(lo, w, i + 1))
  {
    MembersAreThoseOfTheBin(vs, lo, w, binCount, i);
    var k :| 0 <= k < |Members(vs, lo, w, binCount, i)| && Members(vs, lo, w, binCount, i)[k] == v;
    assert v in vs && BinIndex(v, lo, w, binCount) == i;
    IndexBounds(v, lo, w, binCount);
  }

  /** A value placed in bin i lies in that bin's interval, closed on the
      left, open on the right except for the last bin, which takes values
      up to the maximum. */
  lemma ValuesLieInTheirBin(values: seq<real>, binCount: nat, i: nat, k: nat)
    requires values != [] && binCount > 0 && i < binCount
    requires k < |Histogram(values, binCount)[i].values|
    ensures var b := Histogram(values, binCount)[i];
            && b.binStart <= b.values[k] <= SeqMax(values)
            && (i < binCount - 1 ==> b.values[k] < b.binEnd)
  {
    var lo, w := SeqMin(values), Width(values, binCount);
    HistogramBin(values, binCount, i);
    var b := Histogram(values, binCount)[i];
    assert b.values[k] in Members(values, lo, w, binCount, i);
    MemberBounds(values, lo, w, binCount, i, b.values[k]);
  }

  /** `d / (d / binCount)` is `binCount` for a positive spread `d`. */
  lemma SpreadOverWidth(d: real, binCount: nat)
    requires d > 0.0 && binCount > 0
    ensures d / (d / (binCount as real)) == binCount as real
  {
  }

  /** With distinct extremes the maximum's index, `binCount` before the
      clamp, is clamped to the last bin. */
  lemma MaxIndex(lo: real, hi: real, binCount: nat)
    requires lo < hi && binCount > 0
    ensures BinIndex(hi, lo, BinWidth(lo, hi, binCount), binCount) == binCount - 1
  {
    var w := BinWidth(lo, hi, binCount);
    SpreadOverWidth(hi - lo, binCount);
    assert ((hi - lo) / w).Floor == binCount;
  }

  /** The clamp absorbs the maximum into the last bin. */
  lemma MaxLandsInLastBin(values: seq<real>, binCount: nat)
    requires values != [] && binCount > 0 && SeqMin(values) < SeqMax(values)
    ensures SeqMax(values) in Histogram(values, binCount)[binCount - 1].values
  {
    var lo, hi, w := SeqMin(values), SeqMax(values), Width(values, binCount);
    MaxIndex(lo, hi, binCount);
    var k :| 0 <= k < |values| && values[k] == hi;
    MembersAreThoseOfTheBin(values, lo, w, binCount, binCount - 1);
    HistogramBin(values, binCount, binCount - 1);
  }

  lemma {:induction false} AllEqualMembers(vs: seq<real>, lo: real, binCount: nat, i: int)
    requires binCount > 0
    requires forall k :: 0 <= k < |vs| ==> vs[k] == lo
    ensures Members(vs, lo, 1.0, binCount, i) == if i == 0 then vs else []
  {
    if vs != [] {
      AllEqualMembers(vs[..|vs| - 1], lo, binCount, i);
      assert vs[..|vs| - 1] + [vs[|vs| - 1]] == vs;
    }
  }

  /** Degenerate data: when every value equals the minimum the width is 1,
      every value is in bin 0 and the other bins are empty. */
  lemma EqualValuesFillBinZero(values: seq<real>, binCount: nat)
    requires values != [] && binCount > 0 && SeqMin(values) == SeqMax(values)
    ensures Width(values, binCount) == 1.0
    ensures Histogram(values, binCount)[0].values == values
    ensures forall i :: 0 < i < binCount ==> Histogram(values, binCount)[i].count == 0
  {
    var lo := SeqMin(values);
    assert Width(values, binCount) == 1.0;
    assert forall k :: 0 <= k < |values| ==> values[k] == lo;
    forall i | 0 <= i < binCount
      ensures Histogram(values, binCount)[i].values == if i == 0 then values else []
    {
      HistogramBin(values, binCount, i);
      AllEqualMembers(values, lo, binCount, i);
    }
  }

  // ---------------------------------------------------------------- zoom

  /** Index normalisation of `Array.prototype.slice`: negative indices count
      from the end; the result is clamped to `[0, len]`. */
  function SliceIndex(i: int, len: nat): (r: nat)
    ensures r <= len
    ensures 0 <= i <= len ==> r == i
  {
    if i < 0 then (if len + i < 0 then 0 else len + i) else if i > len then len else i
  }

  /** `s.slice(start, end)`. */
  function JsSlice<T>(s: seq<T>, start: int, end: int): (r: seq<T>)
    ensures 0 <= start <= end <= |s| ==> r == s[start..end]
    ensures |r| <= |s|
  {
    var a, b := SliceIndex(start, |s|), SliceIndex(end, |s|);
    if a < b then s[a..b] else []
  }

  /** Committing a drag from bin `left` to bin `right`: order the two, take
      the bins between them, inclusive, and return the first one's start
      and the last one's end, each 0 when the slice is empty. */
  function CommitRange(bins: seq<Bin>, left: int, right: int): (r: (real, real))
    ensures 0 <= left < |bins| && 0 <= right < |bins| ==>
              r == (bins[if left > right then right else left].binStart,
                    bins[if left > right then left else right].binEnd)
    ensures JsSlice(bins, if left > right then right else left, (if left > right then left else right) + 1) == [] ==>
              r == (0.0, 0.0)
  {
    var l := if left > right then right else left;
    var h := if left > right then left else right;
    var selected := JsSlice(bins, l, h + 1);
    (if selected != [] then selected[0].binStart else 0.0,
     if selected != [] then selected[|selected| - 1].binEnd else 0.0)
  }

  /** On the binner's own bins and in-range indices, a commit yields a
      non-empty value range: from the start of the lower bin to the end of
      the higher one. */
  lemma CommitIsProperRange(values: seq<real>, binCount: nat, left: int, right: int)
    requires values != [] && binCount > 0
    requires 0 <= left < binCount && 0 <= right < binCount
    ensures var lo, w := SeqMin(values), Width(values, binCount);
            var l, h := (if left > right then right else left), (if left > right then left else right);
            var r := CommitRange(Histogram(values, binCount), left, right);
            && r.0 == Start(lo, w, l)
            && r.1 == Start(lo, w, h + 1)
            && r.0 < r.1
  {
    var lo, w := SeqMin(values), Width(values, binCount);
    var bins := Histogram(values, binCount);
    forall i | 0 <= i < binCount
      ensures bins[i].binStart == Start(lo, w, i) && bins[i].binEnd == Start(lo, w, i + 1)
    {
      BinBounds(values, binCount, i);
    }
    CommitOnTiles(bins, lo, w, left, right);
  }

  /** A commit over bins laid out from `lo` in steps of `w`. */
  lemma CommitOnTiles(bins: seq<Bin>, lo: real, w: real, left: int, right: int)
    requires w > 0.0 && 0 <= left < |bins| && 0 <= right < |bins|
    requires forall i :: 0 <= i < |bins| ==> bins[i].binStart == Start(lo, w, i) && bins[i].binEnd == Start(lo, w, i + 1)
    ensures var l, h := (if left > right then right else left), (if left > right then left else right);
            var r := CommitRange(bins, left, right);
            r.0 == Start(lo, w, l) && r.1 == Start(lo, w, h + 1) && r.0 < r.1
  {
    var l, h := (if left > right then right else left), (if left > right then left else right);
    StartMono(lo, w, l, h + 1);
  }

  /** The full value range restored by a reset: nothing without a selected
      column or without numeric values, else the minimum and maximum. */
  function FullRange(rows: seq<Row>, column: string): (r: Option<(real, real)>)
    ensures r.None? <==> column == "" || NumericValues(rows, column) == []
    ensures r.Some? ==> && IsMin(r.value.0, NumericValues(rows, column))
                        && IsMax(r.value.1, NumericValues(rows, column))
                        && r.value.0 <= r.value.1
  {
    if column == "" then None
    else
      var values := NumericValues(rows, column);
      if values == [] then None else Some((SeqMin(values), SeqMax(values)))
  }

  /** `zoomState`: the two drag endpoints (bin indices) and the committed
      value range shown on the axis. */
  class Zoom {
    var refAreaLeft: Option<int>
    var refAreaRight: Option<int>
    var dataMin: real
    var dataMax: real

    constructor ()
      ensures refAreaLeft == None && refAreaRight == None && dataMin == 0.0 && dataMax == 0.0
    {
      refAreaLeft, refAreaRight, dataMin, dataMax := None, None, 0.0, 0.0;
    }

    /** `handleZoomStart`: a press on a bar sets only the left endpoint. */
    method ZoomStart(bar: Option<int>)
      modifies this
      ensures refAreaLeft == if bar.Some? then bar else old(refAreaLeft)
      ensures refAreaRight == old(refAreaRight) && dataMin == old(dataMin) && dataMax == old(dataMax)
    {
      if bar.Some? {
        refAreaLeft := bar;
      }
    }

    /** `handleZoomMove`: while a left endpoint is set, the bar under the
        pointer becomes the right endpoint; nothing else changes. */
    method ZoomMove(bar: Option<int>)
      modifies this
      ensures refAreaRight == if bar.Some? && old(refAreaLeft).Some? then bar else old(refAreaRight)
      ensures refAreaLeft == old(refAreaLeft) && dataMin == old(dataMin) && dataMax == old(dataMax)
    {
      if bar.Some? && refAreaLeft.Some? {
        refAreaRight := bar;
      }
    }

    /** `handleZoomEnd`: both endpoints are cleared; when both were set the
        committed range becomes that of the bins between them. */
    method ZoomEnd(bins: seq<Bin>)
      modifies this
      ensures refAreaLeft == None && refAreaRight == None
      ensures old(refAreaLeft).None? || old(refAreaRight).None? ==>
                dataMin == old(dataMin) && dataMax == old(dataMax)
      ensures old(refAreaLeft).Some? && old(refAreaRight).Some? ==>
                (dataMin, dataMax) == CommitRange(bins, old(refAreaLeft).value, old(refAreaRight).value)
    {
      if refAreaLeft.None? || refAreaRight.None? {
        refAreaLeft, refAreaRight := None, None;
        return;
      }
      var r := CommitRange(bins, refAreaLeft.value, refAreaRight.value);
      refAreaLeft, refAreaRight, dataMin, dataMax := None, None, r.0, r.1;
    }

    /** `handleResetZoom`, and the effect that runs the same code when the
        dataset or the selected column changes: with a full range, clear
        both endpoints and restore it; otherwise change nothing. */
    method ResetZoom(rows: seq<Row>, column: string)
      modifies this
      ensures FullRange(rows, column).None? ==>
                && refAreaLeft == old(refAreaLeft) && refAreaRight == old(refAreaRight)
                && dataMin == old(dataMin) && dataMax == old(dataMax)
      ensures FullRange(rows, column).Some? ==>
                && refAreaLeft == None && refAreaRight == None
                && (dataMin, dataMax) == FullRange(rows, column).value
    {
      var range := FullRange(rows, column);
      if range.Some? {
        refAreaLeft, refAreaRight, dataMin, dataMax := None, None, range.value.0, range.value.1;
      }
    }
  }
}
