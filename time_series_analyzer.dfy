/** The time-series analyser: which series are visible, which lines are
    drawn and in which colour, and which backend statistics are shown, for
    either every column (`"all"`) or a single selected column. */
module TimeSeriesAnalyzer {
  import opened Basics
  import opened Dataset

  /** The selector value that stands for every column. */
  const ALL: string := "all"

  /** The line palette, used cyclically by column position. */
  const COLORS: seq<string> := ["#10b981", "#3b82f6", "#ef4444", "#f59e0b", "#8b5cf6",
                                "#ec4899", "#06b6d4", "#84cc16", "#f97316", "#6366f1"]

  /** The stroke of the single line drawn when one column is selected. */
  const SINGLE_COLOR: string := "#10b981"

  // ---------------------------------------------------------------- colours

  /** `COLORS[index % COLORS.length]` for a position in the column list. */
  function Color(index: nat): (c: string)
    ensures c in COLORS
    ensures index < |COLORS| ==> c == COLORS[index]
  {
    COLORS[index % |COLORS|]
  }

  /** Two positions share a colour exactly when they are congruent modulo
      the palette size: the palette has no repeated entry. */
  lemma ColorsRepeatEveryTen(i: nat, j: nat)
    ensures Color(i) == Color(j) <==> i % 10 == j % 10
  {
    assert |COLORS| == 10;
    var a, b := i % 10, j % 10;
    if a != b {
      assert COLORS[a] != COLORS[b] by {
        assert forall x, y :: 0 <= x < y < 10 ==> COLORS[x] != COLORS[y];
      }
    }
  }

  /** `columns.indexOf(c)`: the first position of `c`, or -1. */
  function IndexOf(columns: seq<string>, c: string): (r: int)
    ensures -1 <= r < |columns|
    ensures r == -1 <==> c !in columns
    ensures 0 <= r ==> columns[r] == c && forall k :: 0 <= k < r ==> columns[k] != c
  {
    if columns == [] then -1
    else if columns[0] == c then 0
    else
      var r := IndexOf(columns[1..], c);
      assert forall k :: 1 <= k < |columns| ==> columns[k] == columns[1..][k - 1];
      if r == -1 then -1 else r + 1
  }

  /** The colour dot of a statistics card: `COLORS[columns.indexOf(c) % 10]`.
      For a column outside the list the index is -1, JavaScript's remainder
      keeps the sign, and the palette lookup is `undefined`. */
  function CardColor(columns: seq<string>, c: string): (r: Option<string>)
    ensures r.None? <==> c !in columns
    ensures r.Some? ==> r.value == Color(IndexOf(columns, c))
  {
    var i := IndexOf(columns, c);
    if i < 0 then None else Some(Color(i))
  }

  // ---------------------------------------------------------------- visibility

  /** `columns.reduce((acc, col) => ({ ...acc, [col]: flag }), {})`. */
  function Fill(columns: seq<string>, flag: bool): (m: map<string, bool>)
    ensures forall c :: c in m <==> c in columns
    ensures forall c :: c in m ==> m[c] == flag
  {
    if columns == [] then map[]
    else
      var init := columns[..|columns| - 1];
      assert forall c :: c in columns <==> c in init || c == columns[|columns| - 1];
      Fill(init, flag)[columns[|columns| - 1] := flag]
  }

  /** `visibleColumns[c]` read as a condition: a column without an entry
      is `undefined`, which hides it. */
  predicate IsVisible(m: map<string, bool>, c: string)
  {
    c in m && m[c]
  }

  /** `{ ...prev, [c]: !prev[c] }`: a missing entry reads as `undefined`, so
      toggling it makes the column visible. */
  function Toggled(m: map<string, bool>, c: string): (r: map<string, bool>)
    ensures r.Keys == m.Keys + {c}
    ensures IsVisible(r, c) <==> !IsVisible(m, c)
    ensures forall d :: d in m && d != c ==> r[d] == m[d]
  {
    m[c := !IsVisible(m, c)]
  }

  /** Toggling twice restores the visibility of every column, and restores
      the map itself when the column already had an entry. */
  lemma ToggleTwice(m: map<string, bool>, c: string)
    ensures forall d :: IsVisible(Toggled(Toggled(m, c), c), d) <==> IsVisible(m, d)
    ensures c in m ==> Toggled(Toggled(m, c), c) == m
  {
    var t := Toggled(Toggled(m, c), c);
    assert forall d :: IsVisible(t, d) <==> IsVisible(m, d) by {
      forall d ensures IsVisible(t, d) <==> IsVisible(m, d) {
        if d == c {
          assert IsVisible(t, c) <==> !IsVisible(Toggled(m, c), c);
        }
      }
    }
  }

  /** The show-all button is disabled when every flag is true
      (`Object.values(m).every(v => v)`, true for an empty map). */
  predicate ShowAllDisabled(m: map<string, bool>)
  {
    forall c :: c in m ==> m[c]
  }

  /** The hide-all button is disabled when every flag is false. */
  predicate HideAllDisabled(m: map<string, bool>)
  {
    forall c :: c in m ==> !m[c]
  }

  /** After show-all its button is disabled, and hide-all is enabled unless
      there are no columns; symmetrically after hide-all. */
  lemma ButtonsAfterShowAndHide(columns: seq<string>)
    ensures ShowAllDisabled(Fill(columns, true))
    ensures HideAllDisabled(Fill(columns, true)) <==> columns == []
    ensures HideAllDisabled(Fill(columns, false))
    ensures ShowAllDisabled(Fill(columns, false)) <==> columns == []
  {
    if columns != [] {
      assert columns[0] in Fill(columns, true);
      assert columns[0] in Fill(columns, false);
    }
  }

  /** Hiding one series of a fully visible map enables show-all again;
      showing one series of a fully hidden map enables hide-all again. */
  lemma ToggleEnablesButtons(m: map<string, bool>, c: string)
    ensures ShowAllDisabled(m) && c in m ==> !ShowAllDisabled(Toggled(m, c))
    ensures HideAllDisabled(m) ==> !HideAllDisabled(Toggled(m, c))
  {
    var t := Toggled(m, c);
    assert c in t;
  }

  /** The series of the initial map are exactly the initial columns; a
      column that appears later has no entry and stays hidden until it is
      toggled or show-all runs with the new columns. */
  lemma InitialVisibility(initial: seq<string>, c: string)
    ensures IsVisible(Fill(initial, true), c) <==> c in initial
  {
  }

  // ---------------------------------------------------------------- lines

  /** The positions, from `from` on, of the columns whose flag is true. */
  function DrawnFrom(columns: seq<string>, m: map<string, bool>, from: nat): (r: seq<nat>)
    requires from <= |columns|
    ensures forall k :: 0 <= k < |r| ==> from <= r[k] < |columns| && IsVisible(m, columns[r[k]])
    ensures forall k, l :: 0 <= k < l < |r| ==> r[k] < r[l]
    ensures forall i :: from <= i < |columns| && IsVisible(m, columns[i]) ==> i in r
    decreases |columns| - from
  {
    if from == |columns| then []
    else
      var rest := DrawnFrom(columns, m, from + 1);
      if IsVisible(m, columns[from]) then [from] + rest else rest
  }

  /** One drawn line: the column it plots and its stroke colour. */
  datatype Line = Line(column: string, stroke: string)

  /** The lines of the chart. In `"all"` mode, one line per column whose
      flag is true, in column order, coloured by the column's position;
      otherwise the single selected column in the first palette colour. */
  function Lines(columns: seq<string>, m: map<string, bool>, selected: string): (r: seq<Line>)
    ensures selected != ALL ==> r == [Line(selected, SINGLE_COLOR)]
  {
    if selected == ALL then
      var drawn := DrawnFrom(columns, m, 0);
      seq(|drawn|, k requires 0 <= k < |drawn| => Line(columns[drawn[k]], Color(drawn[k])))
    else [Line(selected, SINGLE_COLOR)]
  }

  /** In `"all"` mode the lines are the visible columns, in column order:
      every line is a visible column with its positional colour, their
      positions increase, and every visible column has a line. */
  lemma AllModeLines(columns: seq<string>, m: map<string, bool>)
    ensures forall k :: 0 <= k < |Lines(columns, m, ALL)| ==>
              && IsVisible(m, Lines(columns, m, ALL)[k].column)
              && exists i :: 0 <= i < |columns| && Lines(columns, m, ALL)[k] == Line(columns[i], Color(i))
    ensures forall k, l :: 0 <= k < l < |Lines(columns, m, ALL)| ==>
              && Lines(columns, m, ALL)[k].column in columns
              && Lines(columns, m, ALL)[l].column in columns
              && exists i, j :: 0 <= i < j < |columns| && Lines(columns, m, ALL)[k] == Line(columns[i], Color(i))
                                                   && Lines(columns, m, ALL)[l] == Line(columns[j], Color(j))
    ensures forall i :: 0 <= i < |columns| && IsVisible(m, columns[i]) ==>
              Line(columns[i], Color(i)) in Lines(columns, m, ALL)
  {
    var drawn := DrawnFrom(columns, m, 0);
    var r := Lines(columns, m, ALL);
    assert |r| == |drawn|;
    forall k | 0 <= k < |r|
      ensures IsVisible(m, r[k].column) && exists i :: 0 <= i < |columns| && r[k] == Line(columns[i], Color(i))
    {
      var i := drawn[k];
      assert r[k] == Line(columns[i], Color(i));
    }
    forall k, l | 0 <= k < l < |r|
      ensures && r[k].column in columns && r[l].column in columns
              && exists i, j :: 0 <= i < j < |columns| && r[k] == Line(columns[i], Color(i))
                                                   && r[l] == Line(columns[j], Color(j))
    {
      assert r[k] == Line(columns[drawn[k]], Color(drawn[k])) && r[l] == Line(columns[drawn[l]], Color(drawn[l]));
    }
    forall i | 0 <= i < |columns| && IsVisible(m, columns[i])
      ensures Line(columns[i], Color(i)) in r
    {
      var k :| 0 <= k < |drawn| && drawn[k] == i;
      assert r[k] == Line(columns[i], Color(i));
    }
  }

  /** With no repeated column name, the colour of a column's statistics
      card is the colour of its line. */
  lemma CardMatchesLine(columns: seq<string>, i: nat)
    requires i < |columns|
    requires forall a, b :: 0 <= a < b < |columns| ==> columns[a] != columns[b]
    ensures CardColor(columns, columns[i]) == Some(Color(i))
  {
    var j := IndexOf(columns, columns[i]);
    assert columns[j] == columns[i];
  }

  // ---------------------------------------------------------------- statistics

  /** The `statistics` memo: nothing without backend statistics; in `"all"`
      mode the entries of every column that has one; otherwise a one-entry
      map for the selected column, or nothing when it has no entry. The
      `"all"` case folds over the columns into an accumulator. */
  method Statistics(columns: seq<string>, stats: Option<map<string, Stats>>, selected: string)
    returns (r: Option<map<string, Stats>>)
    ensures stats.None? ==> r.None?
    ensures stats.Some? && selected == ALL ==>
              && r.Some?
              && (forall c :: c in r.value <==> c in columns && c in stats.value)
              && (forall c :: c in r.value ==> r.value[c] == stats.value[c])
    ensures stats.Some? && selected != ALL ==>
              r == if selected in stats.value then Some(map[selected := stats.value[selected]]) else None
    ensures AverageLine(r, selected) == AverageLine(stats, selected)
  {
    if stats.None? {
      return None;
    }
    var all := stats.value;
    if selected != ALL {
      if selected in all {
        return Some(map[selected := all[selected]]);
      }
      return None;
    }
    var acc: map<string, Stats> := map[];
    var i := 0;
    while i < |columns|
      invariant 0 <= i <= |columns|
      invariant forall c :: c in acc <==> c in columns[..i] && c in all
      invariant forall c :: c in acc ==> acc[c] == all[c]
    {
      var column := columns[i];
      if column in all {
        acc := acc[column := all[column]];
      }
      assert columns[..i + 1] == columns[..i] + [column];
      i := i + 1;
    }
    assert columns[..i] == columns;
    return Some(acc);
  }

  /** The dashed average line, read from the `statistics` memo (or, by
      the last `ensures` of `Statistics`, equally from the backend map):
      drawn only for a single selected column whose entry exists, at that
      entry's average. */
  function AverageLine(stats: Option<map<string, Stats>>, selected: string): (y: Option<real>)
    ensures y.Some? <==> selected != ALL && stats.Some? && selected in stats.value
    ensures y.Some? ==> y.value == stats.value[selected].avg
  {
    if selected != ALL && stats.Some? && selected in stats.value then Some(stats.value[selected].avg) else None
  }

  // ---------------------------------------------------------------- view state

  /** The component's state: the selector value and the visibility map. */
  class SeriesView {
    var selectedColumn: string
    var visible: map<string, bool>

    /** The map starts all true over the columns known at mount time and
        the selector starts on `"all"`. */
    constructor (columns: seq<string>)
      ensures selectedColumn == ALL && visible == Fill(columns, true)
    {
      selectedColumn := ALL;
      visible := Fill(columns, true);
    }

    /** `setSelectedColumn` from the selector. */
    method Select(c: string)
      modifies this
      ensures selectedColumn == c && visible == old(visible)
    {
      selectedColumn := c;
    }

    /** `toggleColumnVisibility`: flips one flag, nothing else changes. */
    method Toggle(c: string)
      modifies this
      ensures visible == Toggled(old(visible), c)
      ensures selectedColumn == old(selectedColumn)
    {
      visible := Toggled(visible, c);
    }

    /** `showAllColumns`: the map becomes all true over the current columns;
        entries of columns no longer present are dropped. */
    method ShowAll(columns: seq<string>)
      modifies this
      ensures visible == Fill(columns, true) && ShowAllDisabled(visible)
      ensures selectedColumn == old(selectedColumn)
    {
      visible := Fill(columns, true);
      ButtonsAfterShowAndHide(columns);
    }

    /** `hideAllColumns`: the map becomes all false over the current columns. */
    method HideAll(columns: seq<string>)
      modifies this
      ensures visible == Fill(columns, false) && HideAllDisabled(visible)
      ensures selectedColumn == old(selectedColumn)
    {
      visible := Fill(columns, false);
      ButtonsAfterShowAndHide(columns);
    }
  }
}
