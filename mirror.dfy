/** The expense mirror as values: what a reload reads from the expense
    worksheet, what a rewrite writes back to it, and the facts that connect
    the two. */
module Mirror {

  import opened Wrappers
  import opened Sheets
  import opened Amounts
  import opened Categories

  /** One expense of the mirror: its amount in cents and its category. */
  datatype Entry = Entry(amount: int, category: Category)

  /** What a reload leaves in the mirror, and whether it read every cell
      (`false` when a cell that is not a number ended it early). */
  datatype Loaded = Loaded(entries: seq<Entry>, complete: bool)

  /** A category's column without its header cell. */
  function DataCells(g: Grid, c: Category): seq<string>
  {
    var col := ColValues(g, ExpenseColumn(c));
    if col == [] then [] else col[1..]
  }

  /** Reading one column's data cells top to bottom: a blank cell is skipped,
      any other cell becomes an entry of the column's category, and the first
      cell that is not a number ends the reload with the entries read so far. */
  function LoadCells(c: Category, cells: seq<string>): (r: Loaded)
    ensures forall i :: 0 <= i < |r.entries| ==> r.entries[i].category == c
    decreases |cells|
  {
    if cells == [] then Loaded([], true)
    else
      var p := LoadCells(c, cells[..|cells| - 1]);
      var s := cells[|cells| - 1];
      if !p.complete || IsBlank(s) then p
      else
        match Parse(s)
        case None => Loaded(p.entries, false)
        case Some(a) => Loaded(p.entries + [Entry(a, c)], true)
  }

  /** The reload over the first `n` expense categories, in table order. */
  function LoadPrefix(g: Grid, n: nat): Loaded
    requires n <= |EXPENSE_CATEGORIES|
  {
    if n == 0 then Loaded([], true)
    else
      var p := LoadPrefix(g, n - 1);
      if !p.complete then p
      else
        var c := EXPENSE_CATEGORIES[n - 1];
        var q := LoadCells(c, DataCells(g, c));
        Loaded(p.entries + q.entries, q.complete)
  }

  /** Reading one more category, when the reload so far read to the end. */
  lemma LoadPrefixNext(g: Grid, k: nat, before: seq<Entry>)
    requires k < |EXPENSE_CATEGORIES| && LoadPrefix(g, k) == Loaded(before, true)
    ensures var c := EXPENSE_CATEGORIES[k];
      var q := LoadCells(c, DataCells(g, c));
      LoadPrefix(g, k + 1) == Loaded(before + q.entries, q.complete)
  {
  }

  /** The reload of the whole expense worksheet. */
  function Load(g: Grid): (r: Loaded)
    ensures Grouped(r.entries)
  {
    LoadPrefixGrouped(g, |EXPENSE_CATEGORIES|);
    LoadPrefix(g, |EXPENSE_CATEGORIES|)
  }

  /** Where the reload's outer loop stops, after the last category or at the
      first column that held something other than a number, it has read
      exactly the whole reload, grouped in table order. */
  lemma LoadFinished(g: Grid, k: nat, m: seq<Entry>, ok: bool)
    requires k <= |EXPENSE_CATEGORIES| && (k == |EXPENSE_CATEGORIES| || !ok)
    requires LoadPrefix(g, k) == Loaded(m, ok)
    ensures m == Load(g).entries && Grouped(m)
  {
    if !ok {
      LoadPrefixStops(g, k, |EXPENSE_CATEGORIES|);
    }
    LoadPrefixGrouped(g, |EXPENSE_CATEGORIES|);
  }

  /** The entries are grouped by category, categories in table order. */
  predicate Grouped(m: seq<Entry>)
  {
    forall i, j :: 0 <= i < j < |m| ==> Rank(m[i].category) <= Rank(m[j].category)
  }

  /** The reload over the first `n` categories yields entries of those
      categories only, grouped in table order. */
  lemma {:induction false} LoadPrefixGrouped(g: Grid, n: nat)
    requires n <= |EXPENSE_CATEGORIES|
    ensures forall i :: 0 <= i < |LoadPrefix(g, n).entries| ==> Rank(LoadPrefix(g, n).entries[i].category) < n
    ensures Grouped(LoadPrefix(g, n).entries)
  {
    if n > 0 {
      LoadPrefixGrouped(g, n - 1);
      TableOrder();
      var c := EXPENSE_CATEGORIES[n - 1];
      assert Rank(c) == n - 1;
    }
  }

  /** Every non-blank cell is a number. */
  predicate AllNumbers(cells: seq<string>)
  {
    forall i :: 0 <= i < |cells| && !IsBlank(cells[i]) ==> Parse(cells[i]).Some?
  }

  /** The entries a column of numbers stands for: one per non-blank cell,
      of category `c`, in row order. */
  function ColumnEntries(c: Category, cells: seq<string>): seq<Entry>
    requires AllNumbers(cells)
    decreases |cells|
  {
    if cells == [] then []
    else
      (if IsBlank(cells[0]) then [] else [Entry(Parse(cells[0]).value, c)])
      + ColumnEntries(c, cells[1..])
  }

  lemma {:induction false} ColumnEntriesSnoc(c: Category, cells: seq<string>, s: string)
    requires AllNumbers(cells + [s])
    ensures AllNumbers(cells)
    ensures !IsBlank(s) ==> Parse(s).Some?
    ensures ColumnEntries(c, cells + [s])
         == ColumnEntries(c, cells) + (if IsBlank(s) then [] else [Entry(Parse(s).value, c)])
    decreases |cells|
  {
    var all := cells + [s];
    assert forall i :: 0 <= i < |cells| ==> all[i] == cells[i];
    assert all[|cells|] == s;
    var x := if IsBlank(s) then [] else [Entry(Parse(s).value, c)];
    if cells == [] {
      assert all[1..] == [];
    } else {
      var t := cells[1..];
      assert all[1..] == t + [s];
      assert all[0] == cells[0];
      AllNumbersTail(all);
      ColumnEntriesSnoc(c, t, s);
      var h := if IsBlank(cells[0]) then [] else [Entry(Parse(cells[0]).value, c)];
      assert ColumnEntries(c, all) == h + (ColumnEntries(c, t) + x);
      ConcatAssoc(h, ColumnEntries(c, t), x);
    }
  }

  lemma AllNumbersTail(cells: seq<string>)
    requires cells != [] && AllNumbers(cells)
    ensures AllNumbers(cells[1..])
  {
    assert forall i :: 0 <= i < |cells| - 1 ==> cells[1..][i] == cells[i + 1];
  }

  /** A column's reload reads it to the end exactly when all its non-blank
      cells are numbers, and then it yields one entry per non-blank cell, in
      row order. */
  lemma {:induction false} LoadCellsMeaning(c: Category, cells: seq<string>)
    ensures LoadCells(c, cells).complete <==> AllNumbers(cells)
    ensures AllNumbers(cells) ==> LoadCells(c, cells).entries == ColumnEntries(c, cells)
    decreases |cells|
  {
    if cells != [] {
      var init, s := cells[..|cells| - 1], cells[|cells| - 1];
      assert cells == init + [s];
      LoadCellsMeaning(c, init);
      assert forall i :: 0 <= i < |init| ==> cells[i] == init[i];
      if AllNumbers(cells) {
        ColumnEntriesSnoc(c, init, s);
      }
    }
  }

  /** Reading one more cell of a column. */
  lemma LoadCellsNext(c: Category, cells: seq<string>, j: nat)
    requires j < |cells|
    ensures var p := LoadCells(c, cells[..j]);
      LoadCells(c, cells[..j + 1]) ==
        if !p.complete || IsBlank(cells[j]) then p
        else if Parse(cells[j]).None? then Loaded(p.entries, false)
        else Loaded(p.entries + [Entry(Parse(cells[j]).value, c)], true)
  {
    assert cells[..j + 1][..j] == cells[..j];
  }

  /** Once a column's reload has stopped at a bad cell, later cells change nothing. */
  lemma {:induction false} LoadCellsStops(c: Category, cells: seq<string>, j: nat)
    requires j <= |cells|
    requires !LoadCells(c, cells[..j]).complete
    ensures LoadCells(c, cells) == LoadCells(c, cells[..j])
    decreases |cells| - j
  {
    if j < |cells| {
      assert cells[..j + 1][..j] == cells[..j];
      LoadCellsStops(c, cells, j + 1);
    } else {
      assert cells[..j] == cells;
    }
  }

  /** Once the reload has stopped at a bad cell, later categories change nothing. */
  lemma {:induction false} LoadPrefixStops(g: Grid, n: nat, m: nat)
    requires n <= m <= |EXPENSE_CATEGORIES|
    requires !LoadPrefix(g, n).complete
    ensures LoadPrefix(g, m) == LoadPrefix(g, n)
    decreases m - n
  {
    if n < m {
      LoadPrefixStops(g, n, m - 1);
    }
  }

  /** The entries of `m` of category `c`, in mirror order. */
  function Select(m: seq<Entry>, c: Category): (r: seq<Entry>)
    ensures forall i :: 0 <= i < |r| ==> r[i].category == c
    ensures |r| <= |m|
    decreases |m|
  {
    if m == [] then []
    else (if m[0].category == c then [m[0]] else []) + Select(m[1..], c)
  }

  lemma {:induction false} SelectAppend(a: seq<Entry>, b: seq<Entry>, c: Category)
    ensures Select(a + b, c) == Select(a, c) + Select(b, c)
    decreases |a|
  {
    if a == [] {
      assert a + b == b;
    } else {
      assert (a + b)[0] == a[0];
      assert (a + b)[1..] == a[1..] + b;
      SelectAppend(a[1..], b, c);
    }
  }

  /** Selecting from entries of one category keeps all of them for that
      category and none for any other. */
  lemma {:induction false} SelectUniform(m: seq<Entry>, c: Category, d: Category)
    requires forall i :: 0 <= i < |m| ==> m[i].category == c
    ensures Select(m, d) == if d == c then m else []
    decreases |m|
  {
    if m != [] {
      SelectUniform(m[1..], c, d);
    }
  }

  /** Entries all ranked below `c` include none of category `c`. */
  lemma {:induction false} SelectBelowRank(m: seq<Entry>, c: Category)
    requires forall i :: 0 <= i < |m| ==> Rank(m[i].category) < Rank(c)
    ensures Select(m, c) == []
    decreases |m|
  {
    if m != [] {
      SelectBelowRank(m[1..], c);
    }
  }

  /** The reload reads every cell exactly when every non-blank data cell of
      every expense column is a number. */
  lemma {:induction false} LoadPrefixComplete(g: Grid, n: nat)
    requires n <= |EXPENSE_CATEGORIES|
    ensures LoadPrefix(g, n).complete <==> ColumnsAreNumbers(g, n)
  {
    if n > 0 {
      LoadPrefixComplete(g, n - 1);
      ColumnsAreNumbersNext(g, n);
      LoadPrefixCompleteNext(g, n);
    }
  }

  lemma LoadPrefixCompleteNext(g: Grid, n: nat)
    requires 0 < n <= |EXPENSE_CATEGORIES|
    ensures LoadPrefix(g, n).complete <==>
      LoadPrefix(g, n - 1).complete && AllNumbers(DataCells(g, EXPENSE_CATEGORIES[n - 1]))
  {
    var d := EXPENSE_CATEGORIES[n - 1];
    var p := LoadPrefix(g, n - 1);
    if p.complete {
      LoadPrefixNext(g, n - 1, p.entries);
      LoadCellsMeaning(d, DataCells(g, d));
    }
  }

  lemma ColumnsAreNumbersNext(g: Grid, n: nat)
    requires 0 < n <= |EXPENSE_CATEGORIES|
    ensures ColumnsAreNumbers(g, n) <==> ColumnsAreNumbers(g, n - 1) && AllNumbers(DataCells(g, EXPENSE_CATEGORIES[n - 1]))
  {
  }

  /** Every non-blank data cell of the first `n` category columns is a number. */
  ghost predicate ColumnsAreNumbers(g: Grid, n: nat)
    requires n <= |EXPENSE_CATEGORIES|
  {
    forall k :: 0 <= k < n ==> AllNumbers(DataCells(g, EXPENSE_CATEGORIES[k]))
  }

  /** After a complete reload of the first `n` categories, the entries of
      each of them are exactly its column's entries in row order, and there
      are none of the later categories. */
  lemma {:induction false} LoadPrefixSelect(g: Grid, n: nat, c: Category)
    requires n <= |EXPENSE_CATEGORIES|
    requires LoadPrefix(g, n).complete
    ensures Rank(c) < n ==> AllNumbers(DataCells(g, c))
    ensures Rank(c) < n ==> Select(LoadPrefix(g, n).entries, c) == ColumnEntries(c, DataCells(g, c))
    ensures Rank(c) >= n ==> Select(LoadPrefix(g, n).entries, c) == []
  {
    if n > 0 {
      var p := LoadPrefix(g, n - 1);
      var d := EXPENSE_CATEGORIES[n - 1];
      var q := LoadCells(d, DataCells(g, d));
      assert p.complete;
      LoadPrefixNext(g, n - 1, p.entries);
      LoadPrefixSelect(g, n - 1, c);
      SelectAppend(p.entries, q.entries, c);
      NextColumnSelect(g, n, c);
    }
  }

  /** The entries the `n`-th category's column adds to a complete reload:
      all of that category's, none of any other. */
  lemma NextColumnSelect(g: Grid, n: nat, c: Category)
    requires 0 < n <= |EXPENSE_CATEGORIES|
    requires LoadPrefix(g, n).complete
    ensures var d := EXPENSE_CATEGORIES[n - 1];
      var q := LoadCells(d, DataCells(g, d));
      q.complete
      && (c == d ==> AllNumbers(DataCells(g, c)) && Select(q.entries, c) == ColumnEntries(c, DataCells(g, c))
                     && Select(LoadPrefix(g, n - 1).entries, c) == [])
      && (c != d ==> Select(q.entries, c) == [])
      && (c == d <==> Rank(c) == n - 1)
  {
    var p := LoadPrefix(g, n - 1);
    var d := EXPENSE_CATEGORIES[n - 1];
    var q := LoadCells(d, DataCells(g, d));
    assert p.complete;
    LoadPrefixNext(g, n - 1, p.entries);
    RankAt(n - 1);
    RankInjective(c, d);
    LoadCellsMeaning(d, DataCells(g, d));
    SelectUniform(q.entries, d, c);
    if c == d {
      LoadPrefixGrouped(g, n - 1);
      SelectBelowRank(p.entries, c);
    }
  }

  /** What the reload of the expense worksheet promises: it reads to the end
      exactly when every non-blank data cell is a number; it yields entries
      grouped in table order; and then each category's entries are exactly
      one per non-blank data cell of its column, top to bottom. */
  lemma LoadMeaning(g: Grid)
    ensures Load(g).complete <==> forall c :: AllNumbers(DataCells(g, c))
    ensures Grouped(Load(g).entries)
    ensures Load(g).complete ==> forall c :: Select(Load(g).entries, c) == ColumnEntries(c, DataCells(g, c))
  {
    TableOrder();
    LoadPrefixComplete(g, |EXPENSE_CATEGORIES|);
    if ColumnsAreNumbers(g, |EXPENSE_CATEGORIES|) {
      forall c ensures AllNumbers(DataCells(g, c)) {
        assert AllNumbers(DataCells(g, EXPENSE_CATEGORIES[Rank(c)]));
      }
    }
    LoadPrefixGrouped(g, |EXPENSE_CATEGORIES|);
    if Load(g).complete {
      forall c ensures Select(Load(g).entries, c) == ColumnEntries(c, DataCells(g, c)) {
        LoadPrefixSelect(g, |EXPENSE_CATEGORIES|, c);
      }
    }
  }

  /** Two grouped mirrors that agree category by category are the same
      mirror: grouping fixes the order across categories, and each
      category's entries fix the order within it. */
  lemma {:induction false} SameSelectionsSameMirror(a: seq<Entry>, b: seq<Entry>)
    requires Grouped(a) && Grouped(b)
    requires forall c :: Select(a, c) == Select(b, c)
    ensures a == b
    decreases |a| + |b|
  {
    if a == [] && b == [] {
    } else if a == [] || b == [] {
      var m := if a == [] then b else a;
      SelectHead(m);
      assert false;
    } else {
      SameFirstEntry(a, b);
      TailsAgree(a, b);
      GroupedTail(a);
      GroupedTail(b);
      SameSelectionsSameMirror(a[1..], b[1..]);
    }
  }

  /** The first entry of a mirror heads its category's selection. */
  lemma SelectHead(m: seq<Entry>)
    requires m != []
    ensures Select(m, m[0].category) == [m[0]] + Select(m[1..], m[0].category)
  {
  }

  /** Selecting from the tail drops the head's contribution. */
  lemma SelectTail(m: seq<Entry>, c: Category)
    requires m != []
    ensures var h := if m[0].category == c then 1 else 0;
            h <= |Select(m, c)| && Select(m[1..], c) == Select(m, c)[h..]
  {
    var head := if m[0].category == c then [m[0]] else [];
    assert Select(m, c) == head + Select(m[1..], c);
  }

  /** Every selected entry is an entry of the mirror. */
  lemma {:induction false} SelectedOccurs(m: seq<Entry>, c: Category, i: nat)
    requires i < |Select(m, c)|
    ensures exists j :: 0 <= j < |m| && m[j] == Select(m, c)[i]
    decreases |m|
  {
    var head := if m[0].category == c then [m[0]] else [];
    if i < |head| {
      assert m[0] == Select(m, c)[i];
    } else {
      SelectedOccurs(m[1..], c, i - |head|);
      var j :| 0 <= j < |m[1..]| && m[1..][j] == Select(m[1..], c)[i - |head|];
      assert m[j + 1] == Select(m, c)[i];
    }
  }

  /** Two grouped mirrors that agree category by category start with the same entry. */
  lemma SameFirstEntry(a: seq<Entry>, b: seq<Entry>)
    requires a != [] && b != []
    requires Grouped(a) && Grouped(b)
    requires forall c :: Select(a, c) == Select(b, c)
    ensures a[0] == b[0]
  {
    var c := a[0].category;
    FirstRankIsLeast(a, b);
    FirstRankIsLeast(b, a);
    RankInjective(c, b[0].category);
    SelectHead(a);
    SelectHead(b);
    assert Select(a, c)[0] == a[0];
    assert Select(b, c)[0] == b[0];
  }

  /** In a grouped mirror the first entry has the least rank, so any category
      that occurs in a mirror agreeing with it ranks at least as high. */
  lemma FirstRankIsLeast(a: seq<Entry>, b: seq<Entry>)
    requires a != [] && b != [] && Grouped(b)
    requires Select(a, a[0].category) == Select(b, a[0].category)
    ensures Rank(b[0].category) <= Rank(a[0].category)
  {
    SelectHead(a);
    SelectedOccurs(b, a[0].category, 0);
    var j :| 0 <= j < |b| && b[j] == Select(b, a[0].category)[0];
    assert b[j].category == a[0].category;
  }

  /** Dropping the same first entry from two mirrors that agree category by
      category leaves two mirrors that still agree. */
  lemma TailsAgree(a: seq<Entry>, b: seq<Entry>)
    requires a != [] && b != [] && a[0] == b[0]
    requires forall c :: Select(a, c) == Select(b, c)
    ensures forall c :: Select(a[1..], c) == Select(b[1..], c)
  {
    forall c ensures Select(a[1..], c) == Select(b[1..], c) {
      SelectTail(a, c);
      SelectTail(b, c);
    }
  }

  lemma GroupedTail(m: seq<Entry>)
    requires m != [] && Grouped(m)
    ensures Grouped(m[1..])
  {
    assert forall i :: 0 <= i < |m| - 1 ==> m[1..][i] == m[i + 1];
  }

  /** The texts of the amounts of `m`, in order. */
  function RenderAll(m: seq<Entry>): (r: seq<string>)
    ensures |r| == |m|
    ensures forall i :: 0 <= i < |m| ==> r[i] == Render(m[i].amount)
  {
    seq(|m|, i requires 0 <= i < |m| => Render(m[i].amount))
  }

  /** Writing one entry's amount at the next free row of its category's column. */
  function AppendEntry(g: Grid, e: Entry): Grid
  {
    AppendAt(g, ExpenseColumn(e.category), Render(e.amount))
  }

  /** Appending each entry of `m`, in order, at the next free row of its
      category's column. */
  function AppendEntries(g: Grid, m: seq<Entry>): Grid
    decreases |m|
  {
    if m == [] then g
    else AppendEntry(AppendEntries(g, m[..|m| - 1]), m[|m| - 1])
  }

  /** Appending one more entry of a mirror. */
  lemma AppendEntriesNext(g: Grid, m: seq<Entry>, i: nat)
    requires i < |m|
    ensures AppendEntries(g, m[..i + 1]) == AppendEntry(AppendEntries(g, m[..i]), m[i])
  {
    assert m[..i + 1][..i] == m[..i];
  }

  /** The rewrite of the expense worksheet from mirror `m`: its header row is
      kept, everything else is cleared, and the entries are appended again. */
  function Rewrite(g: Grid, m: seq<Entry>): (r: Grid)
    ensures forall c :: ColValues(r, ExpenseColumn(c)) == Header(g, ExpenseColumn(c)) + RenderAll(Select(m, c))
    ensures forall i :: !(1 <= i <= 8) ==> ColValues(r, i) == Header(g, i)
  {
    RewrittenColumns(g, m);
    AppendEntries(InsertTopRow(Clear(g), RowValues(g, 1)), m)
  }

  /** Column `i`'s header cell, when the worksheet has a column `i`. */
  function Header(g: Grid, i: int): seq<string>
  {
    if 1 <= i <= |g| then [Cell(g, 1, i)] else []
  }

  /** After the header row is written back onto the cleared worksheet and the
      mirror appended, each category column is its header followed by that
      category's amounts in mirror order, and every other column is its
      header alone. */
  lemma RewrittenColumns(g: Grid, m: seq<Entry>)
    ensures var r := AppendEntries(InsertTopRow(Clear(g), RowValues(g, 1)), m);
      (forall c :: ColValues(r, ExpenseColumn(c)) == Header(g, ExpenseColumn(c)) + RenderAll(Select(m, c)))
      && (forall i :: !(1 <= i <= 8) ==> ColValues(r, i) == Header(g, i))
  {
    var base := InsertTopRow(Clear(g), RowValues(g, 1));
    assert forall i :: ColValues(base, i) == Header(g, i);
    forall c
      ensures ColValues(AppendEntries(base, m), ExpenseColumn(c)) == Header(g, ExpenseColumn(c)) + RenderAll(Select(m, c))
    {
      AppendEntriesColumn(base, m, c);
    }
    AppendEntriesOthers(base, m);
  }

  /** Appending one entry grows its category's column by its amount's text
      and no other column. */
  lemma AppendEntryColumns(g: Grid, e: Entry, c: Category)
    ensures ColValues(AppendEntry(g, e), ExpenseColumn(c))
         == ColValues(g, ExpenseColumn(c)) + RenderAll(if e.category == c then [e] else [])
    ensures forall i :: (i < 1 || i > 8) ==> ColValues(AppendEntry(g, e), i) == ColValues(g, i)
    ensures |g| >= 8 ==> |AppendEntry(g, e)| == |g|
  {
    ExpenseColumnsDistinct(e.category, c);
    ExpenseColumnsDistinct(e.category, e.category);
  }

  lemma RenderAllAppend(a: seq<Entry>, b: seq<Entry>)
    ensures RenderAll(a + b) == RenderAll(a) + RenderAll(b)
  {
  }

  /** Appending a mirror grows each category's column by the texts of that
      category's amounts, in mirror order. */
  lemma {:induction false} AppendEntriesColumn(g: Grid, m: seq<Entry>, c: Category)
    ensures ColValues(AppendEntries(g, m), ExpenseColumn(c)) == ColValues(g, ExpenseColumn(c)) + RenderAll(Select(m, c))
    decreases |m|
  {
    if m != [] {
      var init, e := m[..|m| - 1], m[|m| - 1];
      var p := AppendEntries(g, init);
      var k := ExpenseColumn(c);
      var mine := if e.category == c then [e] else [];
      AppendEntriesColumn(g, init, c);
      AppendEntryColumns(p, e, c);
      SelectSnoc(m, c);
      RenderAllAppend(Select(init, c), mine);
      ConcatAssoc(ColValues(g, k), RenderAll(Select(init, c)), RenderAll(mine));
      calc {
        ColValues(AppendEntries(g, m), k);
        ColValues(AppendEntry(p, e), k);
        ColValues(p, k) + RenderAll(mine);
        (ColValues(g, k) + RenderAll(Select(init, c))) + RenderAll(mine);
        ColValues(g, k) + (RenderAll(Select(init, c)) + RenderAll(mine));
        ColValues(g, k) + RenderAll(Select(m, c));
      }
    }
  }

  lemma ConcatAssoc<T>(a: seq<T>, b: seq<T>, c: seq<T>)
    ensures (a + b) + c == a + (b + c)
  {
  }

  /** Selecting from a mirror with one more entry at its end. */
  lemma SelectSnoc(m: seq<Entry>, c: Category)
    requires m != []
    ensures Select(m, c) == Select(m[..|m| - 1], c) + (if m[|m| - 1].category == c then [m[|m| - 1]] else [])
  {
    SnocSplit(m);
    SelectAppend(m[..|m| - 1], [m[|m| - 1]], c);
  }

  lemma SnocSplit(m: seq<Entry>)
    requires m != []
    ensures m == m[..|m| - 1] + [m[|m| - 1]]
  {
  }

  /** Appending a mirror touches no column outside the categories' and, on a
      worksheet at least as wide as the categories, keeps its width. */
  lemma {:induction false} AppendEntriesOthers(g: Grid, m: seq<Entry>)
    ensures forall i :: (i < 1 || i > 8) ==> ColValues(AppendEntries(g, m), i) == ColValues(g, i)
    ensures |g| >= 8 ==> |AppendEntries(g, m)| == |g|
    decreases |m|
  {
    if m != [] {
      AppendEntriesOthers(g, m[..|m| - 1]);
      AppendEntryColumns(AppendEntries(g, m[..|m| - 1]), m[|m| - 1], m[|m| - 1].category);
    }
  }

  /** The rewrite keeps the header row, leaves each category column holding
      its header and then the texts of that category's amounts in mirror
      order, and leaves columns right of the categories holding their header
      only. */
  lemma RewriteColumns(g: Grid, m: seq<Entry>)
    requires |g| >= 8
    ensures RowValues(Rewrite(g, m), 1) == RowValues(g, 1)
    ensures forall c :: ColValues(Rewrite(g, m), ExpenseColumn(c)) == [Cell(g, 1, ExpenseColumn(c))] + RenderAll(Select(m, c))
    ensures forall i :: 8 < i <= |g| ==> ColValues(Rewrite(g, m), i) == [Cell(g, 1, i)]
  {
    var r := Rewrite(g, m);
    AppendEntriesOthers(InsertTopRow(Clear(g), RowValues(g, 1)), m);
    assert |r| == |g|;
    forall c ensures ColValues(r, ExpenseColumn(c)) == [Cell(g, 1, ExpenseColumn(c))] + RenderAll(Select(m, c)) {
      ExpenseColumnsDistinct(c, c);
    }
    forall i | 1 <= i <= |g| ensures Cell(r, 1, i) == Cell(g, 1, i) {
      if i <= 8 {
        RankAt(i - 1);
        assert ExpenseColumn(EXPENSE_CATEGORIES[i - 1]) == i;
      }
    }
  }

  /** A category's rendered amounts read back as exactly those entries. */
  lemma {:induction false} ColumnEntriesRendered(c: Category, m: seq<Entry>)
    requires forall i :: 0 <= i < |m| ==> m[i].category == c
    ensures AllNumbers(RenderAll(m))
    ensures ColumnEntries(c, RenderAll(m)) == m
    decreases |m|
  {
    forall i | 0 <= i < |m| ensures !IsBlank(RenderAll(m)[i]) && Parse(RenderAll(m)[i]) == Some(m[i].amount) {
      RenderNotBlank(m[i].amount);
      ParseRender(m[i].amount);
    }
    if m != [] {
      assert RenderAll(m)[1..] == RenderAll(m[1..]);
      ColumnEntriesRendered(c, m[1..]);
    }
  }

  /** Rewriting the worksheet from a grouped mirror and reloading it gives
      back that mirror, read to the end, provided the worksheet is at least
      eight columns wide. */
  lemma RewriteThenLoad(g: Grid, m: seq<Entry>)
    requires Grouped(m) && |g| >= 8
    ensures Load(Rewrite(g, m)) == Loaded(m, true)
  {
    var r := Rewrite(g, m);
    RewriteColumns(g, m);
    forall c
      ensures AllNumbers(DataCells(r, c))
      ensures ColumnEntries(c, DataCells(r, c)) == Select(m, c)
    {
      assert DataCells(r, c) == RenderAll(Select(m, c));
      ColumnEntriesRendered(c, Select(m, c));
    }
    LoadMeaning(r);
    SameSelectionsSameMirror(Load(r).entries, m);
  }

  /** `list.pop(i)`: the mirror without its `i`-th entry. */
  function RemoveAt(m: seq<Entry>, i: nat): (r: seq<Entry>)
    requires i < |m|
    ensures |r| == |m| - 1
    ensures forall j :: 0 <= j < i ==> r[j] == m[j]
    ensures forall j :: i <= j < |r| ==> r[j] == m[j + 1]
  {
    m[..i] + m[i + 1..]
  }

  /** Removing one entry keeps the mirror grouped. */
  lemma RemoveAtKeepsGrouping(m: seq<Entry>, i: nat)
    requires i < |m| && Grouped(m)
    ensures Grouped(RemoveAt(m, i))
  {
    var r := RemoveAt(m, i);
    forall a, b | 0 <= a < b < |r| ensures Rank(r[a].category) <= Rank(r[b].category) {
      var a', b' := if a < i then a else a + 1, if b < i then b else b + 1;
      assert r[a] == m[a'] && r[b] == m[b'];
    }
  }

  /** `after` is `before`, read to the end, with `e` inserted at position `p`. */
  ghost predicate InsertedAt(before: Loaded, after: Loaded, p: nat, e: Entry)
  {
    p <= |before.entries| && after == Loaded(before.entries[..p] + [e] + before.entries[p..], true)
  }

  /** Where a reload places a new entry of category `c` that the reload
      before did not see: after the entries of every category up to `c` in
      table order. */
  function InsertionPoint(g: Grid, c: Category): nat
  {
    |LoadPrefix(g, Rank(c) + 1).entries|
  }

  /** A reload after appending amount `a` to category `c`'s column (which has
      its header cell) reads to the end whenever the reload before did, and
      finds one more entry: the new one, placed right after the entries of
      the categories up to `c` in table order. */
  lemma AppendThenLoad(g: Grid, c: Category, a: int)
    requires Load(g).complete
    requires ColValues(g, ExpenseColumn(c)) != []
    ensures InsertedAt(Load(g), Load(AppendEntry(g, Entry(a, c))), InsertionPoint(g, c), Entry(a, c))
  {
    LoadPrefixAfterAppend(g, c, a, |EXPENSE_CATEGORIES|);
  }

  lemma AppendedDataCells(g: Grid, c: Category, v: string)
    requires ColValues(g, ExpenseColumn(c)) != []
    ensures DataCells(AppendAt(g, ExpenseColumn(c), v), c) == DataCells(g, c) + [v]
    ensures forall d :: d != c ==> DataCells(AppendAt(g, ExpenseColumn(c), v), d) == DataCells(g, d)
  {
    var col := ColValues(g, ExpenseColumn(c));
    assert (col + [v])[1..] == col[1..] + [v];
    forall d | d != c ensures ExpenseColumn(d) != ExpenseColumn(c) {
      ExpenseColumnsDistinct(c, d);
    }
  }

  lemma {:induction false} LoadPrefixAfterAppend(g: Grid, c: Category, a: int, n: nat)
    requires n <= |EXPENSE_CATEGORIES| && Load(g).complete
    requires ColValues(g, ExpenseColumn(c)) != []
    ensures LoadPrefix(g, n).complete
    ensures n <= Rank(c) ==> LoadPrefix(AppendAt(g, ExpenseColumn(c), Render(a)), n) == LoadPrefix(g, n)
    ensures n > Rank(c) ==> InsertedAt(LoadPrefix(g, n), LoadPrefix(AppendAt(g, ExpenseColumn(c), Render(a)), n),
                                      |LoadPrefix(g, Rank(c) + 1).entries|, Entry(a, c))
    decreases n
  {
    if !LoadPrefix(g, n).complete {
      LoadPrefixStops(g, n, |EXPENSE_CATEGORIES|);
      assert false;
    }
    if n > 0 {
      TableOrder();
      LoadPrefixAfterAppend(g, c, a, n - 1);
      AppendedDataCells(g, c, Render(a));
      var d := EXPENSE_CATEGORIES[n - 1];
      if d == c {
        AppendedCategory(g, c, a);
      } else if n - 1 > Rank(c) {
        LaterCategory(g, AppendAt(g, ExpenseColumn(c), Render(a)), n, |LoadPrefix(g, Rank(c) + 1).entries|, Entry(a, c));
      }
    }
  }

  lemma AppendedCategory(g: Grid, c: Category, a: int)
    requires ColValues(g, ExpenseColumn(c)) != []
    requires LoadPrefix(g, Rank(c) + 1).complete
    requires LoadPrefix(AppendAt(g, ExpenseColumn(c), Render(a)), Rank(c)) == LoadPrefix(g, Rank(c))
    ensures InsertedAt(LoadPrefix(g, Rank(c) + 1), LoadPrefix(AppendAt(g, ExpenseColumn(c), Render(a)), Rank(c) + 1),
                       |LoadPrefix(g, Rank(c) + 1).entries|, Entry(a, c))
  {
    var r := Rank(c);
    var g' := AppendAt(g, ExpenseColumn(c), Render(a));
    var x := Entry(a, c);
    TableOrder();
    assert EXPENSE_CATEGORIES[r] == c;
    AppendedDataCells(g, c, Render(a));
    var cells := DataCells(g, c);
    var q := LoadCells(c, cells);
    var cells' := cells + [Render(a)];
    assert cells'[..|cells'| - 1] == cells;
    RenderNotBlank(a);
    ParseRender(a);
    assert LoadCells(c, cells') == Loaded(q.entries + [x], true);
    var e := LoadPrefix(g, r).entries;
    assert LoadPrefix(g, r).complete;
    LoadPrefixNext(g, r, e);
    LoadPrefixNext(g', r, e);
    AppendAtEnd(e, q.entries, x);
  }

  /** Adding at the end is inserting at the end. */
  lemma AppendAtEnd(e: seq<Entry>, q: seq<Entry>, x: Entry)
    ensures var all := e + q; all[..|all|] + [x] + all[|all|..] == e + (q + [x])
  {
    var all := e + q;
    assert all[..|all|] == all && all[|all|..] == [];
  }

  lemma LaterCategory(g: Grid, g': Grid, n: nat, p: nat, x: Entry)
    requires 0 < n <= |EXPENSE_CATEGORIES| && LoadPrefix(g, n).complete
    requires DataCells(g', EXPENSE_CATEGORIES[n - 1]) == DataCells(g, EXPENSE_CATEGORIES[n - 1])
    requires InsertedAt(LoadPrefix(g, n - 1), LoadPrefix(g', n - 1), p, x)
    ensures InsertedAt(LoadPrefix(g, n), LoadPrefix(g', n), p, x)
  {
    var e := LoadPrefix(g, n - 1).entries;
    var d := EXPENSE_CATEGORIES[n - 1];
    var q := LoadCells(d, DataCells(g, d));
    assert LoadPrefix(g, n - 1).complete;
    LoadPrefixNext(g, n - 1, e);
    LoadPrefixNext(g', n - 1, e[..p] + [x] + e[p..]);
    InsertThenAppend(e, q.entries, p, x);
  }

  /** Inserting before appending is inserting into the longer sequence. */
  lemma InsertThenAppend(e: seq<Entry>, q: seq<Entry>, p: nat, x: Entry)
    requires p <= |e|
    ensures (e + q)[..p] + [x] + (e + q)[p..] == e[..p] + [x] + e[p..] + q
  {
    assert (e + q)[..p] == e[..p];
    assert (e + q)[p..] == e[p..] + q;
  }

  /** Appending to a category column that has no cell at all writes row 1,
      which a reload takes for the header: the reload is unchanged. */
  lemma AppendToEmptyColumn(g: Grid, c: Category, v: string)
    requires ColValues(g, ExpenseColumn(c)) == []
    ensures Load(AppendAt(g, ExpenseColumn(c), v)) == Load(g)
  {
    var g' := AppendAt(g, ExpenseColumn(c), v);
    forall d ensures DataCells(g', d) == DataCells(g, d) {
      ExpenseColumnsDistinct(c, d);
    }
    LoadSeesOnlyDataCells(g, g', |EXPENSE_CATEGORIES|);
  }

  lemma {:induction false} LoadSeesOnlyDataCells(g: Grid, g': Grid, n: nat)
    requires n <= |EXPENSE_CATEGORIES|
    requires forall d :: DataCells(g', d) == DataCells(g, d)
    ensures LoadPrefix(g', n) == LoadPrefix(g, n)
  {
    if n > 0 {
      LoadSeesOnlyDataCells(g, g', n - 1);
      var c := EXPENSE_CATEGORIES[n - 1];
      assert DataCells(g', c) == DataCells(g, c);
    }
  }
}
