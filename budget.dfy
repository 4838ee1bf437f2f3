/** The budget manager: the expense mirror kept beside the two worksheets,
    and the operations of the program's menu that read and change them. */
module Budget {

  import opened Wrappers
  import opened Sheets
  import opened Amounts
  import opened Categories
  import opened Mirror

  /** How an attempt to add an expense or an income ended. */
  datatype AddOutcome = Added | InvalidAmount | InvalidCategory

  /** How an attempt to remove an expense ended. `NoAnswer` stands for the
      prompt still waiting: every answer given so far was neither 'y' nor 'n'. */
  datatype RemoveOutcome =
    | NothingToRemove
    | NotANumber
    | InvalidSelection
    | Cancelled
    | Removed(entry: Entry)
    | NoAnswer

  /** How many of the most recent expenses the listing shows. */
  const LISTED := 10

  function Min(a: int, b: int): int
  {
    if a < b then a else b
  }

  /** `str.lower()` on one character, for ASCII letters. */
  function LowerChar(c: char): char
  {
    if 'A' <= c <= 'Z' then (c as int + 32) as char else c
  }

  /** `str.lower()`, for ASCII letters. */
  function Lower(s: string): (r: string)
    ensures |r| == |s|
    ensures forall i :: 0 <= i < |s| ==> r[i] == LowerChar(s[i])
  {
    seq(|s|, i requires 0 <= i < |s| => LowerChar(s[i]))
  }

  /** Exactly "y" and "Y" confirm, exactly "n" and "N" decline. */
  lemma LowerAnswers(s: string)
    ensures Lower(s) == "y" <==> s == "y" || s == "Y"
    ensures Lower(s) == "n" <==> s == "n" || s == "N"
  {
    if |s| == 1 {
      assert Lower(s) == [LowerChar(s[0])];
    }
  }

  /** An answer the confirmation prompt accepts. */
  predicate Decisive(answer: string)
  {
    Lower(answer) == "y" || Lower(answer) == "n"
  }

  /** The outcome of the confirmation prompt over the answers typed, in
      order: the first decisive answer decides (`true` for 'y'); `None` when
      there is none. */
  function Decision(answers: seq<string>): (r: Option<bool>)
    ensures r.Some? ==>
      exists i :: 0 <= i < |answers| && Decisive(answers[i]) && r.value == (Lower(answers[i]) == "y")
    decreases |answers|
  {
    if answers == [] then None
    else if Lower(answers[0]) == "y" then Some(true)
    else if Lower(answers[0]) == "n" then Some(false)
    else Decision(answers[1..])
  }

  /** The confirmation prompt decides at answer `i` exactly when answer `i`
      is the first decisive one, and then it decides as that answer says. */
  lemma {:induction false} DecisionAt(answers: seq<string>, i: nat)
    requires i < |answers|
    ensures (Decisive(answers[i]) && forall j :: 0 <= j < i ==> !Decisive(answers[j]))
        ==> Decision(answers) == Some(Lower(answers[i]) == "y")
    decreases i
  {
    if i > 0 && Decisive(answers[i]) && forall j :: 0 <= j < i ==> !Decisive(answers[j]) {
      assert !Decisive(answers[0]);
      DecisionAt(answers[1..], i - 1);
    }
  }

  /** The prompt has no decision exactly when no answer is decisive. */
  lemma {:induction false} DecisionNone(answers: seq<string>)
    ensures Decision(answers).None? <==> forall j :: 0 <= j < |answers| ==> !Decisive(answers[j])
    decreases |answers|
  {
    if answers != [] {
      DecisionNone(answers[1..]);
      assert forall j :: 1 <= j < |answers| ==> answers[j] == answers[1..][j - 1];
    }
  }

  /** `expenses[-10:]`: the last ten entries of the mirror, or all of them
      when there are fewer. */
  function Recent(m: seq<Entry>): seq<Entry>
  {
    if |m| > LISTED then m[|m| - LISTED..] else m
  }

  /** What the listing shows: the recent entries, oldest first, numbered
      from 1 as `enumerate(..., start=1)` numbers them. */
  function Listing(m: seq<Entry>): (r: seq<(int, Entry)>)
    ensures |r| == Min(LISTED, |m|)
    ensures forall i :: 0 <= i < |r| ==> r[i] == (i + 1, m[|m| - |r| + i])
  {
    var recent := Recent(m);
    seq(|recent|, i requires 0 <= i < |recent| => (i + 1, recent[i]))
  }

  /** The listing numbers the recent entries from 1, while removal takes the
      selected number as a position in the whole mirror: listed number `k`
      is the entry removal takes for `k` when the mirror has at most ten
      entries, and otherwise it is the entry `|m| - 10` places further on. */
  lemma ListedNumberIsRemovedPosition(m: seq<Entry>, k: nat)
    requires 1 <= k <= |Listing(m)|
    ensures Listing(m)[k - 1].0 == k
    ensures |m| <= LISTED ==> Listing(m)[k - 1].1 == m[k - 1]
    ensures |m| > LISTED ==>
      Listing(m)[k - 1].1 == m[|m| - LISTED + k - 1] && |m| - LISTED + k - 1 != k - 1
  {
  }

  /** With eleven different entries, number 1 of the listing is the second
      entry, but selecting 1 for removal takes the first. */
  lemma ListedNumberOneOfEleven()
    ensures var m := seq(11, i => Entry(i, RentMortgage));
      Listing(m)[0].1 == m[1] && m[1] != m[0]
  {
  }

  class BudgetManager {

    /** The expense worksheet: one column per expense category. */
    var expenseSheet: Grid
    /** The income worksheet: one column per income category. */
    var incomeSheet: Grid
    /** The in-memory mirror of the expense worksheet. */
    var expenses: seq<Entry>

    /** The mirror is grouped by category in table order, as every reload
        leaves it. */
    ghost predicate Valid()
      reads this
    {
      Grouped(expenses)
    }

    /** The program's start: the worksheets as found, the mirror empty. */
    constructor(expenseSheet: Grid, incomeSheet: Grid)
      ensures this.expenseSheet == expenseSheet && this.incomeSheet == incomeSheet
      ensures expenses == []
      ensures Valid()
    {
      this.expenseSheet := expenseSheet;
      this.incomeSheet := incomeSheet;
      expenses := [];
    }

    /** Reloads the mirror from the expense worksheet: categories in table
        order, each column's data cells top to bottom, blank cells skipped;
        a cell that is not a number ends the reload with the entries read
        so far. */
    method LoadExpenses()
      modifies this
      ensures expenseSheet == old(expenseSheet) && incomeSheet == old(incomeSheet)
      ensures expenses == Load(expenseSheet).entries
      ensures Valid()
    {
      expenses := [];
      var ok := true;
      var k := 0;
      while k < |EXPENSE_CATEGORIES| && ok
        invariant 0 <= k <= |EXPENSE_CATEGORIES|
        invariant expenseSheet == old(expenseSheet) && incomeSheet == old(incomeSheet)
        invariant LoadPrefix(expenseSheet, k) == Loaded(expenses, ok)
      {
        ok := LoadCategory(k);
        k := k + 1;
      }
      LoadFinished(expenseSheet, k, expenses, ok);
    }

    /** One pass of the reload's outer loop: the `k`-th category's column,
        header dropped, is read into the mirror. */
    method LoadCategory(k: nat) returns (ok: bool)
      requires k < |EXPENSE_CATEGORIES|
      requires LoadPrefix(expenseSheet, k) == Loaded(expenses, true)
      modifies this
      ensures expenseSheet == old(expenseSheet) && incomeSheet == old(incomeSheet)
      ensures LoadPrefix(expenseSheet, k + 1) == Loaded(expenses, ok)
    {
      var category := EXPENSE_CATEGORIES[k];
      var columnIndex := ColumnToIndex(Letter(category));
      var values := ColValues(expenseSheet, columnIndex);
      var cells := if values == [] then [] else values[1..];
      assert cells == DataCells(expenseSheet, category);
      LoadPrefixNext(expenseSheet, k, expenses);
      ok := LoadColumn(category, cells);
    }

    /** The reload's inner loop over one column's data cells: each non-blank
        cell appends an entry of `category` to the mirror, and the first cell
        that is not a number stops it, reporting `false`. */
    method LoadColumn(category: Category, cells: seq<string>) returns (ok: bool)
      modifies this
      ensures expenseSheet == old(expenseSheet) && incomeSheet == old(incomeSheet)
      ensures expenses == old(expenses) + LoadCells(category, cells).entries
      ensures ok == LoadCells(category, cells).complete
    {
      ok := true;
      ghost var found := [];
      var j := 0;
      assert cells[..0] == [];
      while j < |cells| && ok
        invariant 0 <= j <= |cells|
        invariant expenseSheet == old(expenseSheet) && incomeSheet == old(incomeSheet)
        invariant expenses == old(expenses) + found
        invariant LoadCells(category, cells[..j]) == Loaded(found, ok)
      {
        var amount := cells[j];
        LoadCellsNext(category, cells, j);
        if !IsBlank(amount) {
          match Parse(amount)
          case None =>
            ok := false;
          case Some(a) =>
            expenses := expenses + [Entry(a, category)];
            found := found + [Entry(a, category)];
        }
        j := j + 1;
      }
      if ok {
        assert cells[..j] == cells;
      } else {
        LoadCellsStops(category, cells, j);
      }
    }

    /** Writes `amount` at the first free row of the named category's
        column; a name that is not an expense category changes nothing. */
    method UpdateExpenseSheet(category: string, amount: int)
      modifies this
      ensures expenses == old(expenses) && incomeSheet == old(incomeSheet)
      ensures CategoryNamed(category).None? ==> expenseSheet == old(expenseSheet)
      ensures CategoryNamed(category).Some? ==>
        expenseSheet == AppendEntry(old(expenseSheet), Entry(amount, CategoryNamed(category).value))
    {
      var column := CategoryNamed(category);
      if column.None? {
        return;
      }
      var columnIndex := ColumnToIndex(Letter(column.value));
      assert columnIndex == ExpenseColumn(column.value);
      var existingValues := ColValues(expenseSheet, columnIndex);
      var rowToUpdate := |existingValues| + 1;
      expenseSheet := UpdateCell(expenseSheet, rowToUpdate, columnIndex, Render(amount));
    }

    /** Adds an expense: the amount text is read first, then the menu key;
        either failing changes nothing. Otherwise the amount goes to the
        next free row of the category's column and the mirror is reloaded.
        When the old worksheet's reload was complete and the column has its
        header, the reloaded mirror is that old reload with the new entry
        inserted after the entries of the categories up to its own. */
    method AddExpense(amountText: string, key: string) returns (outcome: AddOutcome)
      requires Valid()
      modifies this
      ensures Valid()
      ensures incomeSheet == old(incomeSheet)
      ensures Parse(amountText).None? ==>
        outcome == InvalidAmount && expenseSheet == old(expenseSheet) && expenses == old(expenses)
      ensures Parse(amountText).Some? && ExpenseMenu(key).None? ==>
        outcome == InvalidCategory && expenseSheet == old(expenseSheet) && expenses == old(expenses)
      ensures Parse(amountText).Some? && ExpenseMenu(key).Some? ==>
        var e := Entry(Parse(amountText).value, ExpenseMenu(key).value);
        outcome == Added
        && expenseSheet == AppendEntry(old(expenseSheet), e)
        && expenses == Load(expenseSheet).entries
      ensures (Parse(amountText).Some? && ExpenseMenu(key).Some?
               && Load(old(expenseSheet)).complete
               && ColValues(old(expenseSheet), ExpenseColumn(ExpenseMenu(key).value)) != []) ==>
        var e := Entry(Parse(amountText).value, ExpenseMenu(key).value);
        InsertedAt(Load(old(expenseSheet)), Loaded(expenses, true), InsertionPoint(old(expenseSheet), e.category), e)
    {
      var parsed := Parse(amountText);
      if parsed.None? {
        return InvalidAmount;
      }
      var amount := parsed.value;
      var selected := ExpenseMenu(key);
      if selected.None? {
        return InvalidCategory;
      }
      var categoryName := Name(selected.value);
      CategoryNamedMeaning(categoryName, selected.value);
      ghost var before := expenseSheet;
      UpdateExpenseSheet(categoryName, amount);
      LoadExpenses();
      if Load(before).complete && ColValues(before, ExpenseColumn(selected.value)) != [] {
        AppendThenLoad(before, selected.value, amount);
      }
      return Added;
    }

    /** The expense handler's last step: the expense is added and the mirror
        reloaded once more, which leaves it as the single reload left it. */
    method AddExpenseAndReload(amountText: string, key: string) returns (outcome: AddOutcome)
      requires Valid()
      modifies this
      ensures Valid()
      ensures incomeSheet == old(incomeSheet)
      ensures outcome == Added <==> Parse(amountText).Some? && ExpenseMenu(key).Some?
      ensures outcome == Added ==>
        expenseSheet == AppendEntry(old(expenseSheet), Entry(Parse(amountText).value, ExpenseMenu(key).value))
      ensures outcome != Added ==> expenseSheet == old(expenseSheet)
      ensures expenses == Load(expenseSheet).entries
    {
      outcome := AddExpense(amountText, key);
      ghost var once := expenses;
      LoadExpenses();
      assert outcome == Added ==> expenses == once;
    }

    /** Writes `amount` at the first free row of the named income
        category's column; any other name changes nothing. */
    method UpdateIncomeSheet(category: string, amount: int)
      modifies this
      ensures expenses == old(expenses) && expenseSheet == old(expenseSheet)
      ensures IncomeColumn(category).None? ==> incomeSheet == old(incomeSheet)
      ensures IncomeColumn(category).Some? ==>
        incomeSheet == AppendAt(old(incomeSheet), IncomeColumn(category).value, Render(amount))
    {
      var column := IncomeColumn(category);
      if column.None? {
        return;
      }
      IncomeColumns(category);
      var columnIndex := column.value;
      var existingValues := ColValues(incomeSheet, columnIndex);
      var rowToUpdate := |existingValues| + 1;
      incomeSheet := UpdateCell(incomeSheet, rowToUpdate, columnIndex, Render(amount));
    }

    /** Adds an income: the amount text is read first, then the category
        name; either failing changes nothing. Otherwise the amount goes to
        the next free row of the category's column, which grows by exactly
        that cell. */
    method AddIncome(amountText: string, category: string) returns (outcome: AddOutcome)
      modifies this
      ensures expenses == old(expenses) && expenseSheet == old(expenseSheet)
      ensures Parse(amountText).None? ==> outcome == InvalidAmount && incomeSheet == old(incomeSheet)
      ensures Parse(amountText).Some? && IncomeColumn(category).None? ==>
        outcome == InvalidCategory && incomeSheet == old(incomeSheet)
      ensures Parse(amountText).Some? && IncomeColumn(category).Some? ==>
        var c := IncomeColumn(category).value;
        outcome == Added
        && 1 <= c <= 3
        && ColValues(incomeSheet, c) == ColValues(old(incomeSheet), c) + [Render(Parse(amountText).value)]
        && (forall c' :: c' != c ==> ColValues(incomeSheet, c') == ColValues(old(incomeSheet), c'))
    {
      var parsed := Parse(amountText);
      if parsed.None? {
        return InvalidAmount;
      }
      var amount := parsed.value;
      if IncomeColumn(category).None? {
        return InvalidCategory;
      }
      IncomeColumns(category);
      UpdateIncomeSheet(category, amount);
      return Added;
    }

    /** The listing: the last ten entries of the mirror (all of them when
        there are fewer), oldest first, numbered from 1. */
    method ListExpenses() returns (listing: seq<(int, Entry)>)
      ensures listing == Listing(expenses)
      ensures |listing| == Min(LISTED, |expenses|)
      ensures forall i :: 0 <= i < |listing| ==>
        listing[i] == (i + 1, expenses[|expenses| - |listing| + i])
    {
      var recent := if |expenses| > LISTED then expenses[|expenses| - LISTED..] else expenses;
      listing := [];
      for i := 0 to |recent|
        invariant |listing| == i
        invariant forall j :: 0 <= j < i ==> listing[j] == (j + 1, recent[j])
      {
        listing := listing + [(i + 1, recent[i])];
      }
      assert recent == Recent(expenses);
    }

    /** Rewrites the expense worksheet from the mirror: the header row is
        kept, everything else is cleared, and each entry is appended in
        mirror order at the next free row of its category's column. */
    method UpdateExpensesSheet()
      modifies this
      ensures expenses == old(expenses) && incomeSheet == old(incomeSheet)
      ensures expenseSheet == Rewrite(old(expenseSheet), expenses)
    {
      var headers := RowValues(expenseSheet, 1);
      expenseSheet := Clear(expenseSheet);
      expenseSheet := InsertTopRow(expenseSheet, headers);
      ghost var base := expenseSheet;
      for i := 0 to |expenses|
        invariant expenses == old(expenses) && incomeSheet == old(incomeSheet)
        invariant expenseSheet == AppendEntries(base, expenses[..i])
      {
        var expense := expenses[i];
        var columnIndex := ColumnToIndex(Letter(expense.category));
        assert columnIndex == ExpenseColumn(expense.category);
        var existingValues := ColValues(expenseSheet, columnIndex);
        var rowToUpdate := |existingValues| + 1;
        AppendEntriesNext(base, expenses, i);
        expenseSheet := UpdateCell(expenseSheet, rowToUpdate, columnIndex, Render(expense.amount));
      }
      assert expenses[..|expenses|] == expenses;
    }

    /** Removes an expense chosen by its position in the whole mirror,
        counted from 1, after a 'y' to the confirmation prompt; `selection`
        is the text typed at the selection prompt and `answers` the texts
        typed at the confirmation prompt, in order. On removal the worksheet
        is rewritten from the shortened mirror, and a reload of it then
        gives back exactly that mirror. */
    method RemoveExpense(selection: string, answers: seq<string>) returns (outcome: RemoveOutcome)
      requires Valid()
      modifies this
      ensures Valid()
      ensures incomeSheet == old(incomeSheet)
      ensures old(expenses) == [] ==> outcome == NothingToRemove
      ensures old(expenses) != [] && ParseInt(selection).None? ==> outcome == NotANumber
      ensures (old(expenses) != [] && ParseInt(selection).Some?
               && !(1 <= ParseInt(selection).value <= |old(expenses)|)) ==> outcome == InvalidSelection
      ensures (old(expenses) != [] && ParseInt(selection).Some? && 1 <= ParseInt(selection).value <= |old(expenses)|) ==>
        var i := ParseInt(selection).value - 1;
        match Decision(answers)
        case None => outcome == NoAnswer
        case Some(false) => outcome == Cancelled
        case Some(true) => outcome == Removed(old(expenses)[i]) && expenses == RemoveAt(old(expenses), i)
      ensures !outcome.Removed? ==> expenses == old(expenses) && expenseSheet == old(expenseSheet)
      ensures outcome.Removed? ==> expenseSheet == Rewrite(old(expenseSheet), expenses)
      ensures outcome.Removed? && |old(expenseSheet)| >= |EXPENSE_CATEGORIES| ==>
        Load(expenseSheet) == Loaded(expenses, true)
    {
      if expenses == [] {
        return NothingToRemove;
      }
      var parsed := ParseInt(selection);
      if parsed.None? {
        return NotANumber;
      }
      var number := parsed.value;
      if number < 1 || number > |expenses| {
        return InvalidSelection;
      }
      var selected := expenses[number - 1];
      var i := 0;
      while i < |answers|
        invariant 0 <= i <= |answers|
        invariant Decision(answers) == Decision(answers[i..])
      {
        var confirmation := Lower(answers[i]);
        assert answers[i..][1..] == answers[i + 1..];
        if confirmation == "y" {
          RemoveAtKeepsGrouping(expenses, number - 1);
          expenses := RemoveAt(expenses, number - 1);
          UpdateExpensesSheet();
          TableOrder();
          if |old(expenseSheet)| >= |EXPENSE_CATEGORIES| {
            RewriteThenLoad(old(expenseSheet), expenses);
          }
          return Removed(selected);
        } else if confirmation == "n" {
          return Cancelled;
        }
        i := i + 1;
      }
      return NoAnswer;
    }
  }
}
