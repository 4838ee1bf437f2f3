# Personal Budget Manager — expense ledger model

This project models the ledger at the core of the Personal Budget Manager, whose code is in `run.py`. The program keeps its expenses in a spreadsheet worksheet, `expenses`, with one column per category and a header in row 1. It keeps its income in a second worksheet, `income`. Beside the worksheets it holds an in-memory list, the *mirror*, of every expense read from the expense worksheet. The model covers:

- **the category tables**: the menu keys "1" to "8" and the names of the eight expense categories, the column letter of each category (A to H), the three income categories (Salary, Freelance, Misc: columns A to C), and `column_to_index`;
- **the reload** (`loadExpenses`): the mirror is cleared. Each category column is then read in table order, top to bottom, skipping the header and blank cells. The first cell that is not a number ends the reload, and the entries read so far are kept;
- **adding** an expense (`addExpense` / `updateExpenseSheet`, then the handler's second reload) or an income (`addIncome` / `updateIncomeSheet`). The amount is written at the row below the last cell of the category's column;
- **listing** the last ten expenses, numbered from 1 (`listExpenses`);
- **removing** an expense (`removeExpense` / `updateExpensesSheet`). The selection is a position in the whole mirror. A y/n prompt asks again until it gets `y` or `n`. After `list.pop`, the expense worksheet is rewritten: the header is kept, everything else is cleared, and each remaining entry is appended to its column in mirror order.

How the model represents these:

- **Worksheets** are values of type `Sheets.Grid`, a sequence of columns of cell texts. The worksheet calls become pure functions over grids: `col_values`, `row_values`, `update_cell`, `clear` and `insert_row`.
- **Amounts** are whole cents (`int`). `Amounts.Parse` reads a text the way `float()` does, for plain decimals with at most two fractional digits. `Amounts.Render` is the text a written amount has in its cell.
- **Categories.** An expense category is the enumeration `Categories.Category`. Its name, letter and position in the table are functions of it.
- **The program state** is the class `Budget.BudgetManager`. Its fields are the two worksheets and the mirror. Its methods follow the source's functions and loops.

Along the way the model proves:

- a reload yields the mirror grouped by category in table order;
- it reads to the end exactly when every non-blank data cell is a number;
- it then holds exactly one entry per such cell;
- rewriting a worksheet that has all eight category columns from any grouped mirror, and reloading it, gives that mirror back;
- adding an expense, when the reload of the worksheet before was complete and the category column already had its header cell, inserts exactly the new entry into that reload, after the entries of the categories up to its own. Without those conditions the new entry can be missing from the reload: a column with no cells takes the new amount as its header (`Mirror.AppendToEmptyColumn`), and a bad cell in an earlier column ends the reload before it gets there;
- listed number `k` shows the entry removal takes for `k` when the mirror has at most ten entries; with more, it shows the entry `|m| - 10` places further on.

User input is modelled as method parameters. The amount, the menu key and the selection are texts. The confirmation prompt's answers are a sequence of texts.

Two behaviours of the program worth knowing:

- A number chosen for removal is a position in the whole mirror, not in the listing of the last ten. `Budget.ListedNumberIsRemovedPosition` states which entry each listed number shows and which one removal takes, and `Budget.ListedNumberOneOfEleven` gives a mirror where they differ.
- After an append, the mirror is reloaded from the worksheet rather than extended in place.

## Model

| member | source | states |
|---|---|---|
| Categories.TableOrder | run.py:43-52 | the expense table lists the eight categories once each, in the order Rent/Mortgage … Miscellaneous; the position of each category in the table is its rank |
| Categories.RankInjective | run.py:43-52 | two categories have the same place in the table exactly when they are the same category |
| Categories.ColumnToIndexOfLetters | run.py:187-191 | `column_to_index` sends letters A..Z to columns 1..26, ignores case, and gives two letters the same column exactly when they agree ignoring case |
| Categories.ExpenseColumn | run.py:160-169 | the column of an expense category is its letter's column: its place in the table plus one |
| Categories.ExpenseColumnsDistinct | run.py:160-169 | the eight expense categories use eight different columns, all between 1 and 8 |
| Categories.FindNamed | run.py:172 | the category found for a name is in the searched list and has that name; when none is found, no category in the list has that name |
| Categories.CategoryNamedMeaning | run.py:160-174 | the expense table's lookup finds each category by its own name and finds something exactly for the eight category names |
| Categories.IndexOf | run.py:139 | the position found holds the key, and no earlier pair has it |
| Categories.Lookup | run.py:139-143 | a lookup succeeds exactly when the key is in the table, and returns the value paired with it |
| Categories.ExpenseMenuDomain | run.py:128-139 | exactly the keys "1" to "8" select an expense category; any other key is refused |
| Categories.ExpenseMenuSelects | run.py:128-137 | key `k+1` selects the `k`-th category of the table |
| Categories.IncomeColumns | run.py:77-83 | exactly Salary, Freelance and Misc have income columns, and they are columns 1, 2 and 3 |
| Categories.IncomeMenuKeys | run.py:294-303 | exactly the keys "1" to "3" select an income category, naming Salary, Freelance and Misc |
| Amounts.Parse | run.py:60-62 | `float()` on a cell or an amount typed: a blank text is never a number |
| Amounts.ParseInt | run.py:217 | `int()` on the selection typed: a blank text is never a number |
| Amounts.LeadingSpaces | run.py:60 | the count of leading whitespace characters: all of them are whitespace and the next one is not |
| Amounts.BlankIffAllSpace | run.py:60 | `amount.strip()` is empty exactly when every character of the cell is whitespace |
| Amounts.ParseRender | run.py:62 | reading back the text of a written amount gives that amount |
| Amounts.RenderNotBlank | run.py:60 | the text of a written amount is never taken for a blank cell |
| Amounts.ParseIntText | run.py:217 | `int()` reads back the decimal text of every integer |
| Amounts.ParseIntIsWholeAmount | run.py:217 | a text that `int()` reads as `n` is read as the amount of `n` whole units |
| Amounts.NatDigitsValue | run.py:62 | the decimal digits of a natural number read back as that number |
| Sheets.AppendAt | run.py:177-180 | writing at "length of the column + 1" grows that column by exactly the new cell and changes no other column |
| Sheets.UpdateCell | run.py:180 | `update_cell` sets the one cell, fills any rows between with blanks, and leaves every other column unchanged |
| Sheets.RowCrossesColumn | run.py:250 | `row_values` and `col_values` see the same cell where the row and the column cross |
| Sheets.InsertTopRow | run.py:252 | `insert_row(values, 1)`: row 1 holds the values, blank past their end, and every old cell moves down one row |
| Sheets.Clear | run.py:251 | a cleared worksheet has no cell in any column |
| Mirror.LoadCells | run.py:59-64 | every entry a column's reload yields has that column's category |
| Mirror.LoadCellsMeaning | run.py:59-64 | a column's reload reads to the end exactly when all its non-blank data cells are numbers, and then yields one entry per such cell, top to bottom |
| Mirror.LoadCellsStops | run.py:54-66 | once a bad cell has stopped a column's reload, later cells add nothing |
| Mirror.LoadPrefixStops | run.py:54-66 | once a column has stopped the reload, later columns add nothing |
| Mirror.LoadPrefixGrouped | run.py:55-64 | the reload of the first `n` categories yields only those categories, grouped in table order |
| Mirror.LoadPrefixComplete | run.py:54-66 | the reload of the first `n` categories reads to the end exactly when all their non-blank data cells are numbers |
| Mirror.LoadFinished | run.py:54-66 | wherever the reload's outer loop stops, after the last category or at a bad cell, it holds the whole reload, grouped |
| Mirror.Load | run.py:37-66 | the reload of the expense worksheet is grouped by category in table order |
| Mirror.LoadMeaning | run.py:37-66 | a reload reads to the end exactly when every non-blank data cell is a number; it is grouped in table order; and then each category's entries are the numbers of its column's non-blank data cells, top to bottom |
| Mirror.Select | run.py:265-267 | selecting one category's entries keeps only entries of that category, and no more than there were |
| Mirror.SelectAppend | run.py:265-271 | selecting from two mirrors joined is joining the selections |
| Mirror.SameSelectionsSameMirror | run.py:55-64 | two grouped mirrors that agree category by category are equal |
| Mirror.ColumnEntriesRendered | run.py:59-64 | the texts written for one category's entries are all numbers and read back as exactly those entries, in order |
| Mirror.AppendEntriesColumn | run.py:265-271 | appending a mirror to a worksheet appends to each category column the texts of that category's entries, in mirror order |
| Mirror.AppendEntriesOthers | run.py:265-271 | appending a mirror changes no column outside the eight category columns |
| Mirror.Rewrite | run.py:248-271 | after the rewrite, each category column is its old header (if the worksheet had that column) followed by the texts of that category's entries in mirror order, and every other column is its old header alone |
| Mirror.RewriteColumns | run.py:248-271 | for a worksheet at least eight columns wide: after the rewrite the header row is the old one, each category column is its old header followed by the texts of that category's entries in mirror order, and every other column holds only its header |
| Mirror.RewriteThenLoad | run.py:244-273 | rewriting the worksheet from a grouped mirror and reloading it gives back exactly that mirror, read to the end, when every category column had a header |
| Mirror.RemoveAt | run.py:231 | `list.pop(i)` keeps the entries before `i`, shifts the later ones down by one, and is one shorter |
| Mirror.RemoveAtKeepsGrouping | run.py:231 | removing one entry keeps a grouped mirror grouped |
| Mirror.AppendThenLoad | run.py:145-146 | after appending amount `a` to a category column that has its header, a complete reload stays complete and gains exactly the new entry, inserted after the entries of the categories up to its own |
| Mirror.AppendToEmptyColumn | run.py:177-180 | appending to a column with no cell at all writes row 1, which the reload treats as the header: the reload is unchanged |
| Mirror.LoadSeesOnlyDataCells | run.py:55-59 | two worksheets whose category columns have the same data cells reload to the same result |
| Budget.LowerAnswers | run.py:228-237 | an answer confirms exactly when it is "y" or "Y", and declines exactly when it is "n" or "N" |
| Budget.Decision | run.py:227-241 | when the prompt is decided, some answer is `y` or `n` (either case), and the decision is what that answer says |
| Budget.DecisionAt | run.py:227-241 | the prompt is decided by the first answer that is `y` or `n` (either case), as that answer says |
| Budget.DecisionNone | run.py:227-241 | the prompt stays undecided exactly when no answer is `y` or `n` |
| Budget.Listing | run.py:194-201 | the listing holds the last `min(10, n)` entries of the mirror, oldest first, the `i`-th numbered `i + 1` |
| Budget.ListedNumberIsRemovedPosition | run.py:199-226 | listed number `k` shows entry `k - 1` of the mirror, the entry removal takes for `k`, when the mirror has at most ten entries; with more it shows entry `n - 10 + k - 1`, a different position |
| Budget.ListedNumberOneOfEleven | run.py:199-226 | with eleven different entries, number 1 of the listing is the second entry, while removal of 1 takes the first |
| Budget.BudgetManager.constructor | run.py:34 | the program starts with the worksheets as found and an empty, grouped mirror |
| Budget.BudgetManager.LoadExpenses | run.py:37-66 | the mirror becomes exactly the reload of the expense worksheet, grouped; the worksheets are unchanged |
| Budget.BudgetManager.LoadCategory | run.py:55-64 | one pass of the outer loop extends the mirror by the reload of the next category's column |
| Budget.BudgetManager.LoadColumn | run.py:59-64 | the inner loop appends the entries of one column's reload, and reports whether it read to the end |
| Budget.BudgetManager.UpdateExpenseSheet | run.py:156-184 | an expense category name gets the amount written at the next free row of its column; any other name changes nothing |
| Budget.BudgetManager.AddExpense | run.py:121-153 | a bad amount, then a bad key, each change nothing; otherwise the amount is written to the keyed category's column and the mirror becomes its reload. When the old worksheet's reload was complete and the column had its header, the new mirror is that old reload with the new entry inserted after the entries of the categories up to its own |
| Budget.BudgetManager.AddExpenseAndReload | run.py:336-342 | the handler's second reload leaves the mirror as the first left it: the reload of the worksheet with the new amount |
| Budget.BudgetManager.UpdateIncomeSheet | run.py:97-118 | an income category gets the amount written at the next free row of its column; any other name changes nothing |
| Budget.BudgetManager.AddIncome | run.py:69-94 | a bad amount, then an unknown category, each change nothing; otherwise the category's column grows by exactly the amount and no other column changes |
| Budget.BudgetManager.ListExpenses | run.py:194-201 | the loop builds exactly `Listing` of the mirror: the last `min(10, n)` entries, oldest first, numbered 1 upwards |
| Budget.BudgetManager.UpdateExpensesSheet | run.py:244-273 | the expense worksheet becomes the rewrite of the mirror: header kept, then every entry appended to its column in mirror order |
| Budget.BudgetManager.RemoveExpense | run.py:204-241 | an empty mirror, text that is not an integer, and a position outside 1..n are refused, in that order; then the first `y`/`n` answer decides. `y` removes exactly the selected entry and rewrites the worksheet so that a reload gives back the shortened mirror; `n`, or no decisive answer, changes nothing |

## Left out

- Credentials, opening the spreadsheet, and the network. The worksheets are values held in the manager. The two category tables are constants.
- Console output: every `print` and the currency formatting with `€{amount:.2f}`. The outcome datatypes `AddOutcome` and `RemoveOutcome` stand for the messages.
- The main menu loop, `printMenu`, and the "Not implemented yet" summary option (run.py:349-389). The handlers' re-prompt loops for an amount and a menu key (run.py:276-311, 313-346) are also left out. Only their last step, adding the expense and reloading again, is modelled as `AddExpenseAndReload`.
- Amounts.Parse: reads only plain decimals with at most two fractional digits. The exponents, `inf`, `nan`, underscores and longer fractions that `float()` also accepts are read as `None`. Amounts are cents, not binary floating point.
- Budget.BudgetManager.AddExpense and Budget.BudgetManager.AddIncome: inherit that restriction. An amount with more than two decimals is refused rather than written.
- Mirror.LoadCells, Mirror.Load: inherit it too. The reload stops at a cell such as `12.345`, `1e3` or `inf`, and keeps only the entries read before it, while `float()` at run.py:62 reads such a cell and goes on.
- Amounts.ParseInt: does not accept the underscores between digits that `int()` allows.
- Amounts.Strip, Amounts.Parse, Amounts.ParseInt and Budget.Lower: know only ASCII whitespace, ASCII digits and ASCII letters. The other Unicode whitespace, decimal digits (such as "٣") and letters that `strip()`, `float()`, `int()` and `lower()` also handle are not modelled.
- The text of a written cell is `Amounts.Render` of the amount. The spreadsheet's own number formatting is not modelled.
- `col_values` is taken to return the column exactly as stored. The spreadsheet's trimming of trailing empty cells is not modelled.
- Exceptions raised by the worksheet calls themselves (network or quota errors). The model's worksheet operations always succeed. Only the parse failure inside `loadExpenses` is modelled as an error path.
- The `KeyError` that `updateExpensesSheet` could raise for an unknown category name (run.py:267) cannot happen in the model. An entry's category is a `Category`, so every entry has a column.
- Budget.BudgetManager.RemoveExpense: the prompt that waits for input forever is modelled by a finite list of answers. When none is `y` or `n`, the outcome is `NoAnswer`.
- Budget.BudgetManager.RemoveExpense: the promise that a reload gives back the shortened mirror is stated only when the worksheet had all eight category columns. With fewer columns, the rewritten header row leaves some columns without a header.
- Budget.BudgetManager.AddExpense: the inserted-entry promise is stated only when the reload before was complete and the column already had its header cell (a cell in row 1). `Mirror.AppendToEmptyColumn` covers the column with no cells at all.
