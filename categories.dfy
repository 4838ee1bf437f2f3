/** The category tables: menu keys to categories, category names, column
    letters, and letters to 1-based column numbers.

    The expense categories form a fixed enumeration, listed in
    `EXPENSE_CATEGORIES` in the order the program's dictionary literal lists
    them; the reload walks them in that order. Tables keyed by text (the
    menus, the income columns) are sequences of pairs in their dictionary
    order. */
module Categories {

  import opened Wrappers

  datatype Category =
    | RentMortgage
    | Utilities
    | Shopping
    | Transport
    | Insurance
    | Entertainment
    | Savings
    | Miscellaneous

  /** The expense categories in table order. */
  const EXPENSE_CATEGORIES: seq<Category> := [
    RentMortgage, Utilities, Shopping, Transport,
    Insurance, Entertainment, Savings, Miscellaneous
  ]

  /** The category's name, as the mirror and the listing show it. */
  function Name(c: Category): string
  {
    match c
    case RentMortgage => "Rent/Mortgage"
    case Utilities => "Utilities"
    case Shopping => "Shopping"
    case Transport => "Transport"
    case Insurance => "Insurance"
    case Entertainment => "Entertainment"
    case Savings => "Savings"
    case Miscellaneous => "Miscellaneous"
  }

  /** The category's column letter in the expense worksheet. */
  function Letter(c: Category): char
  {
    match c
    case RentMortgage => 'A'
    case Utilities => 'B'
    case Shopping => 'C'
    case Transport => 'D'
    case Insurance => 'E'
    case Entertainment => 'F'
    case Savings => 'G'
    case Miscellaneous => 'H'
  }

  /** The category's place in table order. */
  function Rank(c: Category): (r: nat)
    ensures r < |EXPENSE_CATEGORIES|
  {
    match c
    case RentMortgage => 0
    case Utilities => 1
    case Shopping => 2
    case Transport => 3
    case Insurance => 4
    case Entertainment => 5
    case Savings => 6
    case Miscellaneous => 7
  }

  /** The table lists every category once: position `k` holds the category of
      rank `k`. */
  lemma TableOrder()
    ensures |EXPENSE_CATEGORIES| == 8
    ensures forall k :: 0 <= k < 8 ==> Rank(EXPENSE_CATEGORIES[k]) == k
    ensures forall c :: EXPENSE_CATEGORIES[Rank(c)] == c
  {
  }

  /** The category at position `k` of the table has rank `k`. */
  lemma RankAt(k: nat)
    requires k < |EXPENSE_CATEGORIES|
    ensures Rank(EXPENSE_CATEGORIES[k]) == k
  {
    TableOrder();
  }

  /** Different categories have different ranks. */
  lemma RankInjective(c: Category, d: Category)
    ensures Rank(c) == Rank(d) <==> c == d
  {
  }

  /** `str.upper()` on one character, for ASCII letters. */
  function Upper(c: char): char
  {
    if 'a' <= c <= 'z' then (c as int - 32) as char else c
  }

  predicate IsLetter(c: char)
  {
    'A' <= c <= 'Z' || 'a' <= c <= 'z'
  }

  /** `column_to_index`: the letter's place in the alphabet, ignoring case. */
  function ColumnToIndex(letter: char): int
  {
    Upper(letter) as int - 'A' as int + 1
  }

  /** Letters A..Z name columns 1..26, lower case names the same column as
      upper case, and two letters name the same column exactly when they are
      the same letter up to case. */
  lemma ColumnToIndexOfLetters(a: char, b: char)
    requires IsLetter(a) && IsLetter(b)
    ensures 1 <= ColumnToIndex(a) <= 26
    ensures 'A' <= a <= 'Z' ==> ColumnToIndex(a) == a as int - 'A' as int + 1
    ensures 'a' <= a <= 'z' ==> ColumnToIndex(a) == ColumnToIndex((a as int - 32) as char)
    ensures ColumnToIndex(a) == ColumnToIndex(b) <==> Upper(a) == Upper(b)
  {
  }

  /** The column number of an expense category: its place in the table,
      counted from 1. */
  function ExpenseColumn(c: Category): (i: int)
    ensures i == Rank(c) + 1
  {
    ColumnToIndex(Letter(c))
  }

  /** The eight expense categories occupy eight different columns, 1 to 8. */
  lemma ExpenseColumnsDistinct(c: Category, d: Category)
    ensures 1 <= ExpenseColumn(c) <= 8
    ensures ExpenseColumn(c) == ExpenseColumn(d) <==> c == d
  {
  }

  /** The first category in `cs` named `name`. */
  function FindNamed(cs: seq<Category>, name: string): (r: Option<Category>)
    ensures r.Some? ==> r.value in cs && Name(r.value) == name
    ensures r.None? ==> forall i :: 0 <= i < |cs| ==> Name(cs[i]) != name
  {
    if cs == [] then None
    else if Name(cs[0]) == name then Some(cs[0])
    else FindNamed(cs[1..], name)
  }

  /** `category_column.get(name)` on the expense table: the category of that name. */
  function CategoryNamed(name: string): Option<Category>
  {
    FindNamed(EXPENSE_CATEGORIES, name)
  }

  /** Exactly the eight category names are found, each naming its own category. */
  lemma CategoryNamedMeaning(name: string, c: Category)
    ensures CategoryNamed(Name(c)) == Some(c)
    ensures CategoryNamed(name).Some? <==> exists d :: Name(d) == name
  {
    TableOrder();
    var k := Rank(c);
    assert forall i :: 0 <= i < k ==> Name(EXPENSE_CATEGORIES[i]) != Name(c);
    FindNamedAt(EXPENSE_CATEGORIES, Name(c), k);
    if exists d :: Name(d) == name {
      var d :| Name(d) == name;
      assert Name(EXPENSE_CATEGORIES[Rank(d)]) == name;
    }
  }

  lemma {:induction false} FindNamedAt(cs: seq<Category>, name: string, k: nat)
    requires k < |cs| && Name(cs[k]) == name
    requires forall i :: 0 <= i < k ==> Name(cs[i]) != name
    ensures FindNamed(cs, name) == Some(cs[k])
  {
    if k > 0 {
      FindNamedAt(cs[1..], name, k - 1);
    }
  }

  /** The position of the first pair whose key is `key`, or `|table|`. */
  function IndexOf<V>(table: seq<(string, V)>, key: string): (k: nat)
    ensures k <= |table|
    ensures k < |table| ==> table[k].0 == key
    ensures forall i :: 0 <= i < k ==> table[i].0 != key
  {
    if table == [] || table[0].0 == key then 0 else 1 + IndexOf(table[1..], key)
  }

  /** Dictionary lookup, `table.get(key)`. */
  function Lookup<V>(table: seq<(string, V)>, key: string): (r: Option<V>)
    ensures r.Some? <==> exists i :: 0 <= i < |table| && table[i].0 == key
    ensures r.Some? ==> exists i :: 0 <= i < |table| && table[i] == (key, r.value)
  {
    var k := IndexOf(table, key);
    if k < |table| then Some(table[k].1) else None
  }

  /** The expense menu keys and the category each selects. */
  const EXPENSE_MENU: seq<(string, Category)> := [
    ("1", RentMortgage),
    ("2", Utilities),
    ("3", Shopping),
    ("4", Transport),
    ("5", Insurance),
    ("6", Entertainment),
    ("7", Savings),
    ("8", Miscellaneous)
  ]

  /** The expense menu: key to category. */
  function ExpenseMenu(key: string): Option<Category>
  {
    Lookup(EXPENSE_MENU, key)
  }

  /** Exactly the keys "1" to "8" select an expense category. */
  lemma ExpenseMenuDomain(key: string)
    ensures ExpenseMenu(key).Some? <==> key in {"1", "2", "3", "4", "5", "6", "7", "8"}
  {
  }

  /** Key `k + 1` selects the `k`-th category of the table. */
  lemma ExpenseMenuSelects(k: nat)
    requires k < 8
    ensures ExpenseMenu([('1' as int + k) as char]) == Some(EXPENSE_CATEGORIES[k])
  {
    var t := EXPENSE_MENU;
    assert forall i, j :: 0 <= i < j < 8 ==> t[i].0 != t[j].0;
    assert t[k] == ([('1' as int + k) as char], EXPENSE_CATEGORIES[k]);
    assert IndexOf(t, t[k].0) == k;
  }

  /** The income categories and their column letters. */
  const INCOME_COLUMNS: seq<(string, char)> := [
    ("Salary", 'A'),
    ("Freelance", 'B'),
    ("Misc", 'C')
  ]

  /** `column_to_index(category_column[name])` for the income table. */
  function IncomeColumn(name: string): Option<int>
  {
    match Lookup(INCOME_COLUMNS, name)
    case None => None
    case Some(letter) => Some(ColumnToIndex(letter))
  }

  /** The income menu keys and the category each selects. */
  const INCOME_MENU: seq<(string, string)> := [
    ("1", "Salary"),
    ("2", "Freelance"),
    ("3", "Misc")
  ]

  /** The income menu: key to category name. */
  function IncomeMenu(key: string): Option<string>
  {
    Lookup(INCOME_MENU, key)
  }

  /** Salary, Freelance and Misc, and no other names, have income columns,
      and they are columns 1, 2 and 3. */
  lemma IncomeColumns(name: string)
    ensures IncomeColumn(name).Some? <==> name in {"Salary", "Freelance", "Misc"}
    ensures IncomeColumn(name).Some? ==> 1 <= IncomeColumn(name).value <= 3
    ensures IncomeColumn("Salary") == Some(1)
    ensures IncomeColumn("Freelance") == Some(2)
    ensures IncomeColumn("Misc") == Some(3)
  {
  }

  /** The income menu's keys are "1" to "3", naming the three categories. */
  lemma IncomeMenuKeys(key: string)
    ensures IncomeMenu(key).Some? <==> key in {"1", "2", "3"}
    ensures IncomeMenu("1") == Some("Salary")
    ensures IncomeMenu("2") == Some("Freelance")
    ensures IncomeMenu("3") == Some("Misc")
  {
  }
}
