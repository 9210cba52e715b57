/**
  The menu store of utils/database.js: one SQLite table `menu` behind a
  module-level database handle. The table is modelled as a class holding its
  rows in rowid order, whether the table currently exists, and the rowid the
  engine will hand out next. SQL text is not modelled; each statement is
  replaced by the logical effect it has on the table.
 */
module Database {
  import opened Text

  /** One entry of the remote feed's `menu` array; the price is in cents. */
  datatype MenuItem = MenuItem(
    name: string,
    price: nat,
    description: string,
    image: string,
    category: string)

  /** One row of `menu(id integer primary key not null, name, price, description, image, category)`. */
  datatype Row = Row(
    id: nat,
    name: string,
    price: string,
    description: string,
    image: string,
    category: string)

  // ---------------------------------------------------------------------------
  // `price.toFixed(2)`

  function DigitChar(d: nat): (c: char)
    requires d < 10
    ensures IsDigit(c)
  {
    ('0' as int + d) as char
  }

  function DigitValue(c: char): nat
    requires IsDigit(c)
  {
    c as int - '0' as int
  }

  /** The decimal numeral of `n`, without leading zeros. */
  function Decimal(n: nat): (s: string)
    ensures |s| >= 1 && AllDigits(s)
    ensures s[0] == '0' <==> n == 0
  {
    if n < 10 then [DigitChar(n)] else Decimal(n / 10) + [DigitChar(n % 10)]
  }

  /** The value a string of decimal digits denotes. */
  function DigitsValue(s: string): nat
    requires AllDigits(s)
  {
    if s == [] then 0 else 10 * DigitsValue(s[..|s| - 1]) + DigitValue(s[|s| - 1])
  }

  /** The text stored for a price: the whole units, a dot, and exactly two digits of cents. */
  function FormatPrice(cents: nat): (s: string)
    ensures |s| >= 4 && s[|s| - 3] == '.'
    ensures AllDigits(s[..|s| - 3]) && AllDigits(s[|s| - 2..])
    ensures s[0] == '0' <==> cents < 100
    ensures s[0] == '0' ==> |s| == 4
  {
    var whole := Decimal(cents / 100);
    var s := whole + "." + [DigitChar(cents / 10 % 10), DigitChar(cents % 10)];
    assert s[..|s| - 3] == whole;
    s
  }

  /** The amount, in cents, that a stored price text denotes. */
  function PriceValue(s: string): nat
    requires |s| >= 4 && AllDigits(s[..|s| - 3]) && AllDigits(s[|s| - 2..])
  {
    100 * DigitsValue(s[..|s| - 3]) + DigitsValue(s[|s| - 2..])
  }

  lemma {:induction false} DecimalValue(n: nat)
    ensures DigitsValue(Decimal(n)) == n
  {
    if n >= 10 {
      var s := Decimal(n);
      assert s[..|s| - 1] == Decimal(n / 10);
      DecimalValue(n / 10);
    }
  }

  /** The stored price text denotes exactly the amount the feed gave. */
  lemma PriceRoundTrip(cents: nat)
    ensures PriceValue(FormatPrice(cents)) == cents
  {
    var s := FormatPrice(cents);
    var whole := Decimal(cents / 100);
    var tens := cents / 10 % 10;
    var units := cents % 10;
    calc {
      PriceValue(s);
      100 * DigitsValue(s[..|s| - 3]) + DigitsValue(s[|s| - 2..]);
      { PriceParts(cents); }
      100 * DigitsValue(whole) + DigitsValue([DigitChar(tens), DigitChar(units)]);
      { DecimalValue(cents / 100); TwoDigits(tens, units); }
      100 * (cents / 100) + 10 * tens + units;
      { assert cents / 10 == 10 * (cents / 100) + tens; }
      cents;
    }
  }

  /** The two parts of the stored text that `PriceValue` reads. */
  lemma PriceParts(cents: nat)
    ensures var s := FormatPrice(cents);
      s[..|s| - 3] == Decimal(cents / 100) && s[|s| - 2..] == [DigitChar(cents / 10 % 10), DigitChar(cents % 10)]
  {
  }

  lemma TwoDigits(tens: nat, units: nat)
    requires tens < 10 && units < 10
    ensures DigitsValue([DigitChar(tens), DigitChar(units)]) == 10 * tens + units
  {
    var t := [DigitChar(tens), DigitChar(units)];
    var h := [DigitChar(tens)];
    assert t[..|t| - 1] == h && t[|t| - 1] == DigitChar(units);
    assert h[..|h| - 1] == [] && h[|h| - 1] == DigitChar(tens);
    assert DigitsValue(h) == DigitValue(DigitChar(tens)) == tens;
    assert DigitsValue(t) == 10 * DigitsValue(h) + DigitValue(DigitChar(units));
  }

  // ---------------------------------------------------------------------------
  // Rows and the logical content of the table

  /** The row `insert into menu (...) values (?,?,?,?,?)` creates for `item` under rowid `id`. */
  function ToRow(item: MenuItem, id: nat): Row {
    Row(id, item.name, FormatPrice(item.price), item.description, item.image, item.category)
  }

  /** The rows `insertAllDishes` appends for `items`, one per item, with consecutive rowids from `first`. */
  function NewRows(items: seq<MenuItem>, first: nat): (rows: seq<Row>)
    ensures |rows| == |items|
    ensures forall k :: 0 <= k < |items| ==> rows[k] == ToRow(items[k], first + k)
  {
    if items == [] then [] else [ToRow(items[0], first)] + NewRows(items[1..], first + 1)
  }

  /** Rowids strictly increase along the table (the order `select *` returns rows in). */
  predicate IdsIncreasing(rows: seq<Row>) {
    && (forall i :: 0 <= i < |rows| ==> rows[i].id >= 1)
    && (forall i, j :: 0 <= i < j < |rows| ==> rows[i].id < rows[j].id)
  }

  /**
    The rowid SQLite assigns to the next insert into a table whose primary key
    is `integer primary key` without AUTOINCREMENT: one more than the largest
    rowid present, and 1 for an empty table.
   */
  function NextRowId(rows: seq<Row>): (r: nat)
    ensures IdsIncreasing(rows) ==> r >= 1 && forall i :: 0 <= i < |rows| ==> rows[i].id < r
  {
    if rows == [] then 1 else rows[|rows| - 1].id + 1
  }

  /** A row's content without the id the store assigned. */
  datatype Dish = Dish(name: string, price: string, description: string, image: string, category: string)

  function DishOf(row: Row): Dish {
    Dish(row.name, row.price, row.description, row.image, row.category)
  }

  function DishesOf(rows: seq<Row>): (ds: seq<Dish>)
    ensures |ds| == |rows|
  {
    seq(|rows|, i requires 0 <= i < |rows| => DishOf(rows[i]))
  }

  /** The content a feed item is stored as. */
  function FeedDishes(items: seq<MenuItem>): (ds: seq<Dish>)
    ensures |ds| == |items|
  {
    seq(|items|, i requires 0 <= i < |items| =>
      Dish(items[i].name, FormatPrice(items[i].price), items[i].description, items[i].image, items[i].category))
  }

  /** Each inserted row copies its item's fields, in input order, with the price formatted. */
  lemma InsertedDishes(items: seq<MenuItem>, first: nat)
    ensures DishesOf(NewRows(items, first)) == FeedDishes(items)
  {
    var rows := NewRows(items, first);
    assert forall k :: 0 <= k < |items| ==> DishesOf(rows)[k] == FeedDishes(items)[k];
  }

  lemma DishesOfAppend(a: seq<Row>, b: seq<Row>)
    ensures DishesOf(a + b) == DishesOf(a) + DishesOf(b)
  {
    var l := DishesOf(a + b);
    var r := DishesOf(a) + DishesOf(b);
    forall k | 0 <= k < |l|
      ensures l[k] == r[k]
    {
      if k < |a| {
        assert (a + b)[k] == a[k];
      } else {
        assert (a + b)[k] == b[k - |a|];
      }
    }
  }

  /**
    Inserting is an append, never an upsert: inserting the same items twice
    leaves every item's content in the table twice, after the earlier rows.
   */
  lemma InsertTwiceDuplicates(before: seq<Row>, items: seq<MenuItem>, first: nat, second: nat)
    ensures DishesOf(before + NewRows(items, first) + NewRows(items, second))
         == DishesOf(before) + FeedDishes(items) + FeedDishes(items)
  {
    var once := NewRows(items, first);
    var twice := NewRows(items, second);
    DishesOfAppend(before, once);
    DishesOfAppend(before + once, twice);
    InsertedDishes(items, first);
    InsertedDishes(items, second);
  }

  // ---------------------------------------------------------------------------
  // The predicate of `filterByQueryAndCategories`

  /** Text that, spliced between quotes into the SQL statement, stays a plain string literal. */
  predicate QuoteFree(s: string) {
    forall i :: 0 <= i < |s| ==> s[i] != '\''
  }

  /** A quote-free search text that, inside LIKE, also matches only itself. */
  predicate SqlSafe(s: string) {
    QuoteFree(s) && forall i :: 0 <= i < |s| ==> s[i] != '%' && s[i] != '_'
  }

  /** Categories are compared with `=`, so only a quote changes their meaning. */
  predicate AllQuoteFree(categories: seq<string>) {
    forall k :: 0 <= k < |categories| ==> QuoteFree(categories[k])
  }

  /**
    `name like '%query%'`: SQLite's default LIKE ignores the case of ASCII
    letters, so this is containment after folding ASCII case.
   */
  predicate NameLike(name: string, query: string) {
    Contains(Lower(name), Lower(query))
  }

  /**
    The logical WHERE clause: `category='c1' or category='c2' ...` and, when the
    query is non-empty (JavaScript's `!query` is true only for the empty string
    here), `name like '%query%'` as well.
   */
  predicate Matches(row: Row, query: string, categories: seq<string>) {
    row.category in categories && (query == "" || NameLike(row.name, query))
  }

  /** The rows of the table that satisfy the WHERE clause, in table order. */
  function Select(rows: seq<Row>, query: string, categories: seq<string>): (r: seq<Row>)
    ensures |r| <= |rows|
  {
    if rows == [] then []
    else
      var rest := Select(rows[1..], query, categories);
      if Matches(rows[0], query, categories) then [rows[0]] + rest else rest
  }

  /** A row is in the filter's result exactly when it is in the table and matches the WHERE clause. */
  lemma {:induction false} SelectMembers(rows: seq<Row>, query: string, categories: seq<string>)
    ensures forall row :: row in Select(rows, query, categories) <==> row in rows && Matches(row, query, categories)
  {
    if rows != [] {
      SelectMembers(rows[1..], query, categories);
      assert forall row :: row in rows <==> row == rows[0] || row in rows[1..];
    }
  }

  /** Every row of the result has a rowid above any bound all the table's rowids exceed. */
  lemma {:induction false} SelectIdsAbove(rows: seq<Row>, query: string, categories: seq<string>, bound: int)
    requires forall k :: 0 <= k < |rows| ==> rows[k].id > bound
    ensures forall k :: 0 <= k < |Select(rows, query, categories)| ==> Select(rows, query, categories)[k].id > bound
  {
    if rows != [] {
      SelectIdsAbove(rows[1..], query, categories, bound);
    }
  }

  /** The filter keeps the table's order: rowids still increase along the result. */
  lemma {:induction false} SelectKeepsOrder(rows: seq<Row>, query: string, categories: seq<string>)
    requires IdsIncreasing(rows)
    ensures IdsIncreasing(Select(rows, query, categories))
  {
    if rows != [] {
      var rest := Select(rows[1..], query, categories);
      SelectKeepsOrder(rows[1..], query, categories);
      if Matches(rows[0], query, categories) {
        SelectIdsAbove(rows[1..], query, categories, rows[0].id);
        var r := [rows[0]] + rest;
        assert r == Select(rows, query, categories);
        forall i, j | 0 <= i < j < |r|
          ensures r[i].id < r[j].id
        {
          assert r[j] == rest[j - 1];
          if i > 0 {
            assert r[i] == rest[i - 1];
          }
        }
      }
    }
  }

  /** With no search text and every category of the table active, the filter returns the whole table. */
  lemma {:induction false} SelectAllCategories(rows: seq<Row>, categories: seq<string>)
    requires forall k :: 0 <= k < |rows| ==> rows[k].category in categories
    ensures Select(rows, "", categories) == rows
  {
    if rows != [] {
      SelectAllCategories(rows[1..], categories);
    }
  }

  /** The name search ignores ASCII case: folding the name and the query first changes nothing. */
  lemma NameLikeIgnoresCase(name: string, query: string)
    ensures NameLike(name, query) == NameLike(Lower(name), Lower(query))
  {
    LowerIdempotent(name);
    LowerIdempotent(query);
  }

  /** Searching ignores ASCII case: "salad" is found in "Lemon Salad Chicken". */
  lemma SaladInName(name: string, query: string)
    requires name == "Lemon Salad Chicken" && query == "salad"
    ensures NameLike(name, query)
  {
    var lowered := Lower(name);
    assert lowered[6] == 's' && lowered[7] == 'a' && lowered[8] == 'l' && lowered[9] == 'a' && lowered[10] == 'd';
    assert lowered[6..11] == "salad";
    var q := Lower(query);
    assert q[0] == 's' && q[1] == 'a' && q[2] == 'l' && q[3] == 'a' && q[4] == 'd';
    assert q == "salad";
    assert OccursAt(lowered, q, 6);
  }

  /** An example of a search: "salad" among mains finds only the main whose name holds "Salad". */
  lemma SaladAmongMains(greek: Row, chicken: Row, query: string, categories: seq<string>)
    requires greek.name == "Greek Salad" && greek.category == "starters"
    requires chicken.name == "Lemon Salad Chicken" && chicken.category == "mains"
    requires query == "salad" && categories == ["mains"]
    ensures Select([greek, chicken], query, categories) == [chicken]
  {
    assert Matches(chicken, query, categories) by {
      SaladInName(chicken.name, query);
    }
    assert !Matches(greek, query, categories) by {
      assert greek.category != categories[0];
    }
    SelectSecond(greek, chicken, query, categories);
  }

  lemma SelectSecond(a: Row, b: Row, query: string, categories: seq<string>)
    requires !Matches(a, query, categories) && Matches(b, query, categories)
    ensures Select([a, b], query, categories) == [b]
  {
    assert [a, b][1..] == [b];
    assert [b][1..] == [];
  }

  // ---------------------------------------------------------------------------
  // The store

  /** How a read's promise ends: with rows, or never (the read has no error callback). */
  datatype Read = Settled(rows: seq<Row>) | NeverSettles

  /** How the filter's promise ends: with rows, or rejected by a failing statement. */
  datatype Query = Resolved(rows: seq<Row>) | Rejected

  class MenuDb {
    /** Whether table `menu` exists. */
    var tableExists: bool
    /** The rows of `menu`, in rowid order. */
    var rows: seq<Row>
    /** The rowid the next insert receives. */
    var nextId: nat

    ghost predicate Valid()
      reads this
    {
      && IdsIncreasing(rows)
      && nextId == NextRowId(rows)
      && (!tableExists ==> rows == [])
    }

    /** `SQLite.openDatabase('little_lemon')` on a device where the app has never run. */
    constructor ()
      ensures Valid() && !tableExists && rows == []
    {
      tableExists := false;
      rows := [];
      nextId := 1;
    }

    /** `createTable`: `create table if not exists`, a no-op on an existing table. */
    method CreateTable()
      requires Valid()
      modifies this
      ensures Valid() && tableExists
      ensures rows == old(rows) && nextId == old(nextId)
    {
      tableExists := true;
    }

    /** `getMenuItems`: every row; on a missing table the promise never settles. */
    method GetMenuItems() returns (r: Read)
      ensures tableExists ==> r == Settled(rows)
      ensures !tableExists ==> r == NeverSettles
    {
      if tableExists {
        r := Settled(rows);
      } else {
        r := NeverSettles;
      }
    }

    /**
      `insertAllDishes`: one insert per item, in order, inside one transaction.
      On a missing table the first insert fails and the transaction is rolled
      back, so the table is unchanged and the promise rejects. An empty batch
      issues no statement, so its transaction completes even then.
     */
    method InsertAllDishes(items: seq<MenuItem>) returns (ok: bool)
      requires Valid()
      modifies this
      ensures Valid() && tableExists == old(tableExists)
      ensures ok == (old(tableExists) || items == [])
      ensures ok ==> rows == old(rows) + NewRows(items, old(nextId))
      ensures !ok ==> rows == old(rows) && nextId == old(nextId)
    {
      if !tableExists {
        ok := items == [];
        assert ok ==> NewRows(items, nextId) == [] && rows + [] == rows;
        return;
      }
      ok := true;
      ghost var before := rows;
      ghost var first := nextId;
      var i := 0;
      while i < |items|
        invariant 0 <= i <= |items|
        invariant tableExists
        invariant rows == before + NewRows(items[..i], first)
        invariant nextId == first + i
        invariant IdsIncreasing(rows) && nextId == NextRowId(rows)
      {
        InsertStep(before, items, i, first, rows, nextId);
        rows := rows + [ToRow(items[i], nextId)];
        nextId := nextId + 1;
        i := i + 1;
      }
      assert items[..i] == items;
    }

    /**
      `filterByQueryAndCategories`: the rows matching the WHERE clause. With no
      categories the statement ends in `where ` or `and ()`, which does not
      parse, so the promise rejects; so it does on a missing table.
     */
    method FilterByQueryAndCategories(query: string, categories: seq<string>) returns (r: Query)
      requires Valid()
      ensures !tableExists || categories == [] ==> r == Rejected
      ensures tableExists && categories != [] && SqlSafe(query) && AllQuoteFree(categories)
        ==> r == Resolved(Select(rows, query, categories))
    {
      if !tableExists || categories == [] {
        r := Rejected;
      } else {
        r := Resolved(Select(rows, query, categories));
      }
    }

    /** `deleteAllDishes`: `delete from menu`; rowids start again from 1. */
    method DeleteAllDishes() returns (ok: bool)
      requires Valid()
      modifies this
      ensures Valid() && tableExists == old(tableExists)
      ensures ok == old(tableExists)
      ensures ok ==> rows == [] && nextId == 1
      ensures !ok ==> rows == old(rows) && nextId == old(nextId)
    {
      ok := tableExists;
      if ok {
        rows := [];
        nextId := 1;
      }
    }

    /** `deleteMenuTable`: `drop table if exists menu`. */
    method DeleteMenuTable()
      requires Valid()
      modifies this
      ensures Valid() && !tableExists && rows == []
    {
      tableExists := false;
      rows := [];
      nextId := 1;
    }
  }

  lemma NewRowsSnoc(items: seq<MenuItem>, i: nat, first: nat)
    requires i < |items|
    ensures NewRows(items[..i + 1], first) == NewRows(items[..i], first) + [ToRow(items[i], first + i)]
  {
    var a := NewRows(items[..i + 1], first);
    var b := NewRows(items[..i], first) + [ToRow(items[i], first + i)];
    assert |a| == |b|;
    assert forall k :: 0 <= k < |a| ==> a[k] == b[k];
  }

  /** Appending a row under the next rowid keeps rowids increasing. */
  lemma AppendRow(rows: seq<Row>, row: Row)
    requires IdsIncreasing(rows) && row.id == NextRowId(rows)
    ensures IdsIncreasing(rows + [row]) && NextRowId(rows + [row]) == row.id + 1
  {
    var r := rows + [row];
    forall i, j | 0 <= i < j < |r|
      ensures r[i].id < r[j].id
    {
      if j == |rows| {
        assert r[i] == rows[i];
        if i < |rows| - 1 {
          assert rows[i].id < rows[|rows| - 1].id;
        }
      }
    }
  }

  /** One iteration of the insert loop: the next item's row extends the rows added so far. */
  lemma InsertStep(before: seq<Row>, items: seq<MenuItem>, i: nat, first: nat, rows: seq<Row>, id: nat)
    requires i < |items| && id == first + i
    requires rows == before + NewRows(items[..i], first)
    requires IdsIncreasing(rows) && NextRowId(rows) == id
    ensures rows + [ToRow(items[i], id)] == before + NewRows(items[..i + 1], first)
    ensures IdsIncreasing(rows + [ToRow(items[i], id)])
    ensures NextRowId(rows + [ToRow(items[i], id)]) == id + 1
  {
    var row := ToRow(items[i], id);
    var added := NewRows(items[..i], first);
    NewRowsSnoc(items, i, first);
    AppendRow(rows, row);
    assert (before + added) + [row] == before + (added + [row]);
  }

  /** Rowids are unique among the current rows. */
  lemma IdsUnique(rows: seq<Row>, i: nat, j: nat)
    requires IdsIncreasing(rows)
    requires i < |rows| && j < |rows| && i != j
    ensures rows[i].id != rows[j].id
  {
  }
}
