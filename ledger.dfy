/**
 * What one section widget computes, as values: the table rows it lays out
 * from its default and custom items, the signed total of those rows, the
 * coercion of an edited amount, the filtering of a selection, and the
 * name-matching removal of custom items.
 */
module Ledger {
  import opened Wrappers
  import opened SectionTypes
  import opened TableItems
  import opened NumberParsing
  import opened ListOps

  /**
   * A table row: a title cell and an amount cell, or the final row that
   * holds the "+" and "-" buttons and no amount cell.
   */
  datatype Row = ItemRow(name: string, amount: real, nameEditable: bool) | ButtonRow

  /** The text an amount cell is reset to when its edit does not parse. */
  const ResetText: string := "0.0"

  /** The rows `_set_table` lays out for a list of items, one per item. */
  function ItemRows(items: seq<TableItem>, editable: bool): (rows: seq<Row>)
  {
    seq(|items|, i requires 0 <= i < |items| => ItemRow(items[i].name, items[i].amount, editable))
  }

  /** The whole table: defaults (names locked), customs, then the button row. */
  function Layout(defaults: seq<TableItem>, custom: seq<TableItem>): seq<Row>
  {
    ItemRows(defaults, false) + ItemRows(custom, true) + [ButtonRow]
  }

  /**
   * The shape every table of a section keeps: the default rows first, the
   * button row last, and only editable item rows in between.
   */
  ghost predicate RowsShaped(rows: seq<Row>, defaults: seq<TableItem>)
  {
    && |rows| >= |defaults| + 1
    && rows[..|defaults|] == ItemRows(defaults, false)
    && rows[|rows| - 1] == ButtonRow
    && (forall i :: |defaults| <= i < |rows| - 1 ==> rows[i].ItemRow? && rows[i].nameEditable)
  }

  /** What a row adds to the section sum: its amount cell, or 0.0 without one. */
  function RowAmount(row: Row): real
  {
    match row
    case ItemRow(_, amount, _) => amount
    case ButtonRow => 0.0
  }

  /** The section sum over the table rows, accumulated top to bottom. */
  function RowsSum(rows: seq<Row>): real
  {
    if rows == [] then 0.0 else RowsSum(rows[..|rows| - 1]) + RowAmount(rows[|rows| - 1])
  }

  /** The sum of the amounts of a list of items. */
  function ItemsSum(items: seq<TableItem>): real
  {
    if items == [] then 0.0 else ItemsSum(items[..|items| - 1]) + items[|items| - 1].amount
  }

  /** `float(text)`, or 0.0 when the text is not a number. */
  function Coerce(text: string): real
  {
    Parse(text).GetOr(0.0)
  }

  /** The item after an edit of its name (column 0) or amount (column 1). */
  function EditItem(item: TableItem, column: int, text: string): (r: TableItem)
    requires 0 <= column <= 1
    ensures column == 0 ==> r.name == text && r.amount == item.amount
    ensures column == 1 ==> r.name == item.name && r.amount == Coerce(text)
  {
    if column == 0 then item.(name := text) else item.(amount := Coerce(text))
  }

  /** The row after the same edit: the cell shows what the item now holds. */
  function EditRow(row: Row, column: int, text: string): (r: Row)
    requires row.ItemRow? && 0 <= column <= 1
    ensures r.ItemRow? && r.nameEditable == row.nameEditable
    ensures column == 0 ==> r.name == text && r.amount == row.amount
    ensures column == 1 ==> r.name == row.name && r.amount == Coerce(text)
  {
    if column == 0 then row.(name := text) else row.(amount := Coerce(text))
  }

  /** The rows `_save_selection` keeps from the selected cells' row numbers. */
  function Saved(indexes: seq<int>, defaultCount: int, rowCount: int): (r: seq<int>)
    ensures Distinct(r)
    ensures forall x :: x in r ==> defaultCount <= x < rowCount - 1
    ensures forall x :: x in r <==> x in indexes && defaultCount <= x < rowCount - 1
    decreases |indexes|
  {
    if indexes == [] then []
    else
      var prefix := indexes[..|indexes| - 1];
      var p := Saved(prefix, defaultCount, rowCount);
      var x := indexes[|indexes| - 1];
      assert indexes == prefix + [x];
      if defaultCount <= x < rowCount - 1 && x !in p then p + [x] else p
  }

  /** Position of the first occurrence of x. */
  function FirstIndex(s: seq<int>, x: int): (k: nat)
    requires x in s
    ensures k < |s| && s[k] == x
    ensures forall i :: 0 <= i < k ==> s[i] != x
  {
    if s[0] == x then 0 else 1 + FirstIndex(s[1..], x)
  }

  /** The items whose names are not in `names`, in order. */
  function WithoutNames(items: seq<TableItem>, names: set<string>): seq<TableItem>
  {
    if items == [] then []
    else (if items[0].name in names then [] else [items[0]]) + WithoutNames(items[1..], names)
  }

  /**
   * The custom list after `for x in _custom: if x.name == name: _custom.remove(x)`,
   * from list position idx on. Removing the item at the iterator's position
   * moves its successor into that position, and the iterator then steps past it.
   */
  function SweepByName(items: seq<TableItem>, name: string, idx: nat): (r: seq<TableItem>)
    ensures multiset(r) <= multiset(items)
    ensures WithoutNames(r, {name}) == WithoutNames(items, {name})
    decreases |items| - idx
  {
    if idx >= |items| then items
    else if items[idx].name == name then
      var pre, x, post := items[..idx], items[idx], items[idx + 1..];
      var rest := pre + post;
      assert items == pre + ([x] + post);
      assert ([x] + post)[0] == x && ([x] + post)[1..] == post;
      assert WithoutNames([x] + post, {name}) == WithoutNames(post, {name});
      WithoutNamesConcat(pre, [x] + post, {name});
      WithoutNamesConcat(pre, post, {name});
      assert multiset(items) == multiset(rest) + multiset{x};
      SweepByName(rest, name, idx + 1)
    else
      SweepByName(items, name, idx + 1)
  }

  /** Names of the item rows at the given positions. */
  function RemovedNames(rows: seq<Row>, positions: seq<int>): set<string>
  {
    set r | r in positions && 0 <= r < |rows| && rows[r].ItemRow? :: rows[r].name
  }

  // ---------------------------------------------------------------- lemmas

  /** The layout of `_set_table` has the shape every section table keeps. */
  lemma LayoutShape(defaults: seq<TableItem>, custom: seq<TableItem>)
    ensures |Layout(defaults, custom)| == |defaults| + |custom| + 1
    ensures RowsShaped(Layout(defaults, custom), defaults)
    ensures forall i :: 0 <= i < |defaults| ==> !Layout(defaults, custom)[i].nameEditable
    ensures forall i :: 0 <= i < |custom| ==>
      Layout(defaults, custom)[|defaults| + i] == ItemRow(custom[i].name, custom[i].amount, true)
  {
    var rows := Layout(defaults, custom);
    assert rows[..|defaults|] == ItemRows(defaults, false);
  }

  lemma {:induction false} RowsSumConcat(a: seq<Row>, b: seq<Row>)
    ensures RowsSum(a + b) == RowsSum(a) + RowsSum(b)
    decreases |b|
  {
    if b == [] {
      assert a + b == a;
    } else {
      var n := |b| - 1;
      assert (a + b)[..|a + b| - 1] == a + b[..n];
      assert (a + b)[|a + b| - 1] == b[n];
      RowsSumConcat(a, b[..n]);
    }
  }

  lemma {:induction false} RowsSumOfItems(items: seq<TableItem>, editable: bool)
    ensures RowsSum(ItemRows(items, editable)) == ItemsSum(items)
    decreases |items|
  {
    if items != [] {
      var n := |items| - 1;
      var rows := ItemRows(items, editable);
      assert rows[..n] == ItemRows(items[..n], editable);
      RowsSumOfItems(items[..n], editable);
    }
  }

  /** The section sum of a freshly laid out table is the sum of all items. */
  lemma LayoutSum(defaults: seq<TableItem>, custom: seq<TableItem>)
    ensures RowsSum(Layout(defaults, custom)) == ItemsSum(defaults) + ItemsSum(custom)
  {
    RowsSumConcat(ItemRows(defaults, false) + ItemRows(custom, true), [ButtonRow]);
    RowsSumConcat(ItemRows(defaults, false), ItemRows(custom, true));
    RowsSumOfItems(defaults, false);
    RowsSumOfItems(custom, true);
    assert RowsSum([ButtonRow]) == 0.0 by {
      assert [ButtonRow][..0] == [];
    }
  }

  /** The signed total of a laid out table is sign * sum(defaults) + sign * sum(customs). */
  lemma LayoutSignedTotal(state: SectionType, defaults: seq<TableItem>, custom: seq<TableItem>)
    ensures state.Apply(RowsSum(Layout(defaults, custom)))
         == state.Apply(ItemsSum(defaults)) + state.Apply(ItemsSum(custom))
  {
    LayoutSum(defaults, custom);
    ApplyAdds(state, ItemsSum(defaults), ItemsSum(custom));
  }

  /** A new empty custom entry does not change the section sum. */
  lemma AddEntryKeepsSum(defaults: seq<TableItem>, custom: seq<TableItem>)
    ensures RowsSum(Layout(defaults, custom + [NewItem("")])) == RowsSum(Layout(defaults, custom))
  {
    LayoutSum(defaults, custom);
    LayoutSum(defaults, custom + [NewItem("")]);
    assert (custom + [NewItem("")])[..|custom|] == custom;
  }

  /** Replacing one row changes the sum by the difference of the two amounts. */
  lemma {:induction false} RowsSumPointUpdate(rows: seq<Row>, i: nat, row: Row)
    requires i < |rows|
    ensures RowsSum(rows[i := row]) == RowsSum(rows) - RowAmount(rows[i]) + RowAmount(row)
    decreases |rows|
  {
    var n := |rows| - 1;
    if i == n {
      assert rows[i := row][..n] == rows[..n];
    } else {
      RowsSumPointUpdate(rows[..n], i, row);
      assert rows[i := row][..n] == rows[..n][i := row];
    }
  }

  /**
   * An edit of an amount moves the sum by the coerced value minus the old
   * amount; an edit of a name leaves it as it was.
   */
  lemma EditRowSum(rows: seq<Row>, i: nat, column: int, text: string)
    requires i < |rows| && rows[i].ItemRow? && 0 <= column <= 1
    ensures column == 1 ==>
      RowsSum(rows[i := EditRow(rows[i], column, text)]) == RowsSum(rows) - rows[i].amount + Coerce(text)
    ensures column == 0 ==> RowsSum(rows[i := EditRow(rows[i], column, text)]) == RowsSum(rows)
  {
    RowsSumPointUpdate(rows, i, EditRow(rows[i], column, text));
  }

  /** Row i of a laid out table. */
  lemma LayoutAt(defaults: seq<TableItem>, custom: seq<TableItem>, i: nat)
    requires i < |defaults| + |custom| + 1
    ensures |Layout(defaults, custom)| == |defaults| + |custom| + 1
    ensures i < |defaults| ==>
      Layout(defaults, custom)[i] == ItemRow(defaults[i].name, defaults[i].amount, false)
    ensures |defaults| <= i < |defaults| + |custom| ==>
      Layout(defaults, custom)[i]
      == ItemRow(custom[i - |defaults|].name, custom[i - |defaults|].amount, true)
    ensures i == |defaults| + |custom| ==> Layout(defaults, custom)[i] == ButtonRow
  {
  }

  /**
   * Editing row r of a laid out table, a default row, is editing
   * `_defaults[r]`: the table stays the layout of the edited lists.
   */
  lemma EditDefaultKeepsLayout(defaults: seq<TableItem>, custom: seq<TableItem>, r: nat, column: int, text: string)
    requires r < |defaults| && 0 <= column <= 1
    ensures Layout(defaults, custom)[r].ItemRow?
    ensures Layout(defaults, custom)[r := EditRow(Layout(defaults, custom)[r], column, text)]
         == Layout(defaults[r := EditItem(defaults[r], column, text)], custom)
  {
    var rows := Layout(defaults, custom);
    var d := defaults[r := EditItem(defaults[r], column, text)];
    LayoutAt(defaults, custom, r);
    var lhs := rows[r := EditRow(rows[r], column, text)];
    var rhs := Layout(d, custom);
    LayoutAt(d, custom, 0);
    forall i | 0 <= i < |lhs|
      ensures lhs[i] == rhs[i]
    {
      LayoutAt(defaults, custom, i);
      LayoutAt(d, custom, i);
    }
  }

  /**
   * Editing row r of a laid out table, a custom row, is editing
   * `_custom[r - len(_defaults)]`: the table stays the layout of the edited lists.
   */
  lemma EditCustomKeepsLayout(defaults: seq<TableItem>, custom: seq<TableItem>, r: nat, column: int, text: string)
    requires |defaults| <= r < |defaults| + |custom| && 0 <= column <= 1
    ensures Layout(defaults, custom)[r].ItemRow?
    ensures Layout(defaults, custom)[r := EditRow(Layout(defaults, custom)[r], column, text)]
         == Layout(defaults, custom[r - |defaults| := EditItem(custom[r - |defaults|], column, text)])
  {
    var rows := Layout(defaults, custom);
    var k := r - |defaults|;
    var c := custom[k := EditItem(custom[k], column, text)];
    LayoutAt(defaults, custom, r);
    var lhs := rows[r := EditRow(rows[r], column, text)];
    var rhs := Layout(defaults, c);
    LayoutAt(defaults, c, 0);
    forall i | 0 <= i < |lhs|
      ensures lhs[i] == rhs[i]
    {
      LayoutAt(defaults, custom, i);
      LayoutAt(defaults, c, i);
    }
  }

  /**
   * Deleting one custom row (not a default row, not the button row) keeps
   * the shape of the table.
   */
  lemma RemoveRowKeepsShape(rows: seq<Row>, defaults: seq<TableItem>, row: nat)
    requires RowsShaped(rows, defaults)
    requires |defaults| <= row < |rows| - 1
    ensures RowsShaped(rows[..row] + rows[row + 1..], defaults)
  {
    var r := rows[..row] + rows[row + 1..];
    assert r[..|defaults|] == rows[..|defaults|];
    assert r[|r| - 1] == rows[|rows| - 1];
    forall i | |defaults| <= i < |r| - 1
      ensures r[i].ItemRow? && r[i].nameEditable
    {
      if i < row {
        assert r[i] == rows[i];
      } else {
        assert r[i] == rows[i + 1];
      }
    }
  }

  /**
   * An edit of an item row keeps the shape of the table, with the edited
   * default in the default prefix when the row is a default row.
   */
  lemma EditKeepsShape(rows: seq<Row>, defaults: seq<TableItem>, row: nat, column: int, text: string)
    requires RowsShaped(rows, defaults)
    requires row < |rows| - 1 && 0 <= column <= 1
    ensures rows[row].ItemRow?
    ensures row < |defaults| ==>
      RowsShaped(rows[row := EditRow(rows[row], column, text)],
                 defaults[row := EditItem(defaults[row], column, text)])
    ensures row >= |defaults| ==> RowsShaped(rows[row := EditRow(rows[row], column, text)], defaults)
  {
    var nd := |defaults|;
    if row < nd {
      assert rows[row] == rows[..nd][row];
    }
    var r := rows[row := EditRow(rows[row], column, text)];
    if row < nd {
      var d := defaults[row := EditItem(defaults[row], column, text)];
      assert r[..nd] == ItemRows(d, false);
    } else {
      assert r[..nd] == rows[..nd];
    }
  }

  /** Text that parses is stored as its value. */
  lemma CoerceNumber(text: string, v: real)
    requires Parse(text) == Some(v)
    ensures Coerce(text) == v
  {
  }

  /**
   * Text that does not parse is stored as 0.0, which is also what the reset
   * cell text reads back as; repeating the bad edit gives 0.0 again.
   */
  lemma CoerceBadText(item: TableItem, text: string)
    requires Parse(text).None?
    ensures Coerce(text) == 0.0
    ensures Parse(ResetText) == Some(Coerce(text))
    ensures EditItem(EditItem(item, 1, text), 1, text) == EditItem(item, 1, text)
    ensures EditItem(item, 1, text).amount == 0.0
  {
    ResetTextIsZero();
  }

  lemma {:induction false} FirstIndexAppend(s: seq<int>, y: int, x: int)
    requires x in s
    ensures FirstIndex(s + [y], x) == FirstIndex(s, x)
    decreases |s|
  {
    if s[0] != x {
      assert (s + [y])[1..] == s[1..] + [y];
      FirstIndexAppend(s[1..], y, x);
    }
  }

  lemma FirstIndexOfNew(s: seq<int>, x: int)
    requires x !in s
    ensures FirstIndex(s + [x], x) == |s|
  {
    var k := FirstIndex(s + [x], x);
    if k < |s| {
      assert s[k] == x;
    }
  }

  /** Saved rows keep the order in which they were first seen in the selection. */
  lemma {:induction false} SavedInFirstSeenOrder(indexes: seq<int>, defaultCount: int, rowCount: int)
    ensures forall i, j :: 0 <= i < j < |Saved(indexes, defaultCount, rowCount)| ==>
      FirstIndex(indexes, Saved(indexes, defaultCount, rowCount)[i])
        < FirstIndex(indexes, Saved(indexes, defaultCount, rowCount)[j])
    decreases |indexes|
  {
    if indexes != [] {
      var prefix := indexes[..|indexes| - 1];
      var x := indexes[|indexes| - 1];
      assert indexes == prefix + [x];
      var p := Saved(prefix, defaultCount, rowCount);
      var r := Saved(indexes, defaultCount, rowCount);
      SavedInFirstSeenOrder(prefix, defaultCount, rowCount);
      forall y | y in p
        ensures FirstIndex(indexes, y) == FirstIndex(prefix, y)
      {
        FirstIndexAppend(prefix, x, y);
      }
      if r != p {
        assert x !in prefix;
        FirstIndexOfNew(prefix, x);
        forall i, j | 0 <= i < j < |r|
          ensures FirstIndex(indexes, r[i]) < FirstIndex(indexes, r[j])
        {
          if j == |p| {
            assert r[i] in p;
          } else {
            assert r[i] == p[i] && r[j] == p[j];
          }
        }
      }
    }
  }

  lemma {:induction false} WithoutNamesConcat(a: seq<TableItem>, b: seq<TableItem>, names: set<string>)
    ensures WithoutNames(a + b, names) == WithoutNames(a, names) + WithoutNames(b, names)
    decreases |a|
  {
    if a == [] {
      assert a + b == b;
    } else {
      assert (a + b)[1..] == a[1..] + b;
      assert (a + b)[0] == a[0];
      WithoutNamesConcat(a[1..], b, names);
    }
  }

  /** Dropping one name first and then a larger set of names drops that set. */
  lemma {:induction false} WithoutNamesNarrow(items: seq<TableItem>, name: string, names: set<string>)
    requires name in names
    ensures WithoutNames(WithoutNames(items, {name}), names) == WithoutNames(items, names)
    decreases |items|
  {
    if items != [] {
      var head := if items[0].name in {name} then [] else [items[0]];
      WithoutNamesConcat(head, WithoutNames(items[1..], {name}), names);
      WithoutNamesNarrow(items[1..], name, names);
      if head != [] {
        assert head[1..] == [];
      }
    }
  }

  lemma {:induction false} SweepNoMatch(items: seq<TableItem>, name: string, idx: nat)
    requires forall k :: idx <= k < |items| ==> items[k].name != name
    ensures SweepByName(items, name, idx) == items
    decreases |items| - idx
  {
    if idx < |items| {
      SweepNoMatch(items, name, idx + 1);
    }
  }

  /** A sweep standing on the only matching item removes just that item. */
  lemma SweepAtLastMatch(items: seq<TableItem>, name: string, j: nat)
    requires j < |items| && items[j].name == name
    requires forall k :: j < k < |items| ==> items[k].name != name
    ensures SweepByName(items, name, j) == items[..j] + items[j + 1..]
  {
    var rest := items[..j] + items[j + 1..];
    assert forall k :: j + 1 <= k < |rest| ==> rest[k] == items[k + 1];
    SweepNoMatch(rest, name, j + 1);
  }

  /** When exactly one custom item has the name, the sweep removes exactly that item. */
  lemma {:induction false} SweepUniqueName(items: seq<TableItem>, name: string, j: nat, idx: nat)
    requires idx <= j < |items| && items[j].name == name
    requires forall k :: idx <= k < |items| && k != j ==> items[k].name != name
    ensures SweepByName(items, name, idx) == items[..j] + items[j + 1..]
    decreases j - idx
  {
    if idx == j {
      SweepAtLastMatch(items, name, j);
    } else {
      SweepUniqueName(items, name, j, idx + 1);
    }
  }

  /** The names of removed rows depend only on which positions are removed. */
  lemma RemovedNamesOfSameElements(rows: seq<Row>, a: seq<int>, b: seq<int>)
    requires forall x :: x in a <==> x in b
    ensures RemovedNames(rows, a) == RemovedNames(rows, b)
  {
  }

  /**
   * With a repeated name the sweep can remove more than the selected entry:
   * three new entries named "" and one selected row lose two of them.
   */
  lemma SweepRepeatedNameRemovesTwo()
    ensures SweepByName([TableItem("", 1.0), TableItem("", 2.0), TableItem("", 3.0)], "", 0)
         == [TableItem("", 2.0)]
  {
    var items := [TableItem("", 1.0), TableItem("", 2.0), TableItem("", 3.0)];
    var after1 := [TableItem("", 2.0), TableItem("", 3.0)];
    assert items[..0] + items[1..] == after1;
    assert after1[..1] + after1[2..] == [TableItem("", 2.0)];
  }
}
