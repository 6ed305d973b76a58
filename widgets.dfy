/**
 * The two stateful widgets of a budget: the totals tab, and one section tab
 * with its table of default and custom line items. Table contents are kept
 * as sequences of rows; the Qt rendering around them is not modelled.
 */
module Widgets {
  import opened Wrappers
  import opened SectionTypes
  import opened TableItems
  import opened NumberParsing
  import opened ListOps
  import opened Totals
  import opened Ledger

  /** The tab that aggregates every section's signed total. */
  class TotalTab {
    /** `_sections`: title to latest signed total, in insertion order. */
    var sections: Sections
    /** The rows of the totals table. */
    var table: seq<TotalRow>

    ghost predicate Valid()
      reads this
    {
      UniqueTitles(sections) && IsSummaryOf(table, sections)
    }

    /** The monthly savings figure shown in the last row. */
    ghost function Savings(): real
      reads this
      requires Valid()
    {
      table[|table| - 1].amount
    }

    constructor ()
      ensures Valid()
      ensures sections == []
      ensures table == [TotalRow(MonthlySavings, 0.0)]
    {
      sections := [];
      table := [];
      new;
      SetTable();
    }

    /** Registers a title at 0.0 unless it is already present, then redraws. */
    method AddSection(title: string)
      requires Valid()
      modifies this
      ensures Valid()
      ensures sections == AddedSection(old(sections), title)
      ensures Savings() == old(Savings())
    {
      if Get(sections, title).None? {
        sections := sections + [(title, 0.0)];
      }
      AddSectionKeepsSum(old(sections), title);
      SetTable();
    }

    /** Overwrites a registered title's total, then redraws. */
    method Update(title: string, total: real)
      requires Valid()
      modifies this
      ensures Valid()
      ensures sections == UpdatedSection(old(sections), title, total)
      ensures Get(old(sections), title).Some? ==>
        Savings() == old(Savings()) - Get(old(sections), title).value + total
      ensures Get(old(sections), title).None? ==> Savings() == old(Savings())
    {
      match IndexOf(sections, title) {
        case Some(i) =>
          sections := sections[i := (title, total)];
        case None =>
      }
      UpdateSectionSum(old(sections), title, total);
      SetTable();
    }

    /** One row per section in insertion order, then the sum of all of them. */
    method SetTable()
      modifies this`table
      ensures IsSummaryOf(table, sections)
    {
      table := [];
      var total := 0.0;
      var i := 0;
      while i < |sections|
        invariant 0 <= i <= |sections|
        invariant |table| == i
        invariant forall k :: 0 <= k < i ==> table[k] == TotalRow(sections[k].0, sections[k].1)
        invariant total == SumValues(sections[..i])
      {
        var (key, value) := sections[i];
        table := table + [TotalRow(key, value)];
        total := total + value;
        assert sections[..i + 1][..i] == sections[..i];
        i := i + 1;
      }
      assert sections[..i] == sections;
      table := table + [TotalRow(MonthlySavings, total)];
    }
  }

  /** One budget category: its defaults, its custom entries and its table. */
  class SectionWidget {
    const title: string
    /** `_state`: the sign applied to the section sum. */
    const state: SectionType
    /** `total.total`: the latest signed total. */
    var total: real
    /** Every `total_changed` emission so far, oldest first. */
    var emitted: seq<(string, real)>
    var defaults: seq<TableItem>
    var custom: seq<TableItem>
    /** `_selected`: the saved row numbers, to be removed by the "-" button. */
    var selected: seq<int>
    /** The table's rows, top to bottom. */
    var rows: seq<Row>

    ghost predicate Valid()
      reads this
    {
      && RowsShaped(rows, defaults)
      && Distinct(selected)
      && (forall s :: s in selected ==> |defaults| <= s)
      && total == state.Apply(RowsSum(rows))
      && |emitted| > 0 && emitted[|emitted| - 1] == (title, total)
    }

    /** Every saved row is still a custom row of the table. */
    ghost predicate SelectionInRange()
      reads this
    {
      forall s :: s in selected ==> |defaults| <= s < |rows| - 1
    }

    /** The table shows exactly the two item lists. */
    ghost predicate Synced()
      reads this
    {
      rows == Layout(defaults, custom)
    }

    /** `state` is None when the argument is not a SectionType at all. */
    constructor (title: string, defaults: seq<TableItem>, state: Option<SectionType>)
      ensures Valid() && Synced()
      ensures this.title == title && this.defaults == defaults
      ensures custom == [] && selected == []
      ensures state.Some? ==> this.state == state.value
      ensures state.None? ==> this.state == Negative
      ensures total == this.state.Apply(ItemsSum(defaults))
      ensures emitted == [(title, total)]
    {
      this.title := title;
      this.state := if state.Some? then state.value else Negative;
      total := 0.0;
      emitted := [];
      this.defaults := defaults;
      custom := [];
      selected := [];
      rows := [];
      new;
      SetTable();
      LayoutShape(defaults, []);
      LayoutSum(defaults, []);
    }

    /** Adds up the amount cells of every row, applies the sign and emits. */
    method SetTotal()
      modifies this`total, this`emitted
      ensures total == state.Apply(RowsSum(rows))
      ensures emitted == old(emitted) + [(title, total)]
    {
      var sum := 0.0;
      var i := 0;
      while i < |rows|
        invariant 0 <= i <= |rows|
        invariant sum == RowsSum(rows[..i])
      {
        match rows[i] {
          case ItemRow(_, amount, _) =>
            sum := sum + amount;
          case ButtonRow =>
            sum := sum + 0.0;
        }
        assert rows[..i + 1][..i] == rows[..i];
        i := i + 1;
      }
      assert rows[..i] == rows;
      total := sum * state.Value() as real;
      emitted := emitted + [(title, total)];
    }

    /** Rebuilds the rows: defaults, customs, the button row; then the total. */
    method SetTable()
      modifies this`rows, this`total, this`emitted
      ensures rows == Layout(defaults, custom)
      ensures total == state.Apply(RowsSum(rows))
      ensures emitted == old(emitted) + [(title, total)]
    {
      rows := [];
      var i := 0;
      while i < |defaults|
        invariant 0 <= i <= |defaults|
        invariant |rows| == i
        invariant forall k :: 0 <= k < i ==> rows[k] == ItemRow(defaults[k].name, defaults[k].amount, false)
        invariant emitted == old(emitted)
      {
        rows := rows + [ItemRow(defaults[i].name, defaults[i].amount, false)];
        i := i + 1;
      }
      assert rows == ItemRows(defaults, false);
      var j := 0;
      while j < |custom|
        invariant 0 <= j <= |custom|
        invariant |rows| == |defaults| + j
        invariant rows[..|defaults|] == ItemRows(defaults, false)
        invariant forall k :: 0 <= k < j ==>
          rows[|defaults| + k] == ItemRow(custom[k].name, custom[k].amount, true)
        invariant emitted == old(emitted)
      {
        rows := rows + [ItemRow(custom[j].name, custom[j].amount, true)];
        j := j + 1;
      }
      assert rows == ItemRows(defaults, false) + ItemRows(custom, true);
      rows := rows + [ButtonRow];
      SetTotal();
    }

    /**
     * A cell of item row `row` was edited to `text`: column 0 is the name,
     * column 1 the amount. The amount is converted or coerced to 0.0, the
     * addressed item is overwritten, and the total is recomputed.
     */
    method ItemChanged(row: int, column: int, text: string)
      requires Valid()
      requires 0 <= column <= 1
      requires 0 <= row < |rows| - 1
      requires row >= |defaults| ==> row - |defaults| < |custom|
      modifies this`rows, this`defaults, this`custom, this`total, this`emitted
      ensures Valid()
      ensures rows == old(rows)[row := EditRow(old(rows)[row], column, text)]
      ensures row < |old(defaults)| ==>
        defaults == old(defaults)[row := EditItem(old(defaults)[row], column, text)] && custom == old(custom)
      ensures row >= |old(defaults)| ==>
        custom == old(custom)[row - |old(defaults)| := EditItem(old(custom)[row - |old(defaults)|], column, text)]
        && defaults == old(defaults)
      ensures selected == old(selected)
      ensures column == 1 ==>
        total == state.Apply(RowsSum(old(rows)) - old(rows)[row].amount + Coerce(text))
      ensures column == 0 ==> total == old(total)
      ensures emitted == old(emitted) + [(title, total)]
      ensures old(Synced()) ==> Synced()
      ensures old(SelectionInRange()) ==> SelectionInRange()
    {
      ghost var r0, d0, c0 := rows, defaults, custom;
      ghost var synced := Synced();
      assert r0[row].ItemRow? by {
        EditKeepsShape(r0, d0, row, column, text);
      }
      WriteCell(row, column, text);
      assert RowsShaped(rows, defaults) by {
        EditKeepsShape(r0, d0, row, column, text);
      }
      assert synced ==> rows == Layout(defaults, custom) by {
        if synced {
          if row < |d0| {
            EditDefaultKeepsLayout(d0, c0, row, column, text);
          } else {
            EditCustomKeepsLayout(d0, c0, row, column, text);
          }
        }
      }
      assert column == 1 ==> RowsSum(rows) == RowsSum(r0) - r0[row].amount + Coerce(text) by {
        EditRowSum(r0, row, column, text);
      }
      assert column == 0 ==> RowsSum(rows) == RowsSum(r0) by {
        EditRowSum(r0, row, column, text);
      }
      SetTotal();
    }

    /** Stores the edited cell in the row and in the item it shows. */
    method WriteCell(row: int, column: int, text: string)
      requires 0 <= column <= 1
      requires 0 <= row < |rows| && rows[row].ItemRow?
      requires row < |defaults| || row - |defaults| < |custom|
      modifies this`rows, this`defaults, this`custom
      ensures rows == old(rows)[row := EditRow(old(rows)[row], column, text)]
      ensures row < |old(defaults)| ==>
        defaults == old(defaults)[row := EditItem(old(defaults)[row], column, text)] && custom == old(custom)
      ensures row >= |old(defaults)| ==>
        custom == old(custom)[row - |old(defaults)| := EditItem(old(custom)[row - |old(defaults)|], column, text)]
        && defaults == old(defaults)
    {
      var nd := |defaults|;
      var converted := 0.0;
      var cell := rows[row];
      if column == 1 {
        match Parse(text) {
          case Some(v) =>
            converted := v;
          case None =>
            // The cell text is reset to ResetText, which reads back as 0.0.
            ResetTextIsZero();
        }
        cell := cell.(amount := converted);
      } else {
        cell := cell.(name := text);
      }
      if row < nd {
        if column == 0 {
          defaults := defaults[row := defaults[row].(name := text)];
        } else {
          defaults := defaults[row := defaults[row].(amount := converted)];
        }
      } else {
        if column == 0 {
          custom := custom[row - nd := custom[row - nd].(name := text)];
        } else {
          custom := custom[row - nd := custom[row - nd].(amount := converted)];
        }
      }
      rows := rows[row := cell];
    }

    /** The "+" button: appends an empty custom entry and rebuilds the table. */
    method AddEntry()
      requires Valid()
      modifies this
      ensures Valid() && Synced()
      ensures custom == old(custom) + [NewItem("")]
      ensures defaults == old(defaults) && selected == old(selected)
      ensures old(Synced()) ==> total == old(total)
      ensures old(Synced()) && old(SelectionInRange()) ==> SelectionInRange()
      ensures emitted == old(emitted) + [(title, total)]
    {
      ghost var wasSynced := Synced();
      custom := custom + [NewItem("")];
      SetTable();
      LayoutShape(defaults, custom);
      LayoutShape(old(defaults), old(custom));
      if wasSynced {
        AddEntryKeepsSum(defaults, old(custom));
      }
    }

    /**
     * The "-" button: for each saved row, largest first, removes every custom
     * entry the list walk meets whose name is that row's title, and deletes
     * the row from the table; then clears the selection and re-emits.
     */
    method RemoveEntry()
      requires Valid() && SelectionInRange()
      modifies this
      ensures Valid() && SelectionInRange()
      ensures defaults == old(defaults) && selected == []
      ensures rows == Keep(old(rows), Elements(old(selected)))
      ensures |rows| == |old(rows)| - |old(selected)|
      ensures multiset(custom) <= multiset(old(custom))
      ensures WithoutNames(custom, RemovedNames(old(rows), old(selected)))
           == WithoutNames(old(custom), RemovedNames(old(rows), old(selected)))
      ensures total == state.Apply(RowsSum(rows))
      ensures emitted == old(emitted) + [(title, total)]
    {
      ghost var selected0 := selected;
      SortDistinctIsStrict(selected);
      selected := SortDescending(selected);
      var order := selected;
      PermutationElements(order, selected0);
      RemovedNamesOfSameElements(rows, order, selected0);
      forall i | 0 <= i < |order|
        ensures |defaults| <= order[i] < |rows| - 1
      {
        assert order[i] in order;
      }
      RemoveRows(order);
      selected := [];
      SetTotal();
    }

    /**
     * The loop of `_remove_entry`: removes the rows at `order`, highest
     * first, and with each row every custom item the sweep meets that
     * carries the row's name.
     */
    method RemoveRows(order: seq<int>)
      requires StrictlyDescending(order)
      requires forall i :: 0 <= i < |order| ==> |defaults| <= order[i] < |rows| - 1
      requires RowsShaped(rows, defaults)
      modifies this`rows, this`custom
      ensures rows == Keep(old(rows), Elements(order))
      ensures |rows| == |old(rows)| - |order|
      ensures RowsShaped(rows, defaults)
      ensures multiset(custom) <= multiset(old(custom))
      ensures WithoutNames(custom, RemovedNames(old(rows), order))
           == WithoutNames(old(custom), RemovedNames(old(rows), order))
    {
      ghost var rows0, custom0 := rows, custom;
      ghost var names := RemovedNames(rows, order);
      var k := 0;
      assert Elements(order[..0]) == {};
      KeepNothing(rows0, {});
      while k < |order|
        invariant 0 <= k <= |order|
        invariant |rows| == |rows0| - k
        invariant rows == Keep(rows0, Elements(order[..k]))
        invariant RowsShaped(rows, defaults)
        invariant multiset(custom) <= multiset(custom0)
        invariant WithoutNames(custom, names) == WithoutNames(custom0, names)
      {
        var row := order[k];
        DescendingRemovalStep(rows0, order, k);
        var hasItem := rows[row].ItemRow?;
        var name := if hasItem then rows[row].name else "";
        ghost var before := custom;
        SweepCustom(hasItem, name);
        if hasItem {
          assert name in names;
          WithoutNamesNarrow(custom, name, names);
          WithoutNamesNarrow(before, name, names);
        }
        RemoveRowKeepsShape(rows, defaults, row);
        ghost var next := Keep(rows0, Elements(order[..k + 1]));
        assert next == rows[..row] + rows[row + 1..];
        rows := rows[..row] + rows[row + 1..];
        k := k + 1;
      }
      assert order[..k] == order;
    }

    method SweepCustom(hasItem: bool, name: string)
      modifies this`custom
      ensures hasItem ==> custom == SweepByName(old(custom), name, 0)
      ensures !hasItem ==> custom == old(custom)
    {
      var idx := 0;
      while idx < |custom|
        invariant hasItem ==> SweepByName(custom, name, idx) == SweepByName(old(custom), name, 0)
        invariant !hasItem ==> custom == old(custom)
        decreases |custom| - idx
      {
        if hasItem && custom[idx].name == name {
          custom := custom[..idx] + custom[idx + 1..];
        }
        idx := idx + 1;
      }
    }

    /**
     * The selection changed to cells in rows `indexes`: keeps the custom rows
     * among them, each once, unless the button row is selected.
     */
    method SaveSelection(indexes: seq<int>)
      requires Valid()
      modifies this`selected
      ensures Valid()
      ensures |rows| - 1 in indexes ==> selected == old(selected)
      ensures |rows| - 1 !in indexes ==>
        selected == Saved(indexes, |defaults|, |rows|) && SelectionInRange()
    {
      var temp: seq<int> := [];
      var i := 0;
      while i < |indexes|
        invariant 0 <= i <= |indexes|
        invariant temp == Saved(indexes[..i], |defaults|, |rows|)
        invariant |rows| - 1 !in indexes[..i]
      {
        var r := indexes[i];
        assert indexes[..i + 1][..i] == indexes[..i];
        if |defaults| <= r < |rows| - 1 && r !in temp {
          temp := temp + [r];
        } else if r == |rows| - 1 {
          return;
        }
        i := i + 1;
      }
      assert indexes[..i] == indexes;
      selected := temp;
    }
  }
}
