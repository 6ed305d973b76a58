/**
 * Worked runs on the application's own sections, stated on the values the
 * widgets keep: what the income tab holds after an amount is typed, how its
 * total reaches the totals tab, and what a custom entry given text that is
 * not a number contributes to a tab.
 */
module Scenarios {
  import opened Wrappers
  import opened SectionTypes
  import opened TableItems
  import opened NumberParsing
  import opened Totals
  import opened Ledger

  /** The defaults of the income tab. */
  function IncomeDefaults(): seq<TableItem>
  {
    [NewItem("Monthly Income"), NewItem("Monthly Income (Spouse)")]
  }

  /** The text a user types for a whole amount: "4000" followed by ".0". */
  lemma FourThousandText()
    ensures WholeAmountText(4000) == "4000.0"
  {
  }

  /**
   * Typing "4000.0" into the first income amount makes the income total
   * 4000.0, and the table still shows exactly the edited defaults.
   */
  lemma IncomeAfterTyping()
    ensures Layout(IncomeDefaults(), [])[0].ItemRow?
    ensures var rows := Layout(IncomeDefaults(), []);
      var edited := rows[0 := EditRow(rows[0], 1, "4000.0")];
      && edited == Layout(IncomeDefaults()[0 := TableItem("Monthly Income", 4000.0)], [])
      && Positive.Apply(RowsSum(edited)) == 4000.0
  {
    var d := IncomeDefaults();
    FourThousandText();
    WholeAmountRoundTrip(4000);
    CoerceNumber("4000.0", 4000.0);
    EditDefaultKeepsLayout(d, [], 0, 1, "4000.0");
    var d2 := d[0 := EditItem(d[0], 1, "4000.0")];
    assert d2 == [TableItem("Monthly Income", 4000.0), NewItem("Monthly Income (Spouse)")];
    LayoutSignedTotal(Positive, d2, []);
    assert ItemsSum(d2) == 4000.0 by {
      assert d2[..1] == [d2[0]];
      assert d2[..1][..0] == [];
    }
  }

  /**
   * Two registered titles at 0.0; the income tab reports 4000.0 and the
   * monthly savings become 4000.0, while a report for a title that was never
   * registered changes nothing.
   */
  lemma SavingsAfterIncome()
    ensures var s := AddedSection(AddedSection([], "Insurance"), "Gross Income");
      && s == [("Insurance", 0.0), ("Gross Income", 0.0)]
      && SumValues(UpdatedSection(s, "Gross Income", 4000.0)) == 4000.0
      && UpdatedSection(UpdatedSection(s, "Gross Income", 4000.0), "Bonus", 100.0)
         == UpdatedSection(s, "Gross Income", 4000.0)
  {
    var s1 := AddedSection([], "Insurance");
    assert s1 == [("Insurance", 0.0)];
    var s := AddedSection(s1, "Gross Income");
    assert Get(s1, "Gross Income").None?;
    assert s == [("Insurance", 0.0), ("Gross Income", 0.0)];
    UpdateSectionSum(s, "Gross Income", 4000.0);
    assert Get(s, "Gross Income") == Some(0.0) by {
      GetEntry(s, 1);
    }
    assert SumValues(s) == 0.0;
    var u := UpdatedSection(s, "Gross Income", 4000.0);
    assert Get(u, "Bonus").None?;
  }

  /**
   * A new custom entry whose amount is set to "abc" counts as 0.0, so the
   * table sums to what the defaults give.
   */
  lemma BadAmountCountsAsZero(defaults: seq<TableItem>)
    ensures Layout(defaults, [NewItem("")])[|defaults|].ItemRow?
    ensures var rows := Layout(defaults, [NewItem("")]);
      RowsSum(rows[|defaults| := EditRow(rows[|defaults|], 1, "abc")]) == ItemsSum(defaults)
  {
    var c := [NewItem("")];
    var rows := Layout(defaults, c);
    NonNumbersAreRefused();
    CoerceBadText(c[0], "abc");
    LayoutAt(defaults, c, |defaults|);
    EditRowSum(rows, |defaults|, 1, "abc");
    LayoutSum(defaults, c);
    assert ItemsSum(c) == 0.0 by {
      assert c[..0] == [];
    }
  }
}
