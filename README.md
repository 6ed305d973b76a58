# Budget widgets: a Dafny model

This project models the two stateful widgets of the budget-analysis desktop
application:

- `SectionWidget` is one budget category, such as "Insurance" or "Gross Income".
  - It holds a list of default line items, whose names are fixed, and a list of custom line items that the user adds with "+" and removes with "-".
  - Its table shows both lists, followed by a button row.
  - Its total is the sum of the table's amounts, times the section's sign (`SectionType`: Negative is -1, Positive is 1).
  - It emits every new total through its `total_changed` signal.
- `TotalTab` holds each registered section title with its latest total, in registration order.
  - It redraws a summary table: one row per section, then a "Monthly Savings" row with the sum of all section totals.

The data model:

- `SectionTypes.SectionType` is a datatype with its integer value and the sign rule.
- `TableItems.TableItem` is a record of a name and an amount, where the amount defaults to 0.0.
- `Ledger.Row` is a table row:
  - an item row holds the name, the amount, and whether the name is editable;
  - the button row holds the "+" and "-" buttons.
- The section's table is a `seq<Row>`.
  - An amount cell holds the amount as a number.
  - A cell is never read back through `str`/`float`.
- `Totals.Sections` is a sequence of (title, total) pairs. It stands in for the insertion-ordered dictionary `_sections`.
- The widgets are the classes `Widgets.TotalTab` and `Widgets.SectionWidget`.
  - Their fields are the Python attributes that the methods reassign.
  - The `SectionTotal` object is represented by two things:
    - the `total` field;
    - an `emitted` log with one entry, oldest first, for each `_set_total` call the model performs (the re-entrant emissions listed under "Left out" are not in it).

Python's `float(text)` is the decimal parser `NumberParsing.Parse`, which returns `None` for text that is not a number. `Ledger.Coerce` is the `try`/`except` around it: a failed conversion gives 0.0, and the cell is reset to "0.0".

The two loop-carrying operations of `_remove_entry` are modelled as the code is written:

- `list.sort(reverse=True)` becomes `ListOps.SortDescending`.
- The inner `for x in self._custom: … self._custom.remove(x)` becomes `Ledger.SweepByName`.
  - It removes every custom item whose name equals the removed row's name.
  - After each removal the walk skips the item that moved into the freed place, as Python's list iterator does.
- Deleting rows highest-first is `ListOps.Keep` applied to the set of saved row numbers.

It follows that:

- removing one of several entries that share a name can remove *other* entries of that name;
- it can leave one behind (`Ledger.SweepRepeatedNameRemovesTwo`);
- the list of custom items and the table can then disagree.

The model therefore does not claim that the two stay in step after a removal. The ghost predicate `SectionWidget.Synced` says that the table shows exactly the two item lists. Each operation's contract states whether it keeps, restores or only possibly loses that property.

## Model

| member | source | states |
|---|---|---|
| `SectionTypes.SectionType.Value` | budget_analysis/ui/widgets/SectionType.py:4-9 | the enum value is -1 exactly for NEGATIVE and 1 exactly for POSITIVE |
| `SectionTypes.SectionType.Apply` | budget_analysis/ui/widgets/__init__.py:198 | multiplying a sum by `int(state)` negates it for a negative section and keeps it for a positive one |
| `SectionTypes.ExactlyTwoMembers` | budget_analysis/ui/widgets/SectionType.py:8-9 | every section type is one of the two members, and they differ |
| `SectionTypes.ApplyAdds` | budget_analysis/ui/widgets/__init__.py:194-198 | signing the sum of two parts equals adding the signed parts (defaults plus customs) |
| `TableItems.NewItem` | budget_analysis/ui/widgets/TableItem.py:6-12 | the new item has the given name and the given amount |
| `TableItems.NewItemDefaultsToZero` | budget_analysis/ui/widgets/TableItem.py:6 | an item built from a title alone has amount 0.0 |
| `TableItems.FieldUpdatesAreIndependent` | budget_analysis/ui/widgets/TableItem.py:11-12 | assigning `name` leaves `amount` alone, and the other way round |
| `TableItems.EditTouchesOneItem` | budget_analysis/ui/widgets/__init__.py:176-185 | overwriting item i of a list changes that item and no other |
| `NumberParsing.ParseUnsigned` | budget_analysis/ui/widgets/__init__.py:172 | an accepted unsigned numeral is non-negative, made of digits and a point, with at least one digit |
| `NumberParsing.Parse` | budget_analysis/ui/widgets/__init__.py:171-174 | accepted text consists of numeral characters only and contains a digit |
| `NumberParsing.WholeAmountRoundTrip` | budget_analysis/ui/widgets/__init__.py:216 | the text `str` gives a whole amount below 10^16 (digits, ".0") converts back to that amount |
| `NumberParsing.NatTextRoundTrip` | budget_analysis/ui/widgets/__init__.py:172 | a typed whole number such as "50" converts to that number |
| `NumberParsing.ResetTextIsZero` | budget_analysis/ui/widgets/__init__.py:174 | the reset text "0.0" converts to 0.0 |
| `NumberParsing.NonNumbersAreRefused` | budget_analysis/ui/widgets/__init__.py:171-173 | "abc", "", "." and "$5" are not numbers |
| `Totals.Get` | budget_analysis/ui/widgets/__init__.py:47 | `_sections.get(title)` is None exactly when no registered section carries the title |
| `Totals.IndexOf` | budget_analysis/ui/widgets/__init__.py:47 | the lookup fails exactly when no entry has the title; otherwise it finds the first entry with it |
| `Totals.AddedSection` | budget_analysis/ui/widgets/__init__.py:47-48 | a registered title changes nothing; a new one is appended at 0.0; titles stay unique; other titles read the same |
| `Totals.UpdatedSection` | budget_analysis/ui/widgets/__init__.py:59-60 | a registered title now reads the new total; an unregistered one changes nothing; order, titles and uniqueness are kept |
| `Totals.AddSectionIdempotent` | budget_analysis/ui/widgets/__init__.py:47-48 | registering the same title twice is the same as once |
| `Totals.SumValuesConcat` | budget_analysis/ui/widgets/__init__.py:72-86 | the savings accumulated over the sections in insertion order (`SumValues`) split over any split of the sections |
| `Totals.AddSectionKeepsSum` | budget_analysis/ui/widgets/__init__.py:47-50 | registering a title leaves the monthly savings unchanged |
| `Totals.UpdateSectionSum` | budget_analysis/ui/widgets/__init__.py:59-62 | updating a registered title moves the savings by the new total minus the old one; an unregistered title leaves them unchanged |
| `Totals.UpdateSectionIdempotent` | budget_analysis/ui/widgets/__init__.py:59-60 | repeating an update changes nothing more |
| `Ledger.EditItem` | budget_analysis/ui/widgets/__init__.py:176-185 | column 0 sets the name and keeps the amount; column 1 sets the converted amount and keeps the name |
| `Ledger.EditRow` | budget_analysis/ui/widgets/__init__.py:168-174 | the edited cell shows the new name, or the converted amount; the row stays an item row with the same editability |
| `Ledger.Saved` | budget_analysis/ui/widgets/__init__.py:313-315 | the saved rows are distinct; they are exactly the selected rows that are custom rows (not defaults, not the button row) |
| `Ledger.SavedInFirstSeenOrder` | budget_analysis/ui/widgets/__init__.py:313-315 | saved rows keep the order in which they were first selected |
| `Ledger.SweepByName` | budget_analysis/ui/widgets/__init__.py:287-289 | the walk only removes items, and every item with another name stays, in order |
| `Ledger.SweepNoMatch` | budget_analysis/ui/widgets/__init__.py:287-289 | when no item carries the name, the custom list is left as it was |
| `Ledger.SweepUniqueName` | budget_analysis/ui/widgets/__init__.py:286-289 | when exactly one item carries the name, exactly that item is removed |
| `Ledger.SweepRepeatedNameRemovesTwo` | budget_analysis/ui/widgets/__init__.py:286-289 | three entries named "" lose the first and the third; the skipped middle one stays |
| `Ledger.LayoutShape` | budget_analysis/ui/widgets/__init__.py:207-228 | the table `Layout` builds has one row per default, then one per custom item, then the button row; only custom names are editable |
| `Ledger.LayoutAt` | budget_analysis/ui/widgets/__init__.py:209-228 | row i shows default i, or custom item i minus the number of defaults, or the buttons |
| `Ledger.RowsSumConcat` | budget_analysis/ui/widgets/__init__.py:194-196 | the sum over the table's amount cells (`RowsSum`; `RowAmount` is an item row's amount and 0.0 for the button row, which has no amount cell) splits over any split of the rows |
| `Ledger.LayoutSum` | budget_analysis/ui/widgets/__init__.py:194-196 | the table's amounts add up to the defaults plus the custom items |
| `Ledger.LayoutSignedTotal` | budget_analysis/ui/widgets/__init__.py:194-198 | the section total is the signed default sum plus the signed custom sum |
| `Ledger.AddEntryKeepsSum` | budget_analysis/ui/widgets/__init__.py:274-275 | a new empty entry does not change the table's sum |
| `Ledger.EditRowSum` | budget_analysis/ui/widgets/__init__.py:180-187 | an amount edit moves the sum by the new amount minus the old one; a name edit keeps it |
| `Ledger.EditDefaultKeepsLayout` | budget_analysis/ui/widgets/__init__.py:176-180 | editing a default's cell shows the same table as laying out the edited defaults |
| `Ledger.EditCustomKeepsLayout` | budget_analysis/ui/widgets/__init__.py:181-185 | editing a custom cell shows the same table as laying out the edited custom items |
| `Ledger.EditKeepsShape` | budget_analysis/ui/widgets/__init__.py:168-185 | an edit keeps the table's shape over the list of defaults after the edit |
| `Ledger.RemoveRowKeepsShape` | budget_analysis/ui/widgets/__init__.py:291 | removing a custom row keeps the defaults first and the button row last |
| `Ledger.CoerceNumber` | budget_analysis/ui/widgets/__init__.py:171-172 | `Coerce` of a text that converts yields its number |
| `Ledger.CoerceBadText` | budget_analysis/ui/widgets/__init__.py:173-174 | `Coerce` of a text that does not convert yields 0.0, the value the reset text reads back as; repeating the edit changes nothing |
| `ListOps.SortDescending` | budget_analysis/ui/widgets/__init__.py:284 | the sorted selection is descending and a permutation of the selection |
| `ListOps.SortDistinctIsStrict` | budget_analysis/ui/widgets/__init__.py:284 | a selection without repeats sorts strictly descending |
| `ListOps.PermutationElements` | budget_analysis/ui/widgets/__init__.py:284 | sorting keeps the length and the set of saved rows |
| `ListOps.KeepNothing` | budget_analysis/ui/widgets/__init__.py:291 | `Keep` with no deleted position among the rows leaves the rows as they are |
| `ListOps.KeepStep` | budget_analysis/ui/widgets/__init__.py:291 | `Keep`: deleting row r after deleting only rows above r is deleting r along with them |
| `ListOps.DescendingRemovalStep` | budget_analysis/ui/widgets/__init__.py:284-291 | for strictly descending row numbers, the k-th still addresses its original row after the first k deletions, and deleting it extends those deletions by one |
| `Widgets.TotalTab.constructor` | budget_analysis/ui/widgets/__init__.py:18-36 | no sections; the table holds only "Monthly Savings" at 0.0 |
| `Widgets.TotalTab.AddSection` | budget_analysis/ui/widgets/__init__.py:40-50 | the sections become `AddedSection` of the old ones; the redrawn table summarises them; savings are unchanged |
| `Widgets.TotalTab.Update` | budget_analysis/ui/widgets/__init__.py:52-62 | the sections become `UpdatedSection` of the old ones; the savings move by new minus old total, or stay for an unknown title |
| `Widgets.TotalTab.SetTable` | budget_analysis/ui/widgets/__init__.py:64-96 | the table lists every section in order, then "Monthly Savings" with their sum |
| `Widgets.SectionWidget.constructor` | budget_analysis/ui/widgets/__init__.py:119-157 | a non-`SectionType` state falls back to Negative; the table lays out the defaults; the first emission is the signed default sum |
| `Widgets.SectionWidget.SetTotal` | budget_analysis/ui/widgets/__init__.py:189-199 | the total is the signed sum of the table's amounts, and it is emitted with the title |
| `Widgets.SectionWidget.SetTable` | budget_analysis/ui/widgets/__init__.py:201-235 | the rows become the layout of defaults and custom items plus the button row; then the total is set and emitted |
| `Widgets.SectionWidget.ItemChanged` | budget_analysis/ui/widgets/__init__.py:161-187 | exactly the addressed cell and item change; the total moves by the amount delta; one emission; the table stays in step if it was |
| `Widgets.SectionWidget.WriteCell` | budget_analysis/ui/widgets/__init__.py:176-185 | the edited row and the default or custom item it shows are overwritten, nothing else |
| `Widgets.SectionWidget.AddEntry` | budget_analysis/ui/widgets/__init__.py:268-275 | an empty entry is appended, the table is rebuilt in step with the lists, and the total is unchanged |
| `Widgets.SectionWidget.RemoveEntry` | budget_analysis/ui/widgets/__init__.py:277-294 | the saved rows are deleted and the rest kept in order; custom items only shrink, and only by the deleted rows' names; the selection is cleared; the total is re-emitted |
| `Widgets.SectionWidget.RemoveRows` | budget_analysis/ui/widgets/__init__.py:286-291 | deleting the rows highest first gives the list without those positions; the table keeps its shape |
| `Widgets.SectionWidget.SweepCustom` | budget_analysis/ui/widgets/__init__.py:287-289 | the inner loop leaves the list that `SweepByName` describes, or leaves it alone when the row has no item |
| `Widgets.SectionWidget.SaveSelection` | budget_analysis/ui/widgets/__init__.py:296-319 | selecting the button row keeps the old selection; otherwise the selection becomes `Saved` of the selected rows |
| `Scenarios.IncomeAfterTyping` | budget_analysis/ui/__init__.py:71-75 | typing "4000.0" into the first income amount gives an income total of 4000.0 |
| `Scenarios.SavingsAfterIncome` | budget_analysis/ui/__init__.py:92-98 | two registered sections at 0.0 plus an income update of 4000.0 give savings of 4000.0; an unknown title is ignored |
| `Scenarios.BadAmountCountsAsZero` | budget_analysis/ui/widgets/__init__.py:170-174 | a new entry whose amount is set to "abc" adds nothing to the table's sum |

## Left out

- Qt rendering is not modelled: column widths (`_resize_columns`), text alignment, item flags (other than which names are editable), the tab layout and the push button widgets. The button row stands for both buttons.
- Re-entrant signals are not modelled.
  - `itemChanged` is connected (line 144) before the first `_set_table` (line 157), so every `setItem` in `_set_table` (lines 214, 218, 224, 228) re-enters `_item_changed` and `_set_total` while the table is half built, and emits partial totals; `emitted` leaves those emissions out.
  - Resetting a bad cell with `setText` fires `itemChanged` again, so `_item_changed` runs twice and the total is emitted twice.
  - Rebuilding or shrinking the table can fire `itemSelectionChanged`.
  - The model performs each slot once, as called.
- Amounts are exact real numbers, not IEEE doubles. The "new total minus old total" sums of `Totals.UpdateSectionSum`, `Widgets.TotalTab.Update`, `Ledger.EditRowSum` and `Widgets.SectionWidget.ItemChanged` hold exactly in the model but only up to rounding in Python (0.1 + 0.7 is not 0.8 there). Rounding, the negative zero that `0.0 * -1` gives a negative section with an empty sum (line 198), infinities and NaN are not modelled.
- `NumberParsing.WholeAmountText` is digits followed by ".0", which is what `str` prints for whole floats below 10^16 only; from 10^16 on Python writes an exponent ("1e+16"), and those texts are not modelled.
- Cell text formatting is not modelled. A cell holds the number itself, so `str(float)` and the `float(text)` in `_set_total` are identities in the model.
- `NumberParsing.Parse` accepts only an optional sign, digits and at most one decimal point.
  - Python's `float` also accepts surrounding whitespace, exponents, underscores, "inf" and "nan".
  - The model coerces those texts to 0.0.
- The main window's wiring of sections to the totals tab (`budget_analysis/ui/__init__.py`) appears only as scenarios. The early prototype `BudgetAnalysis.py` and `setup.py` are not part of this model.
- Widgets.SectionWidget.RemoveEntry requires every saved row to be a custom row of the current table (`SelectionInRange`).
  - In Qt a stale row number reads no item and a `removeRow` beyond the table is ignored. Neither case is modelled.
- Widgets.SectionWidget.ItemChanged requires the edited row to be an item row whose item exists.
  - If the custom list has lost more items than the table lost rows, Python raises `IndexError` here. That is not modelled.
- Widgets.SectionWidget.AddEntry promises an unchanged total and a selection still in range only when the table was in step with the lists beforehand.
- Widgets.SectionWidget.RemoveEntry does not promise that the custom list and the table stay in step. The name-based removal can break that (see `Ledger.SweepRepeatedNameRemovesTwo`).
- Identity is not modelled.
  - `TableItem`s are values, so the caller's list passed as `defaults`, and the items in it, are not aliased.
  - `list.remove(x)` is modelled as removing the current item. Every custom item is a distinct new object, so the current item is the first one identical to `x`.
- `_save_selection` receives row numbers. Which cells Qt reports as selected is an input.
