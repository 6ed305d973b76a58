/** One line of a budget section: a title and its monthly dollar amount. */
module TableItems {

  /**
   * A record whose two fields are overwritten by edits; the model keeps it as
   * a value and replaces it inside the sequence that owns it.
   */
  datatype TableItem = TableItem(name: string, amount: real)

  /** TableItem(title, amount=0.0). */
  function NewItem(title: string, amount: real := 0.0): (item: TableItem)
    ensures item.name == title
    ensures item.amount == amount
  {
    TableItem(title, amount)
  }

  /** An item created with only a title has a zero amount. */
  lemma NewItemDefaultsToZero(title: string)
    ensures NewItem(title).amount == 0.0
    ensures NewItem(title) == TableItem(title, 0.0)
  {
  }

  /** Overwriting the name keeps the amount, and the other way round. */
  lemma FieldUpdatesAreIndependent(item: TableItem, name: string, amount: real)
    ensures item.(name := name).amount == item.amount
    ensures item.(amount := amount).name == item.name
  {
  }

  /** Editing the item at index i of a list leaves every other item as it was. */
  lemma EditTouchesOneItem(items: seq<TableItem>, i: nat, item: TableItem)
    requires i < |items|
    ensures |items[i := item]| == |items|
    ensures items[i := item][i] == item
    ensures forall j :: 0 <= j < |items| && j != i ==> items[i := item][j] == items[j]
  {
  }
}
