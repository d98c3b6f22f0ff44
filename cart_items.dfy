/**
 * The item map shared by the three shopping-cart samples: item id to
 * quantity, with the `updateItem` / `removeItem` rules every one of their
 * `State` classes follows.
 */
module CartItems {

  type Items = map<string, int>

  /** `updateItem(itemId, quantity)`: quantity 0 removes the entry, any other quantity overwrites it. */
  function WithQuantity(items: Items, itemId: string, quantity: int): (r: Items)
    ensures quantity == 0 ==> itemId !in r
    ensures quantity != 0 ==> itemId in r && r[itemId] == quantity
    ensures forall k :: k != itemId ==> (k in r <==> k in items)
    ensures forall k :: k in r && k != itemId ==> r[k] == items[k]
  {
    if quantity == 0 then items - {itemId} else items[itemId := quantity]
  }

  /** `removeItem(itemId)`: that entry goes, every other one stays. */
  function Without(items: Items, itemId: string): (r: Items)
    ensures itemId !in r
    ensures forall k :: k != itemId ==> (k in r <==> k in items)
    ensures forall k :: k in r ==> r[k] == items[k]
  {
    items - {itemId}
  }

  /** Every stored quantity is positive: the shape the command handlers keep. */
  predicate AllPositive(items: Items)
  {
    forall k :: k in items ==> items[k] > 0
  }
}
