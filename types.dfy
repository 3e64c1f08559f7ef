/** The records shared by the grocery components. */
module GroceryTypes {
  import opened Wrappers

  /** JavaScript `number`; the grocery code only compares quantities, never computes with them. */
  type Quantity = real

  /** One line of the list. */
  datatype GroceryItem = GroceryItem(id: string, name: string, quantity: Quantity, unit: string)

  /** The payload of `addItem`: a grocery item without its id. */
  datatype NewItem = NewItem(name: string, quantity: Quantity, unit: string)

  /**
   * The add-item form's values. The quantity field holds `undefined` while it
   * is empty, so it is optional here.
   */
  datatype GroceryFormData = GroceryFormData(name: string, quantity: Option<Quantity>, unit: string)

  /** The item `addItem` builds: the id first, then the payload's fields. */
  function WithId(id: string, item: NewItem): GroceryItem
  {
    GroceryItem(id, item.name, item.quantity, item.unit)
  }
}
