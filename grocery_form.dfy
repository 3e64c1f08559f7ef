/**
 * The add-item form: the submit handler that rejects blank names, trims
 * accepted ones and resets the form, and its hand-off to the store.
 */
module GroceryForm {
  import opened Wrappers
  import opened GroceryTypes
  import opened JsString
  import GroceryContext
  import GeneratePdf

  const DefaultUnit: string := "kg"
  const NameErrorMessage: string := "Please enter an item name"

  /** The form's initial values, and the values it is reset to. */
  function DefaultValues(): GroceryFormData
  {
    GroceryFormData("", None, DefaultUnit)
  }

  /** The quantity input's change handler: an empty input becomes `undefined`, anything else `parseFloat` of it. */
  function QuantityFromInput(raw: string, parseFloat: string -> Quantity): (q: Option<Quantity>)
    ensures q.None? <==> raw == ""
    ensures q.Some? ==> q.value == parseFloat(raw)
  {
    if raw == "" then None else Some(parseFloat(raw))
  }

  /** The quantity field's declared rules, checked before the submit handler runs: present and at least 1. */
  predicate QuantityRulesHold(data: GroceryFormData)
  {
    data.quantity.Some? && data.quantity.value >= 1.0
  }

  datatype FieldError = FieldError(field: string, message: string)

  /** What a submission does: set an error and keep the form, or add an item and reset the form. */
  datatype SubmitOutcome =
    | Rejected(error: FieldError, form: GroceryFormData)
    | Accepted(item: NewItem, form: GroceryFormData)

  /** `onSubmit`. */
  function OnSubmit(data: GroceryFormData): (r: SubmitOutcome)
    requires QuantityRulesHold(data)
    ensures r.Rejected? <==> AllWhiteSpace(data.name)
    ensures r.Rejected? ==> r.error == FieldError("name", NameErrorMessage) && r.form == data
    ensures r.Accepted? ==> r.item == NewItem(Trim(data.name), data.quantity.value, data.unit)
                            && r.form == DefaultValues()
  {
    TrimBlankIff(data.name);
    if Trim(data.name) == "" then
      Rejected(FieldError("name", NameErrorMessage), data)
    else
      Accepted(NewItem(Trim(data.name), data.quantity.value, data.unit), DefaultValues())
  }

  /** The name handed to `addItem` is not empty and has no whitespace at either end. */
  lemma AcceptedNameIsTrimmed(data: GroceryFormData)
    requires QuantityRulesHold(data)
    requires OnSubmit(data).Accepted?
    ensures OnSubmit(data).item.name != ""
    ensures Trim(OnSubmit(data).item.name) == OnSubmit(data).item.name
    ensures !IsWhiteSpace(OnSubmit(data).item.name[0])
    ensures !IsWhiteSpace(OnSubmit(data).item.name[|OnSubmit(data).item.name| - 1])
  {
  }

  /** An item that came through the form always passes the PDF button's validity filter. */
  lemma AcceptedItemIsValidForPdf(data: GroceryFormData, id: string)
    requires QuantityRulesHold(data)
    requires OnSubmit(data).Accepted?
    ensures GeneratePdf.IsValidPdfItem(WithId(id, OnSubmit(data).item))
  {
  }

  /**
   * The submit handler wired to the store: an accepted submission calls
   * `addItem` once with the outcome's item, a rejected one leaves the store
   * alone.
   */
  method SubmitToStore(store: GroceryContext.GroceryStore, data: GroceryFormData, id: string)
    returns (r: SubmitOutcome)
    requires QuantityRulesHold(data)
    modifies store
    ensures r == OnSubmit(data)
    ensures r.Accepted? ==> store.items == old(store.items) + [WithId(id, r.item)]
    ensures r.Rejected? ==> store.items == old(store.items)
    ensures store.title == old(store.title)
  {
    r := OnSubmit(data);
    if r.Accepted? {
      store.AddItem(r.item, id);
    }
  }
}
