/**
 * The "Generate PDF" button: which items reach the PDF generator, whether
 * it runs at all, and when the button is disabled. The generator itself
 * (layout, download) is an external collaborator; its result is described by
 * the request it would receive.
 */
module GeneratePdf {
  import opened GroceryTypes
  import opened JsString
  import JsArray

  /** An item worth printing: a name that is not blank after trimming and a positive quantity. */
  predicate IsValidPdfItem(item: GroceryItem)
  {
    Trim(item.name) != "" && item.quantity > 0.0
  }

  /** `items.filter(item => item.name.trim() !== '' && item.quantity > 0)`. */
  function ValidItems(items: seq<GroceryItem>): seq<GroceryItem>
  {
    JsArray.Filter(items, IsValidPdfItem)
  }

  /** The name of the downloaded file. */
  function DownloadFileName(title: string): (name: string)
    ensures |name| == |title| + 9 && name[..|title|] == title
    ensures name[|title|..] == "-list.pdf"
  {
    title + "-list.pdf"
  }

  /** What the click handler does: call the generator with this request, or show the error toast. */
  datatype PdfOutcome =
    | Generated(items: seq<GroceryItem>, title: string, fileName: string)
    | NoValidItems

  /**
   * The click handler. It reads the items and the title and changes neither;
   * the generator runs exactly when at least one item is valid, and then
   * receives the valid items and the title untouched.
   */
  function HandleGeneratePdf(items: seq<GroceryItem>, title: string): (r: PdfOutcome)
    ensures r.Generated? <==> exists i :: 0 <= i < |items| && IsValidPdfItem(items[i])
    ensures r.Generated? ==> r.items == ValidItems(items) && r.title == title
                              && r.fileName == DownloadFileName(title)
  {
    JsArray.FilterEmptyIff(items, IsValidPdfItem);
    var valid := ValidItems(items);
    if |valid| > 0 then Generated(valid, title, DownloadFileName(title)) else NoValidItems
  }

  /** `disabled={items.length === 0}`. */
  function GenerateButtonDisabled(items: seq<GroceryItem>): (disabled: bool)
    ensures disabled <==> items == []
  {
    |items| == 0
  }

  /**
   * Every item handed to the generator has a name with a non-whitespace
   * character and a positive quantity.
   */
  lemma ValidItemsAreValid(items: seq<GroceryItem>)
    ensures forall i :: 0 <= i < |ValidItems(items)| ==>
              !AllWhiteSpace(ValidItems(items)[i].name) && ValidItems(items)[i].quantity > 0.0
  {
  }

  /**
   * Nothing valid is dropped and nothing is reordered: the valid items are a
   * subsequence of the list holding each valid item as often as the list does.
   */
  lemma ValidItemsKeepOrderAndAll(items: seq<GroceryItem>)
    ensures JsArray.IsSubsequence(ValidItems(items), items)
    ensures forall x :: multiset(ValidItems(items))[x] == if IsValidPdfItem(x) then multiset(items)[x] else 0
  {
    JsArray.FilterIsSubsequence(items, IsValidPdfItem);
    JsArray.FilterCount(items, IsValidPdfItem);
  }

  /** A disabled button could only have reported the error: an empty list has no valid item. */
  lemma DisabledListNeverGenerates(items: seq<GroceryItem>, title: string)
    requires GenerateButtonDisabled(items)
    ensures HandleGeneratePdf(items, title) == NoValidItems
  {
  }

  /** An enabled button still reports the error when every item is blank-named or has no positive quantity. */
  lemma AllInvalidReportsError(items: seq<GroceryItem>, title: string)
    requires forall i :: 0 <= i < |items| ==> Trim(items[i].name) == "" || items[i].quantity <= 0.0
    ensures HandleGeneratePdf(items, title) == NoValidItems
  {
  }
}
