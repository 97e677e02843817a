/**
 * `GlobalDropdown.tsx`: the item list it hands to Carbon's `Dropdown`, the
 * label it shows, and the value it forwards on a change.
 */
module GlobalDropdown {
  import opened Wrappers

  /** An object item `{ id, text }`. */
  datatype Item = Item(id: string, text: string)

  /** The `items` prop: either all strings or all objects. */
  datatype Items = Strings(strings: seq<string>) | Objects(objects: seq<Item>)

  /** `typeof items[0] === "string"`: false for an empty list, whose first element is `undefined`. */
  predicate FirstIsString(items: Items) {
    items.Strings? && |items.strings| > 0
  }

  function Texts(objects: seq<Item>): (r: seq<string>)
    ensures |r| == |objects|
    ensures forall i :: 0 <= i < |r| ==> r[i] == objects[i].text
  {
    seq(|objects|, i requires 0 <= i < |objects| => objects[i].text)
  }

  /**
   * `formattedItems`: string items pass through unchanged; object items
   * become their `text`, in order; an empty list of either kind is empty.
   */
  function FormattedItems(items: Items): (r: seq<string>)
    ensures items.Strings? ==> r == items.strings
    ensures items.Objects? ==> |r| == |items.objects|
    ensures items.Objects? ==> forall i :: 0 <= i < |r| ==> r[i] == items.objects[i].text
  {
    if FirstIsString(items) then items.strings
    else Texts(if items.Objects? then items.objects else [])
  }

  /** The label shown when nothing is selected. */
  const Placeholder: string := "Select an option"

  /** `selectedItem || "Select an option"`: never empty, and the selection itself when there is one. */
  function Label(selectedItem: string): (r: string)
    ensures r != ""
    ensures selectedItem != "" ==> r == selectedItem
    ensures selectedItem == "" ==> r == Placeholder
  {
    if selectedItem != "" then selectedItem else Placeholder
  }

  /** `onChange(selectedItem || "")`: the chosen item, or `""` when Carbon reports none. */
  function Forwarded(chosen: Option<string>): (r: string)
    ensures chosen.Some? ==> r == chosen.value
    ensures chosen.None? ==> r == ""
  {
    if chosen.Some? && chosen.value != "" then chosen.value else ""
  }

  /** A forwarded value is always one of the offered items or `""`. */
  lemma ForwardedIsOfferedOrEmpty(items: Items, chosen: Option<string>)
    requires chosen.Some? ==> chosen.value in FormattedItems(items)
    ensures Forwarded(chosen) == "" || Forwarded(chosen) in FormattedItems(items)
  {
  }
}
