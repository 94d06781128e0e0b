/**
 * The two mappings of the sort dialog between the stored sort-order string
 * and the dialog's (field option, ascending) pair.
 */
module SearchTools {
  import opened UiState

  const Numero := "Número"
  const Nombre := "Nombre"

  /** The dialog's options, in display order. */
  const Options: seq<string> := [Numero, Nombre]

  /** The `remember(currentSortOrder)` block: the pair the dialog starts from. */
  function DecodeSortOrder(order: string): (string, bool) {
    if order == "BY_NUMBER_ASC" then (Numero, true)
    else if order == "BY_NUMBER_DESC" then (Numero, false)
    else if order == "BY_NAME_ASC" then (Nombre, true)
    else if order == "BY_NAME_DESC" then (Nombre, false)
    else (Numero, true)
  }

  /** The "Aplicar" button's `when`: the string handed to `changeSortOrder`. */
  function EncodeSortOrder(option: string, ascending: bool): (order: string)
    ensures order in SortOrderNames
    ensures option !in Options ==> order == "BY_NUMBER_ASC"
  {
    if option == Numero && ascending then "BY_NUMBER_ASC"
    else if option == Numero && !ascending then "BY_NUMBER_DESC"
    else if option == Nombre && ascending then "BY_NAME_ASC"
    else if option == Nombre && !ascending then "BY_NAME_DESC"
    else "BY_NUMBER_ASC"
  }

  /**
   * Decoding picks an offered option, sends the numeric descending and both
   * name orders to their own pair, and maps every other string to
   * (Número, ascending).
   */
  lemma DecodeSpec(order: string)
    ensures DecodeSortOrder(order).0 in Options
    ensures order !in SortOrderNames ==> DecodeSortOrder(order) == (Numero, true)
    ensures DecodeSortOrder(order).1 <==> order != "BY_NUMBER_DESC" && order != "BY_NAME_DESC"
    ensures DecodeSortOrder(order).0 == Nombre <==> order == "BY_NAME_ASC" || order == "BY_NAME_DESC"
  {
  }

  /** Opening the dialog and applying it unchanged keeps a valid order string. */
  lemma EncodeDecode(order: string)
    requires order in SortOrderNames
    ensures EncodeSortOrder(DecodeSortOrder(order).0, DecodeSortOrder(order).1) == order
  {
  }

  /** Applying a choice and reopening the dialog shows that same choice. */
  lemma DecodeEncode(option: string, ascending: bool)
    requires option in Options
    ensures DecodeSortOrder(EncodeSortOrder(option, ascending)) == (option, ascending)
  {
  }
}
