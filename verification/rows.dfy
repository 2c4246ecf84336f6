/** The captured row: Kotlin's `data class ScanRow(storeCode, barcode, date)`. */
module Rows {

  datatype ScanRow = ScanRow(storeCode: string, barcode: string, date: string)

  /** No field of `r` contains `c`. */
  predicate FieldsAvoid(r: ScanRow, c: char)
  {
    c !in r.storeCode && c !in r.barcode && c !in r.date
  }

  /** Every row avoids `c` in every field. */
  predicate AllFieldsAvoid(rows: seq<ScanRow>, c: char)
  {
    forall k :: 0 <= k < |rows| ==> FieldsAvoid(rows[k], c)
  }
}
