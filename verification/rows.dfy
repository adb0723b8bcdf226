/** SQLite cells and rows, as far as the maintenance engine looks at them. */
module Rows {

  datatype Value =
    | Null
    | Integer(i: int)
    | Real(bits: int)
    | Text(s: string)
    | Blob(b: seq<int>)

  type Row = seq<Value>

  /** The membership key where rows are compared by equality. */
  function Itself(x: Row): Row {
    x
  }
}
