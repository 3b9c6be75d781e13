/** The values a component is saved as. */
module Fields {
  /** A table lists its entries in key order, which is how `std::map` iterates. */
  type FieldTable = seq<Field>
  datatype Field = Field(key: string, value: FieldValue)
  datatype FieldValue =
    | Int(i: int)
    | Num(x: real)
    | Bool(b: bool)
    | Str(s: string)
    | Arr(items: seq<FieldValue>)
    | Tab(table: FieldTable)
}
