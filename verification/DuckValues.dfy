// Values and types on the DuckDB side.
module DuckValues {
  import opened Wrappers

  datatype LogicalType = VARCHAR | BOOLEAN | DOUBLE | TIMESTAMP_TZ

  // OtherValue stands for every type without a constructor of its own (dates, lists, ...);
  // it carries what its ToString prints.
  datatype Value =
    | Null
    | BooleanValue(b: bool)
    | SignedValue(n: int)
    | UnsignedValue(u: nat)
    | DoubleValue(x: real)
    | VarcharValue(s: string)
    | OtherValue(text: string)

  // RustBridgeDuckDBLogicalType
  function DuckType(logicalType: int): LogicalType {
    if logicalType == 1 then BOOLEAN
    else if logicalType == 2 then DOUBLE
    else if logicalType == 3 then TIMESTAMP_TZ
    else VARCHAR
  }

  // Number parsing and casts from text, which this model leaves open. None is a failure.
  datatype Casts = Casts(parseDouble: string -> Option<real>, cast: (string, LogicalType) -> Option<Value>)
}
