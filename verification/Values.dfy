/** Parsed JSON as the verifiers see it. */
module Values {

  datatype Value =
    | Null
    | Bool(b: bool)
    | Int(n: int)
    | Float(text: string)
    | Text(s: string)
    | List(items: seq<Value>)
    | Object(record: Record)

  /**
   A JSON object, with the three fields that every ledger record carries kept apart from the rest.
   An absent field reads as null.
   */
  datatype Record = Record(seqNo: Value, prevHash: Value, recordHash: Value, fields: map<string, Value>)

  function Get(record: Record, key: string): Value {
    if key in record.fields then record.fields[key] else Null
  }
}
