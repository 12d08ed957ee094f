/** The values the harvester writes to its JSON file and the normaliser reads
    into table cells. */
module Json {
  import opened Maybe

  /** A cell: a string, a number (integers and floats alike, since no
      modelled rule tells them apart), or `Null`, which stands for JSON
      `null`, Python's `None`, pandas' `NaN` and an absent key. */
  datatype Value = Text(s: string) | Number(x: real) | Null

  /** One harvested product: field name to value. */
  type Record = map<string, Value>

  /** A possibly missing string as a cell. */
  function OptionalText(o: Option<string>): (v: Value)
    ensures v.Null? <==> o.None?
  {
    match o
    case None => Null
    case Some(s) => Text(s)
  }
}
