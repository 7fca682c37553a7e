/** The values the host database hands to the contest module (each row is a Python
    `dict`), and the Python built-ins the module applies to them. */
module PyValue {
  import opened Wrappers
  import opened PyStr

  /** One column of a database row or of the contact record: text, an integer, or
      SQL NULL (Python `None`). */
  datatype Value = Str(text: string) | Int(num: int) | Null

  /** A database row, or the contact record being filled in: a `dict` from column name to value. */
  type Row = map<string, Value>

  /** Python truthiness of a column value. */
  predicate Truthy(v: Value) {
    match v
    case Str(s) => s != []
    case Int(n) => n != 0
    case Null => false
  }

  /** `if result:` for a query result: the query returned a row and the row is not an empty dict. */
  predicate Found(result: Option<Row>) {
    result.Some? && result.value != map[]
  }

  /** A query keyed by `key` against the rows the host database holds. */
  function Lookup(rows: map<string, Row>, key: string): Option<Row> {
    if key in rows then Some(rows[key]) else None
  }

  /** `row.get(key, default)` */
  function Get(row: Row, key: string, default: Value): Value {
    if key in row then row[key] else default
  }

  /** `row.get(key, "")` where the caller goes on to use it as a string: `None` when
      the stored value is not text, where Python raises on the next string operation. */
  function TextOf(row: Row, key: string): (r: Option<string>)
    ensures key !in row ==> r == Some("")
    ensures key in row ==> (r.Some? <==> row[key].Str?)
    ensures key in row && row[key].Str? ==> r.value == row[key].text
  {
    match Get(row, key, Str(""))
    case Str(s) => Some(s)
    case _ => None
  }

  /** The column is present but holds NULL or a number, so that using it as a
      string raises. */
  predicate NotText(row: Row, key: string) {
    key in row && !row[key].Str?
  }

  /** Python `int(v)`: integers as they are, text parsed as a decimal literal
      (`ValueError` when it is not one), `None` refused with `TypeError`. */
  function ToInt(v: Value): (r: Result<int>)
    ensures v.Int? ==> r == Ok(v.num)
    ensures v.Null? ==> r == Raises(TypeError)
    ensures v.Str? && ParseInt(v.text).Some? ==> r == Ok(ParseInt(v.text).value)
    ensures v.Str? && ParseInt(v.text).None? ==> r == Raises(ValueError)
  {
    match v
    case Int(n) => Ok(n)
    case Str(s) =>
      (match ParseInt(s)
       case Some(n) => Ok(n)
       case None => Raises(ValueError))
    case Null => Raises(TypeError)
  }

  /** `int()` gives back the integer whether the database stored it as a number or
      as its decimal text; it fails exactly on NULL and on text that is not a literal. */
  lemma ToIntOfStored(n: int, s: string)
    ensures ToInt(Int(n)) == Ok(n)
    ensures ToInt(Str(IntToString(n))) == Ok(n)
    ensures ToInt(Null).Raises?
    ensures ToInt(Str(s)).Raises? <==> ParseInt(s).None?
  {
    IntToStringRoundTrip(n);
  }
}
