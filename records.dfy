/** The values the service moves between the store and its callers: the
    properties of a stored object, JavaScript truthiness of a property, the
    conversion of a property into an object key, and the error outcomes. */
module Records {

  /** A property value as the store hands it back. `Undefined` is what a
      JavaScript read of an absent property yields. */
  datatype Value = Undefined | Null | Text(s: string) | Int(i: int) | Bool(b: bool)

  /** One object of a collection: its named properties. */
  datatype StoredObject = StoredObject(properties: map<string, Value>)

  /** Reading `item.properties.<name>`: an absent property reads as `Undefined`. */
  function Prop(o: StoredObject, name: string): (v: Value)
    ensures name !in o.properties ==> v == Undefined
  {
    if name in o.properties then o.properties[name] else Undefined
  }

  /** JavaScript truthiness: `undefined`, `null`, `""`, `0` and `false` are falsy. */
  predicate Truthy(v: Value)
  {
    match v
    case Undefined => false
    case Null => false
    case Text(s) => s != ""
    case Int(i) => i != 0
    case Bool(b) => b
  }

  function DigitChar(d: nat): (c: char)
    requires d < 10
  {
    "0123456789"[d]
  }

  /** Decimal digits of `n`, most significant first, as `String(n)` writes them. */
  function NatToString(n: nat): (r: string)
    ensures |r| > 0
  {
    if n < 10 then [DigitChar(n)] else NatToString(n / 10) + [DigitChar(n % 10)]
  }

  function IntToString(i: int): (r: string)
    ensures |r| > 0
  {
    if i < 0 then "-" + NatToString(-i) else NatToString(i)
  }

  /** The string a value becomes when it is used as an object key (`groups[v]`). */
  function PropertyKey(v: Value): (key: string)
  {
    match v
    case Undefined => "undefined"
    case Null => "null"
    case Text(s) => s
    case Int(i) => IntToString(i)
    case Bool(b) => if b then "true" else "false"
  }

  /** Why a call into the store, or the grouping, failed. */
  datatype StoreError =
    | Unavailable                 // the store rejected the request (network, validation)
    | NoSuchCollection            // the named collection does not exist
    | AlreadyExists               // a collection of that name exists already
    | PushIsNotAFunction(key: string) // `groups[key].push` is not a function (a JavaScript TypeError)

  datatype Result<T> = Ok(value: T) | Err(error: StoreError)

  datatype Outcome = Pass | Fail(error: StoreError)
}
