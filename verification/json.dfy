/** JSON values as `JSON.parse` produces them, and the two object
    operations the handlers apply to them: object spread (`{ ...data }`)
    and stamping with the receipt time under the key `waktu`. */
module Json {
  import opened Numerals

  datatype Value =
    | Null
    | Bool(b: bool)
    | Num(n: real)
    | Str(s: string)
    | Arr(items: seq<Value>)
    | Obj(fields: map<string, Value>)

  /** A plain object's own enumerable properties. Property order is not
      kept. */
  type Record = map<string, Value>

  /** `JSON.stringify`, left abstract: every operation that encodes takes
      the encoder as a parameter. */
  type Encoder = Record -> string

  /** The outcome of `JSON.parse` on a payload: it throws, or yields a
      value. */
  datatype ParseResult = SyntaxError | Parsed(value: Value)

  /** The key under which the receipt time is stored. */
  const TimestampKey: string := "waktu"

  /** `typeof v === "object"`: true for objects and arrays, and also for
      `null`. */
  predicate TypeofObject(v: Value) {
    v.Null? || v.Arr? || v.Obj?
  }

  /** The properties an array contributes to an object spread: each
      element under the decimal rendering of its index. */
  function Indexed(xs: seq<Value>): Record {
    if xs == [] then map[]
    else Indexed(xs[..|xs| - 1])[Decimal(|xs| - 1) := xs[|xs| - 1]]
  }

  /** An array of n elements spreads to exactly n properties, element i
      under the key for index i. */
  lemma {:induction false} IndexedContents(xs: seq<Value>)
    ensures |Indexed(xs)| == |xs|
    ensures forall i :: 0 <= i < |xs| ==> Decimal(i) in Indexed(xs) && Indexed(xs)[Decimal(i)] == xs[i]
  {
    if xs != [] {
      var last := |xs| - 1;
      var init := xs[..last];
      IndexedContents(init);
      forall i | 0 <= i < last
        ensures Decimal(i) != Decimal(last)
      {
        DecimalInjective(i, last);
      }
      if Decimal(last) in Indexed(init) {
        IndexedKeysBelow(init, Decimal(last));
        assert false;
      }
    }
  }

  /** Every key of an indexed array is the key of one of its indices. */
  lemma {:induction false} IndexedKeysBelow(xs: seq<Value>, k: string)
    requires k in Indexed(xs)
    ensures exists i :: 0 <= i < |xs| && k == Decimal(i)
  {
    var last := |xs| - 1;
    if k != Decimal(last) {
      IndexedKeysBelow(xs[..last], k);
      var i :| 0 <= i < last && k == Decimal(i);
      assert 0 <= i < |xs|;
    }
  }

  /** The own properties `{ ...v }` copies out of a value that passed the
      `typeof` test: an object's fields, an array's indexed elements, and
      nothing for `null`. */
  function Spread(v: Value): (r: Record)
    requires TypeofObject(v)
    ensures v.Obj? ==> r == v.fields
    ensures v.Null? ==> r == map[]
    ensures v.Arr? ==> |r| == |v.items|
    ensures v.Arr? ==> forall i :: 0 <= i < |v.items| ==> Decimal(i) in r && r[Decimal(i)] == v.items[i]
  {
    match v
    case Obj(m) => m
    case Arr(xs) => IndexedContents(xs); Indexed(xs)
    case Null => map[]
  }

  /** `{ ...fields, waktu: ts }`: the fields with `waktu` set to the
      timestamp, replacing any `waktu` already present. */
  function Stamp(fields: Record, ts: string): (r: Record)
    ensures r.Keys == fields.Keys + {TimestampKey}
    ensures r[TimestampKey] == Str(ts)
    ensures forall k :: k in fields && k != TimestampKey ==> r[k] == fields[k]
  {
    fields[TimestampKey := Str(ts)]
  }

  /** A record is stamped when it carries a string timestamp. */
  predicate IsStamped(r: Record) {
    TimestampKey in r && r[TimestampKey].Str?
  }
}
