/**
 * Documents as the two collections store them, and the two field-update
 * operators the handlers send to the store: `$set` and `$inc`.
 */
module Documents {
  import opened Wrappers

  /** An ObjectId as the BSON library builds it from a 24-digit hex string. */
  datatype ObjectId = ObjectId(hex: string)

  /** The field values a JSON request body carries, as far as the core looks at them. */
  datatype Value = Num(n: int) | Str(s: string) | Bool(b: bool) | Null

  /** A document without its `_id`; the id is the key under which the collection keeps it. */
  type Document = map<string, Value>

  /** A document as a read returns it: its `_id` together with its fields. */
  datatype Entry = Entry(id: ObjectId, doc: Document)

  /** The listing field that `/update/purchasecount/:id` increments and `GET /addfood` sorts on. */
  const CounterField: string := "purchaseFoodCount"

  /** The field a listing's owner is recorded in. */
  const ListingOwnerField: string := "userEmail"

  /** The field a purchase record's purchaser is recorded in. */
  const PurchaserField: string := "email"

  /** True when the equality filter `{ field: v }` selects `d`. */
  predicate Matches(d: Document, field: string, v: Value)
  {
    field in d && d[field] == v
  }

  /** `{ $set: patch }`: every key of the patch overwrites; every other key keeps its value. */
  function SetFields(d: Document, patch: Document): (r: Document)
    ensures r.Keys == d.Keys + patch.Keys
    ensures forall f :: f in patch ==> r[f] == patch[f]
    ensures forall f :: f in d && f !in patch ==> r[f] == d[f]
  {
    d + patch
  }

  /** Setting the same fields twice is the same as setting them once. */
  lemma SetFieldsIdempotent(d: Document, patch: Document)
    ensures SetFields(SetFields(d, patch), patch) == SetFields(d, patch)
  {
  }

  /** A merge onto an empty document yields exactly the patch (what an upsert stores). */
  lemma SetFieldsOnEmpty(patch: Document)
    ensures SetFields(map[], patch) == patch
  {
  }

  /** Why the store refuses an `$inc`. */
  datatype IncError = NonNumericArgument | NonNumericField

  /** The numeric value `$inc` starts from: the field's number, or 0 when the field is absent. */
  function CounterOf(d: Document, field: string): int
  {
    if field in d && d[field].Num? then d[field].n else 0
  }

  /**
   * `{ $inc: { field: delta } }` on one document: adds the signed delta to the
   * field (an absent field counts as 0); refused when the delta or the stored
   * value is not a number. There is no lower bound.
   */
  function IncField(d: Document, field: string, delta: Value): (r: Result<Document, IncError>)
    ensures !delta.Num? ==> r == Failure(NonNumericArgument)
    ensures delta.Num? && field in d && !d[field].Num? ==> r == Failure(NonNumericField)
    ensures r.Success? <==> delta.Num? && (field in d ==> d[field].Num?)
    ensures r.Success? ==> r.value.Keys == d.Keys + {field}
    ensures r.Success? ==> r.value[field] == Num(CounterOf(d, field) + delta.n)
    ensures r.Success? ==> forall f :: f in d && f != field ==> r.value[f] == d[f]
  {
    if !delta.Num? then Failure(NonNumericArgument)
    else if field in d && !d[field].Num? then Failure(NonNumericField)
    else Success(d[field := Num(CounterOf(d, field) + delta.n)])
  }

  /** The result of sending the increments one after another, stopping at the first refusal. */
  function IncAll(d: Document, field: string, deltas: seq<int>): Result<Document, IncError>
    decreases |deltas|
  {
    if deltas == [] then Success(d)
    else match IncField(d, field, Num(deltas[0]))
      case Failure(e) => Failure(e)
      case Success(d') => IncAll(d', field, deltas[1..])
  }

  function Sum(xs: seq<int>): int
    decreases |xs|
  {
    if xs == [] then 0 else xs[0] + Sum(xs[1..])
  }

  /**
   * The counter invariant: after any sequence of signed increments the counter
   * holds its starting value plus the sum of the deltas, and no other field changes.
   */
  lemma {:induction false} IncAllAddsSum(d: Document, field: string, deltas: seq<int>)
    requires field in d ==> d[field].Num?
    ensures IncAll(d, field, deltas).Success?
    ensures var r := IncAll(d, field, deltas).value;
      (deltas != [] ==> r.Keys == d.Keys + {field}) &&
      (deltas == [] ==> r == d) &&
      (field in r ==> r[field] == Num(CounterOf(d, field) + Sum(deltas))) &&
      (forall f :: f in d && f != field ==> r[f] == d[f])
    decreases |deltas|
  {
    if deltas != [] {
      var d' := IncField(d, field, Num(deltas[0])).value;
      IncAllAddsSum(d', field, deltas[1..]);
      assert CounterOf(d', field) == CounterOf(d, field) + deltas[0];
    }
  }

  /** An increment of -1 on a counter at 0 is accepted and leaves -1: nothing clamps it. */
  lemma CounterGoesNegative(d: Document)
    requires CounterField in d && d[CounterField] == Num(0)
    ensures IncField(d, CounterField, Num(-1)) == Success(d[CounterField := Num(-1)])
  {
  }
}
