/**
 * One MongoDB collection as the handlers use it: documents keyed by `_id`,
 * kept in the collection's natural order, with the store operations the
 * handlers call (insertOne, updateOne with $set or $inc and upsert,
 * deleteOne, find with an equality filter, find sorted by count with a limit).
 * Each operation is one atomic step.
 */
module Collections {
  import opened Wrappers
  import opened Documents

  /**
   * `docs` holds each document under its `_id`; `order` is the natural order
   * in which an unsorted `find()` returns them (insertion order).
   */
  datatype Collection = Collection(docs: map<ObjectId, Document>, order: seq<ObjectId>)

  ghost predicate Distinct(ids: seq<ObjectId>)
  {
    forall i, j :: 0 <= i < j < |ids| ==> ids[i] != ids[j]
  }

  /** `a` is `b` with some elements dropped, the rest kept in order. */
  ghost predicate IsSubsequence<T>(a: seq<T>, b: seq<T>)
    decreases |b|
  {
    a == [] || (b != [] && ((a[0] == b[0] && IsSubsequence(a[1..], b[1..])) || IsSubsequence(a, b[1..])))
  }

  /** The natural order lists every stored id exactly once. */
  ghost predicate WellFormed(c: Collection)
  {
    Distinct(c.order) && forall id :: id in c.docs <==> id in c.order
  }

  ghost predicate IdsDistinct(es: seq<Entry>)
  {
    forall i, j :: 0 <= i < j < |es| ==> es[i].id != es[j].id
  }

  /** True when `e` is a document of `c` exactly as stored. */
  ghost predicate Stored(c: Collection, e: Entry)
  {
    e.id in c.docs && e.doc == c.docs[e.id]
  }

  /** The documents listed by `ids`, in that order. */
  function EntriesOf(docs: map<ObjectId, Document>, ids: seq<ObjectId>): (es: seq<Entry>)
    requires forall id :: id in ids ==> id in docs
    ensures |es| == |ids|
    ensures forall i :: 0 <= i < |es| ==> es[i] == Entry(ids[i], docs[ids[i]])
    ensures forall e :: e in es <==> e.id in ids && e.id in docs && e.doc == docs[e.id]
    decreases |ids|
  {
    if ids == [] then []
    else [Entry(ids[0], docs[ids[0]])] + EntriesOf(docs, ids[1..])
  }

  /** `find().toArray()`: every document of the collection once, in natural order. */
  function FindAll(c: Collection): (es: seq<Entry>)
    requires WellFormed(c)
    ensures |es| == |c.order|
    ensures IdsDistinct(es)
    ensures forall e :: e in es <==> Stored(c, e)
  {
    EntriesOf(c.docs, c.order)
  }

  /** The documents of `es` that the equality filter `{ field: v }` selects, in their order. */
  function Where(es: seq<Entry>, field: string, v: Value): (r: seq<Entry>)
    ensures |r| <= |es|
    ensures forall e :: e in r <==> e in es && Matches(e.doc, field, v)
    ensures IdsDistinct(es) ==> IdsDistinct(r)
    ensures IsSubsequence(r, es)
    decreases |es|
  {
    if es == [] then []
    else if Matches(es[0].doc, field, v) then
      var rest := Where(es[1..], field, v);
      assert ([es[0]] + rest)[1..] == rest;
      UnconsDistinct(es);
      ConsDistinct(es[0], rest);
      [es[0]] + rest
    else
      UnconsDistinct(es);
      Where(es[1..], field, v)
  }

  /** `find({ field: v }).toArray()`: exactly the stored documents whose field equals `v`, each once. */
  function FindWhere(c: Collection, field: string, v: Value): (r: seq<Entry>)
    requires WellFormed(c)
    ensures IdsDistinct(r)
    ensures forall e :: e in r <==> Stored(c, e) && Matches(e.doc, field, v)
    ensures IsSubsequence(r, FindAll(c))
  {
    Where(FindAll(c), field, v)
  }

  /** The document with that `_id`, if any (`findOne({ _id })`). */
  function FindOne(c: Collection, id: ObjectId): (r: Option<Document>)
    ensures r.Some? <==> id in c.docs
    ensures r.Some? ==> r.value == c.docs[id]
  {
    if id in c.docs then Some(c.docs[id]) else None
  }

  // ---- Sorting on the purchase counter ----

  /** The counter as a number, when the document holds a number there. */
  function Count(e: Entry): Option<int>
  {
    if CounterField in e.doc && e.doc[CounterField].Num? then Some(e.doc[CounterField].n) else None
  }

  /** The value a sort on `purchaseFoodCount` compares: a missing field compares as null. */
  function SortKey(e: Entry): Value
  {
    if CounterField in e.doc then e.doc[CounterField] else Null
  }

  /** BSON's order between kinds of value: null, then numbers, then strings, then booleans. */
  function TypeRank(v: Value): nat
  {
    match v
    case Null => 0
    case Num(_) => 1
    case Str(_) => 2
    case Bool(_) => 3
  }

  /** Strings compare character by character (code point order, as UTF-8 bytes do); a proper prefix comes first. */
  predicate LexLeq(a: string, b: string)
    decreases |a|
  {
    a == [] || (b != [] && (a[0] < b[0] || (a[0] == b[0] && LexLeq(a[1..], b[1..]))))
  }

  lemma {:induction false} LexLeqTotal(a: string, b: string)
    ensures LexLeq(a, b) || LexLeq(b, a)
    decreases |a|
  {
    if a != [] && b != [] && a[0] == b[0] {
      LexLeqTotal(a[1..], b[1..]);
    }
  }

  lemma {:induction false} LexLeqTrans(a: string, b: string, c: string)
    requires LexLeq(a, b) && LexLeq(b, c)
    ensures LexLeq(a, c)
    decreases |a|
  {
    if a != [] && a[0] == b[0] && b[0] == c[0] {
      LexLeqTrans(a[1..], b[1..], c[1..]);
    }
  }

  /** MongoDB's ascending comparison, on the kinds of value the model has. */
  predicate BsonLeq(a: Value, b: Value)
  {
    if TypeRank(a) != TypeRank(b) then TypeRank(a) < TypeRank(b)
    else match (a, b)
      case (Num(x), Num(y)) => x <= y
      case (Str(x), Str(y)) => LexLeq(x, y)
      case (Bool(x), Bool(y)) => !x || y
      case _ => true
  }

  /** Any two values compare one way or the other. */
  lemma BsonLeqTotal(a: Value, b: Value)
    ensures BsonLeq(a, b) || BsonLeq(b, a)
  {
    if a.Str? && b.Str? {
      LexLeqTotal(a.s, b.s);
    }
  }

  lemma BsonLeqTrans(a: Value, b: Value, c: Value)
    requires BsonLeq(a, b) && BsonLeq(b, c)
    ensures BsonLeq(a, c)
  {
    if a.Str? && b.Str? && c.Str? {
      LexLeqTrans(a.s, b.s, c.s);
    }
  }

  /** True when `a` may come before `b` in the sort `{ purchaseFoodCount: -1 }`. */
  predicate Ranks(a: Entry, b: Entry)
  {
    BsonLeq(SortKey(b), SortKey(a))
  }

  ghost predicate SortedByCount(s: seq<Entry>)
  {
    forall i, j :: 0 <= i < j < |s| ==> Ranks(s[i], s[j])
  }

  /** Among documents holding a numeric counter, earlier ones hold counts at least as large. */
  ghost predicate CountsNonIncreasing(s: seq<Entry>)
  {
    forall i, j :: 0 <= i < j < |s| && Count(s[i]).Some? && Count(s[j]).Some? ==>
      Count(s[i]).value >= Count(s[j]).value
  }

  function InsertByCount(e: Entry, s: seq<Entry>): (r: seq<Entry>)
    ensures multiset(r) == multiset(s) + multiset{e}
    decreases |s|
  {
    if s == [] then [e]
    else if Ranks(e, s[0]) then [e] + s
    else
      assert s == [s[0]] + s[1..];
      [s[0]] + InsertByCount(e, s[1..])
  }

  /** Putting in front a document that ranks before every other keeps a sequence sorted. */
  lemma ConsSorted(x: Entry, s: seq<Entry>)
    requires SortedByCount(s)
    requires forall y :: y in s ==> Ranks(x, y)
    ensures SortedByCount([x] + s)
  {
    var r := [x] + s;
    forall i, j | 0 <= i < j < |r| ensures Ranks(r[i], r[j]) {
      assert r[j] == s[j - 1];
      if i > 0 {
        assert r[i] == s[i - 1];
      }
    }
  }

  /** The head of a sorted sequence ranks before everything in its tail, which is sorted too. */
  lemma UnconsSorted(s: seq<Entry>)
    requires s != [] && SortedByCount(s)
    ensures SortedByCount(s[1..])
    ensures forall y :: y in s[1..] ==> Ranks(s[0], y)
  {
    var tail := s[1..];
    forall i, j | 0 <= i < j < |tail| ensures Ranks(tail[i], tail[j]) {
      assert tail[i] == s[i + 1] && tail[j] == s[j + 1];
    }
    forall y | y in tail ensures Ranks(s[0], y) {
      var k :| 0 <= k < |tail| && tail[k] == y;
      assert s[k + 1] == y;
    }
  }

  /** Inserting into a sorted sequence keeps it sorted. */
  lemma {:induction false} InsertByCountSorted(e: Entry, s: seq<Entry>)
    requires SortedByCount(s)
    ensures SortedByCount(InsertByCount(e, s))
    decreases |s|
  {
    if s == [] {
    } else if Ranks(e, s[0]) {
      UnconsSorted(s);
      forall y | y in s ensures Ranks(e, y) {
        if y != s[0] {
          assert y in s[1..] by {
            assert s == [s[0]] + s[1..];
          }
          BsonLeqTrans(SortKey(y), SortKey(s[0]), SortKey(e));
        }
      }
      ConsSorted(e, s);
    } else {
      BsonLeqTotal(SortKey(e), SortKey(s[0]));
      UnconsSorted(s);
      var rest := InsertByCount(e, s[1..]);
      InsertByCountSorted(e, s[1..]);
      forall x | x in rest ensures Ranks(s[0], x) {
        assert x in multiset(rest);
        if x != e {
          assert x in multiset(s[1..]);
        }
      }
      ConsSorted(s[0], rest);
    }
  }

  /** Putting a document with a new `_id` in front keeps the `_id`s distinct. */
  lemma ConsDistinct(x: Entry, s: seq<Entry>)
    ensures (IdsDistinct(s) && forall y :: y in s ==> y.id != x.id) ==> IdsDistinct([x] + s)
  {
    if IdsDistinct(s) && forall y :: y in s ==> y.id != x.id {
      var r := [x] + s;
      forall i, j | 0 <= i < j < |r| ensures r[i].id != r[j].id {
        assert r[j] == s[j - 1];
        if i > 0 {
          assert r[i] == s[i - 1];
        }
      }
    }
  }

  /** The tail of a sequence with distinct `_id`s has them too, none of them its head's. */
  lemma UnconsDistinct(s: seq<Entry>)
    requires s != []
    ensures forall y :: y in s[1..] ==> y in s
    ensures IdsDistinct(s) ==> IdsDistinct(s[1..])
    ensures IdsDistinct(s) ==> forall y :: y in s[1..] ==> y.id != s[0].id
  {
    var tail := s[1..];
    assert s == [s[0]] + tail;
    if IdsDistinct(s) {
      forall i, j | 0 <= i < j < |tail| ensures tail[i].id != tail[j].id {
        assert tail[i] == s[i + 1] && tail[j] == s[j + 1];
      }
      forall y | y in tail ensures y.id != s[0].id {
        var k :| 0 <= k < |tail| && tail[k] == y;
        assert s[k + 1] == y;
      }
    }
  }

  /** Inserting a document whose `_id` is new keeps the `_id`s distinct. */
  lemma {:induction false} InsertByCountDistinct(e: Entry, s: seq<Entry>)
    requires IdsDistinct(s)
    requires forall x :: x in s ==> x.id != e.id
    ensures IdsDistinct(InsertByCount(e, s))
    decreases |s|
  {
    if s == [] {
    } else if Ranks(e, s[0]) {
      ConsDistinct(e, s);
    } else {
      UnconsDistinct(s);
      var rest := InsertByCount(e, s[1..]);
      InsertByCountDistinct(e, s[1..]);
      forall x | x in rest ensures x.id != s[0].id {
        assert x in multiset(rest);
        if x != e {
          assert x in multiset(s[1..]);
        }
      }
      ConsDistinct(s[0], rest);
    }
  }

  /** The store's sort on `purchaseFoodCount: -1`: a permutation, ordered by the counter. */
  function SortByCount(s: seq<Entry>): (r: seq<Entry>)
    ensures SortedByCount(r)
    ensures multiset(r) == multiset(s)
    decreases |s|
  {
    if s == [] then []
    else
      assert s == [s[0]] + s[1..];
      InsertByCountSorted(s[0], SortByCount(s[1..]));
      InsertByCount(s[0], SortByCount(s[1..]))
  }

  /** Sorting documents with distinct `_id`s returns each document once. */
  lemma {:induction false} SortByCountDistinct(s: seq<Entry>)
    requires IdsDistinct(s)
    ensures IdsDistinct(SortByCount(s))
    decreases |s|
  {
    if s != [] {
      var tail := s[1..];
      UnconsDistinct(s);
      SortByCountDistinct(tail);
      var sortedTail := SortByCount(tail);
      forall x | x in sortedTail ensures x.id != s[0].id {
        assert x in multiset(sortedTail);
      }
      InsertByCountDistinct(s[0], sortedTail);
    }
  }

  /**
   * `find().sort({ purchaseFoodCount: -1 }).limit(limit).toArray()`: at most
   * `limit` stored documents, each once, all of them when there are fewer,
   * in the sort's order, and no document left out sorts before one returned.
   * The limit is positive, as the handlers pass it: `.limit(0)` would mean
   * "no limit" to the store.
   */
  function FindTopByCount(c: Collection, limit: nat): (r: seq<Entry>)
    requires limit > 0
    requires WellFormed(c)
    ensures |r| <= limit
    ensures IdsDistinct(r)
    ensures forall e :: e in r ==> Stored(c, e)
    ensures |r| < limit ==> forall id :: id in c.docs ==> Entry(id, c.docs[id]) in r
    ensures SortedByCount(r)
    ensures CountsNonIncreasing(r)
    ensures forall id, i ::
      (id in c.docs && Entry(id, c.docs[id]) !in r && 0 <= i < |r|) ==>
        Ranks(r[i], Entry(id, c.docs[id]))
    ensures forall id, i ::
      (id in c.docs && Entry(id, c.docs[id]) !in r && 0 <= i < |r| &&
       Count(r[i]).Some? && Count(Entry(id, c.docs[id])).Some?) ==>
        Count(r[i]).value >= Count(Entry(id, c.docs[id])).value
  {
    var all := FindAll(c);
    var sorted := SortByCount(all);
    SortByCountDistinct(all);
    var r := if |sorted| <= limit then sorted else sorted[..limit];
    TopIsPrefix(all, sorted, r, limit);
    SortedCountsNonIncreasing(r);
    forall id | id in c.docs ensures Entry(id, c.docs[id]) in all {
      assert Stored(c, Entry(id, c.docs[id]));
    }
    forall id, i | id in c.docs && Entry(id, c.docs[id]) !in r && 0 <= i < |r| &&
                   Count(r[i]).Some? && Count(Entry(id, c.docs[id])).Some?
      ensures Count(r[i]).value >= Count(Entry(id, c.docs[id])).value
    {
      RanksNumeric(r[i], Entry(id, c.docs[id]));
    }
    r
  }

  /** A numeric counter ranks above another exactly when it is at least as large. */
  lemma RanksNumeric(a: Entry, b: Entry)
    requires Count(a).Some? && Count(b).Some?
    ensures Ranks(a, b) <==> Count(a).value >= Count(b).value
  {
  }

  lemma SortedCountsNonIncreasing(s: seq<Entry>)
    requires SortedByCount(s)
    ensures CountsNonIncreasing(s)
  {
    forall i, j | 0 <= i < j < |s| && Count(s[i]).Some? && Count(s[j]).Some?
      ensures Count(s[i]).value >= Count(s[j]).value
    {
      RanksNumeric(s[i], s[j]);
    }
  }

  /** Facts about a prefix of a sorted permutation, split out of FindTopByCount. */
  lemma TopIsPrefix(all: seq<Entry>, sorted: seq<Entry>, r: seq<Entry>, limit: nat)
    requires SortedByCount(sorted) && multiset(sorted) == multiset(all)
    requires r == if |sorted| <= limit then sorted else sorted[..limit]
    ensures |r| <= limit
    ensures forall e :: e in r ==> e in all
    ensures |r| < limit ==> forall e :: e in all ==> e in r
    ensures SortedByCount(r)
    ensures IdsDistinct(sorted) ==> IdsDistinct(r)
    ensures forall x, i :: x in all && x !in r && 0 <= i < |r| ==> Ranks(r[i], x)
  {
    forall e | e in r ensures e in all {
      assert e in sorted;
      assert e in multiset(sorted);
    }
    if |r| < limit {
      forall e | e in all ensures e in r {
        assert e in multiset(all);
      }
    }
    forall x, i | x in all && x !in r && 0 <= i < |r| ensures Ranks(r[i], x) {
      assert x in multiset(sorted);
      var j :| 0 <= j < |sorted| && sorted[j] == x;
      assert j >= |r|;
    }
  }

  // ---- Writes ----

  /** Why the store refuses a write. */
  datatype StoreError = DuplicateKey | IncRefused(reason: IncError)

  /** What `updateOne` reports: matchedCount, modifiedCount and the upserted `_id`, if any. */
  datatype UpdateResult = UpdateResult(matched: nat, modified: nat, upsertedId: Option<ObjectId>)

  /** A collection after an update, with the store's report. */
  datatype Updated = Updated(coll: Collection, result: UpdateResult)

  /** A collection after a `deleteOne`, with its deletedCount. */
  datatype Removed = Removed(coll: Collection, deletedCount: nat)

  /** `insertOne(d)` under the `_id` the driver generated; a taken `_id` is a duplicate-key error. */
  function InsertOne(c: Collection, id: ObjectId, d: Document): (r: Result<Collection, StoreError>)
    requires WellFormed(c)
    ensures r.Failure? <==> id in c.docs
    ensures r.Failure? ==> r.error == DuplicateKey
    ensures r.Success? ==> WellFormed(r.value) && r.value.docs == c.docs[id := d]
    ensures r.Success? ==> r.value.order == c.order + [id]
  {
    if id in c.docs then Failure(DuplicateKey)
    else Success(Collection(c.docs[id := d], c.order + [id]))
  }

  /** Stores `d` under `id`, keeping the natural order (an existing id) or appending it (a new one). */
  function Put(c: Collection, id: ObjectId, d: Document): (r: Collection)
    requires WellFormed(c)
    ensures WellFormed(r)
    ensures r.docs == c.docs[id := d]
    ensures r.order == if id in c.docs then c.order else c.order + [id]
  {
    if id in c.docs then Collection(c.docs[id := d], c.order)
    else Collection(c.docs[id := d], c.order + [id])
  }

  /** The report of an update that matched a document, modifying it only if its content changed. */
  function MatchedReport(before: Document, after: Document): UpdateResult
  {
    UpdateResult(1, if after == before then 0 else 1, None)
  }

  /**
   * `updateOne({ _id: id }, { $set: patch }, { upsert: true })`: merges the
   * patch into the document with that id, or creates one holding exactly the
   * patch when there is none. No other document changes.
   */
  function UpdateSet(c: Collection, id: ObjectId, patch: Document): (u: Updated)
    requires WellFormed(c)
    ensures WellFormed(u.coll)
    ensures id in u.coll.docs
    ensures forall k :: k in c.docs && k != id ==> k in u.coll.docs && u.coll.docs[k] == c.docs[k]
    ensures u.coll.docs.Keys == c.docs.Keys + {id}
    ensures id in c.docs ==> u.coll.docs[id] == SetFields(c.docs[id], patch) && u.coll.order == c.order
    ensures id in c.docs ==> u.result.matched == 1 && u.result.upsertedId == None
    ensures id in c.docs ==> u.result.modified == (if u.coll.docs[id] == c.docs[id] then 0 else 1)
    ensures id !in c.docs ==> u.coll.docs[id] == patch && u.coll.order == c.order + [id]
    ensures id !in c.docs ==> u.result == UpdateResult(0, 0, Some(id))
  {
    if id in c.docs then
      var d := SetFields(c.docs[id], patch);
      Updated(Put(c, id, d), MatchedReport(c.docs[id], d))
    else
      SetFieldsOnEmpty(patch);
      Updated(Put(c, id, SetFields(map[], patch)), UpdateResult(0, 0, Some(id)))
  }

  /**
   * `updateOne({ _id: id }, { $inc: { field: delta } }, { upsert: true })`:
   * adds the delta to that document's field, or creates a document holding
   * only the field set to the delta when there is none; refused, changing
   * nothing, when the delta or the stored field is not a number.
   */
  function UpdateInc(c: Collection, id: ObjectId, field: string, delta: Value): (r: Result<Updated, StoreError>)
    requires WellFormed(c)
    ensures !delta.Num? ==> r == Failure(IncRefused(NonNumericArgument))
    ensures r.Failure? <==> !delta.Num? || (id in c.docs && field in c.docs[id] && !c.docs[id][field].Num?)
    ensures r.Success? ==> WellFormed(r.value.coll) && r.value.coll.docs.Keys == c.docs.Keys + {id}
    ensures r.Success? ==> forall k :: k in c.docs && k != id ==> r.value.coll.docs[k] == c.docs[k]
    ensures r.Success? && id in c.docs ==>
      r.value.coll.docs[id] == c.docs[id][field := Num(CounterOf(c.docs[id], field) + delta.n)] &&
      r.value.coll.order == c.order &&
      r.value.result.matched == 1 && r.value.result.upsertedId == None
    ensures r.Success? && id in c.docs ==>
      r.value.result.modified == (if r.value.coll.docs[id] == c.docs[id] then 0 else 1)
    ensures r.Success? && id in c.docs ==>
      r.value.result.modified == (if delta.n != 0 || field !in c.docs[id] then 1 else 0)
    ensures r.Success? && id !in c.docs ==>
      r.value.coll.docs[id] == map[field := delta] && r.value.coll.order == c.order + [id] &&
      r.value.result == UpdateResult(0, 0, Some(id))
  {
    if id in c.docs then
      match IncField(c.docs[id], field, delta)
      case Failure(e) => Failure(IncRefused(e))
      case Success(d) =>
        assert d == c.docs[id][field := Num(CounterOf(c.docs[id], field) + delta.n)];
        Success(Updated(Put(c, id, d), MatchedReport(c.docs[id], d)))
    else
      match IncField(map[], field, delta)
      case Failure(e) => Failure(IncRefused(e))
      case Success(d) =>
        assert d == map[field := delta];
        Success(Updated(Put(c, id, d), UpdateResult(0, 0, Some(id))))
  }

  /** `ids` without `id`, in the same order. */
  function Without(ids: seq<ObjectId>, id: ObjectId): (r: seq<ObjectId>)
    ensures forall k :: k in r <==> k in ids && k != id
    ensures Distinct(ids) ==> Distinct(r)
    ensures id !in ids ==> r == ids
    ensures IsSubsequence(r, ids)
    decreases |ids|
  {
    if ids == [] then []
    else if ids[0] == id then
      UnconsIds(ids);
      Without(ids[1..], id)
    else
      var rest := Without(ids[1..], id);
      assert ([ids[0]] + rest)[1..] == rest;
      UnconsIds(ids);
      ConsIds(ids[0], rest);
      [ids[0]] + rest
  }

  /** The tail of a sequence keeps its distinctness, and a distinct head is not in it. */
  lemma UnconsIds(ids: seq<ObjectId>)
    requires ids != []
    ensures forall k :: k in ids[1..] ==> k in ids
    ensures Distinct(ids) ==> Distinct(ids[1..]) && ids[0] !in ids[1..]
  {
    assert ids == [ids[0]] + ids[1..];
  }

  /** A new id in front of distinct ids keeps them distinct. */
  lemma ConsIds(x: ObjectId, ids: seq<ObjectId>)
    ensures Distinct(ids) && x !in ids ==> Distinct([x] + ids)
  {
    if Distinct(ids) && x !in ids {
      var r := [x] + ids;
      forall i, j | 0 <= i < j < |r| ensures r[i] != r[j] {
        assert r[j] == ids[j - 1];
        if i > 0 {
          assert r[i] == ids[i - 1];
        }
      }
    }
  }

  /** `deleteOne({ _id: id })`: removes that document if present; otherwise nothing changes. */
  function DeleteOne(c: Collection, id: ObjectId): (r: Removed)
    requires WellFormed(c)
    ensures WellFormed(r.coll)
    ensures r.coll.docs == c.docs - {id}
    ensures r.deletedCount == if id in c.docs then 1 else 0
    ensures id !in c.docs ==> r.coll == c
    ensures IsSubsequence(r.coll.order, c.order)
  {
    var order := Without(c.order, id);
    var docs := c.docs - {id};
    assert forall k :: k in docs <==> k in order;
    assert id !in c.docs ==> docs == c.docs && order == c.order;
    Removed(Collection(docs, order), if id in c.docs then 1 else 0)
  }

  /** A document inserted under `id` is what a lookup of `id` then finds. */
  lemma InsertThenFindOne(c: Collection, id: ObjectId, d: Document)
    requires WellFormed(c) && id !in c.docs
    ensures FindOne(InsertOne(c, id, d).value, id) == Some(d)
  {
  }

  /** A listing inserted with its owner's email is among that owner's listings afterwards. */
  lemma InsertThenFindWhere(c: Collection, id: ObjectId, d: Document, field: string, v: Value)
    requires WellFormed(c) && id !in c.docs && Matches(d, field, v)
    ensures Entry(id, d) in FindWhere(InsertOne(c, id, d).value, field, v)
  {
  }
}
