/** Stored records and the MongoDB operations the services use on them. A record is a flat map from
    field name to value (a nested path such as `location.searchCity` is one dotted key); a collection
    is the sequence of its records in natural order, which is the order `find` returns them in. */
module Docs {
  import opened Common
  import Lists

  /** The JavaScript values a record field or a request field can hold. `Obj` stands for any object
      that is not an array (a function, a class instance); its name only tells objects apart. */
  datatype Value =
    | Undefined
    | Null
    | Bool(b: bool)
    | Num(n: int)
    | Str(s: string)
    | Arr(items: seq<Value>)
    | Obj(name: string)

  /** JavaScript truthiness (`if (v)`): undefined, null, false, 0 and "" are falsy; every array and
      object, even an empty one, is truthy. */
  predicate Truthy(v: Value)
  {
    match v
    case Undefined => false
    case Null => false
    case Bool(b) => b
    case Num(n) => n != 0
    case Str(s) => s != ""
    case Arr(_) => true
    case Obj(_) => true
  }

  type Doc = map<string, Value>

  /** Reading a field: a missing field reads as undefined. */
  function Get(d: Doc, field: string): Value
  {
    if field in d then d[field] else Undefined
  }

  function IdOf(d: Doc): Value
  {
    Get(d, "_id")
  }

  /** The query `{ _id: id }`. */
  function ById(id: Value): Doc
  {
    map["_id" := id]
  }

  /** An equality query: every field of the query has exactly that value in the record. */
  predicate Matches(d: Doc, query: Doc)
  {
    forall field :: field in query ==> Get(d, field) == query[field]
  }

  /** `v.toString() === expected` for a stored owner id v. The schemas keep owner ids as strings (a
      Mongoose `String` path, or an ObjectId, which this model keeps as its hex string); `toString`
      of undefined or null throws. */
  function SameId(v: Value, expected: Value): (r: Result<bool>)
    ensures r.Err? <==> v == Undefined || v == Null
    ensures r.Err? ==> r.error == RuntimeError
    ensures r == Ok(true) <==> v.Str? && expected == v
  {
    match v
    case Undefined => Err(RuntimeError)
    case Null => Err(RuntimeError)
    case Str(s) => Ok(expected == Str(s))
    case _ => Ok(false)
  }

  /** The position of the first record at or after `from` that matches the query, or -1. */
  function FindFrom(docs: seq<Doc>, query: Doc, from: nat): (r: int)
    decreases |docs| - from
    ensures r == -1 || (from <= r < |docs| && Matches(docs[r], query))
    ensures r == -1 ==> forall j :: from <= j < |docs| ==> !Matches(docs[j], query)
    ensures r != -1 ==> forall j :: from <= j < r ==> !Matches(docs[j], query)
  {
    if from >= |docs| then -1
    else if Matches(docs[from], query) then from
    else FindFrom(docs, query, from + 1)
  }

  function FindIndex(docs: seq<Doc>, query: Doc): int
  {
    FindFrom(docs, query, 0)
  }

  /** `Model.findOne(query)`: the first matching record in natural order, or null. */
  function FindOne(docs: seq<Doc>, query: Doc): (r: Option<Doc>)
    ensures r.None? <==> forall j :: 0 <= j < |docs| ==> !Matches(docs[j], query)
    ensures r.Some? ==> r.value == docs[FindIndex(docs, query)] && Matches(r.value, query)
  {
    var i := FindIndex(docs, query);
    if i < 0 then None else Some(docs[i])
  }

  /** `Model.find(query)`: every matching record, in natural order. */
  function FindAll(docs: seq<Doc>, query: Doc): (r: seq<Doc>)
    ensures forall j :: 0 <= j < |r| ==> r[j] in docs && Matches(r[j], query)
    ensures forall j :: 0 <= j < |docs| && Matches(docs[j], query) ==> docs[j] in r
    ensures |r| <= |docs|
  {
    if docs == [] then []
    else
      assert docs == [docs[0]] + docs[1..];
      (if Matches(docs[0], query) then [docs[0]] else []) + FindAll(docs[1..], query)
  }

  /** `find` keeps natural order: the matches of a concatenation are the matches of the first part,
      then those of the second. */
  lemma {:induction false} FindAllAppend(a: seq<Doc>, b: seq<Doc>, query: Doc)
    ensures FindAll(a + b, query) == FindAll(a, query) + FindAll(b, query)
  {
    if a == [] {
      assert a + b == b;
    } else {
      assert (a + b)[1..] == a[1..] + b;
      FindAllAppend(a[1..], b, query);
    }
  }

  /** A single record is found exactly when it matches. */
  lemma FindAllSingle(d: Doc, query: Doc)
    ensures FindAll([d], query) == if Matches(d, query) then [d] else []
  {
    assert [d][1..] == [];
  }

  /** An update document of MongoDB: `$set` of fields (what an update with a plain object does),
      `$push` of one value onto an array field, or `$pull` of every copy of a value from one. */
  datatype Update = Set(fields: Doc) | Push(field: string, value: Value) | Pull(field: string, value: Value)

  /** The items of an array field; a missing field holds none. */
  function ItemsOf(d: Doc, field: string): seq<Value>
  {
    match Get(d, field)
    case Arr(items) => items
    case _ => []
  }

  /** What field f reads after `$set` of `fields`. */
  function SetValue(d: Doc, fields: Doc, f: string): Value
  {
    if f in fields && f != "_id" && fields[f] != Undefined then fields[f] else Get(d, f)
  }

  /** An update applied to one record. `$set` never changes `_id` and leaves out fields whose value
      is undefined; `$push` creates a missing array field. */
  function Apply(d: Doc, u: Update): (r: Doc)
    ensures IdOf(r) == IdOf(d)
    ensures u.Set? ==> forall f :: Get(r, f) == SetValue(d, u.fields, f)
    ensures u.Push? && u.field != "_id" ==> ItemsOf(r, u.field) == ItemsOf(d, u.field) + [u.value]
    ensures u.Pull? && u.field != "_id" && Get(d, u.field).Arr? ==>
      ItemsOf(r, u.field) == Lists.Without(ItemsOf(d, u.field), u.value)
    ensures !u.Set? ==> forall f :: f != u.field ==> Get(r, f) == Get(d, f)
  {
    match u
    case Set(fields) =>
      d + map f | f in fields && f != "_id" && fields[f] != Undefined :: fields[f]
    case Push(field, value) =>
      if field == "_id" then d else d[field := Arr(ItemsOf(d, field) + [value])]
    case Pull(field, value) =>
      if field == "_id" || !Get(d, field).Arr? then d
      else d[field := Arr(Lists.Without(ItemsOf(d, field), value))]
  }

  /** `findByIdAndUpdate(id, update)` on the collection: the first record with that id is updated,
      every other record stays as it was. */
  function UpdateById(docs: seq<Doc>, id: Value, u: Update): (r: seq<Doc>)
    ensures |r| == |docs|
    ensures var i := FindIndex(docs, ById(id));
      if i < 0 then r == docs
      else r[i] == Apply(docs[i], u) && forall j :: 0 <= j < |docs| && j != i ==> r[j] == docs[j]
  {
    var i := FindIndex(docs, ById(id));
    if i < 0 then docs else docs[i := Apply(docs[i], u)]
  }

  /** `findByIdAndDelete(id)`: the first record with that id is removed. */
  function DeleteById(docs: seq<Doc>, id: Value): (r: seq<Doc>)
  {
    var i := FindIndex(docs, ById(id));
    if i < 0 then docs else docs[..i] + docs[i + 1..]
  }

  /** No two records share an `_id` (the unique index MongoDB keeps on `_id`). */
  predicate UniqueIds(docs: seq<Doc>)
  {
    forall i, j :: 0 <= i < j < |docs| ==> IdOf(docs[i]) != IdOf(docs[j])
  }

  /** With unique ids, deleting by id removes exactly the record with that id and keeps the ids
      unique. */
  lemma DeleteByIdRemovesExactly(docs: seq<Doc>, id: Value)
    requires UniqueIds(docs)
    ensures forall d :: d in DeleteById(docs, id) <==> d in docs && IdOf(d) != id
    ensures UniqueIds(DeleteById(docs, id))
  {
    var i := FindIndex(docs, ById(id));
    if i >= 0 {
      var r := docs[..i] + docs[i + 1..];
      assert IdOf(docs[i]) == id by { assert Matches(docs[i], ById(id)); }
      assert forall k :: 0 <= k < |r| ==> r[k] == docs[if k < i then k else k + 1];
      forall d | d in docs && IdOf(d) != id ensures d in r {
        var k :| 0 <= k < |docs| && docs[k] == d;
        assert k != i;
        assert r[if k < i then k else k - 1] == d;
      }
    } else {
      forall d | d in docs ensures IdOf(d) != id {
        var k :| 0 <= k < |docs| && docs[k] == d;
        assert !Matches(docs[k], ById(id));
      }
    }
  }

  /** The record produced by assigning each field of `data` onto a loaded document and saving it:
      each assigned field takes the new value, and a field assigned undefined is unset. */
  function AssignFields(d: Doc, data: Doc): (r: Doc)
    ensures forall f :: Get(r, f) == if f in data then data[f] else Get(d, f)
  {
    map f | f in d.Keys + data.Keys && (f in data ==> data[f] != Undefined) ::
      if f in data then data[f] else d[f]
  }

  /** Assigning the fields of `data` onto a loaded record one at a time, as the vehicle and comment
      repositories do before saving (a field assigned undefined is unset by the save). */
  method CopyFields(d: Doc, data: Doc) returns (r: Doc)
    ensures r == AssignFields(d, data)
  {
    r := d;
    var pending := data.Keys;
    while pending != {}
      invariant pending <= data.Keys
      invariant forall f :: f in r <==>
        if f in data && f !in pending then data[f] != Undefined else f in d
      invariant forall f :: f in r ==>
        r[f] == if f in data && f !in pending then data[f] else d[f]
      decreases pending
    {
      var f :| f in pending;
      r := if data[f] == Undefined then r - {f} else r[f := data[f]];
      pending := pending - {f};
    }
  }

  /** The application's MongoDB database: each collection is the sequence of its records in natural
      order. Every repository operation reads and rewrites these fields. */
  class Database {
    var users: seq<Doc>
    var posts: seq<Doc>
    var comments: seq<Doc>
    var vehicles: seq<Doc>
    var bookings: seq<Doc>

    constructor (users: seq<Doc>, posts: seq<Doc>, comments: seq<Doc>, vehicles: seq<Doc>, bookings: seq<Doc>)
      ensures this.users == users && this.posts == posts && this.comments == comments
      ensures this.vehicles == vehicles && this.bookings == bookings
    {
      this.users := users;
      this.posts := posts;
      this.comments := comments;
      this.vehicles := vehicles;
      this.bookings := bookings;
    }
  }
}
