/** What the two daily cleanup jobs share: the four-week age test against one fixed current time,
    and the deletion by id of every candidate that fails it, candidate after candidate. Times are
    milliseconds since 1970-01-01. */
module Sweep {
  import opened Common
  import opened Docs

  /** `1000 * 60 * 60 * 24 * 28`: four weeks in milliseconds. */
  const FourWeeks: int := 1000 * 60 * 60 * 24 * 28

  /** The time `new Date(v)` stands for, for the values a stored timestamp can hold: a number is
      that many milliseconds, null is the epoch and a boolean is 0 or 1; anything else is an
      invalid date, whose difference with the current time is NaN. */
  function Timestamp(v: Value): (r: Option<int>)
    ensures v.Num? ==> r == Some(v.n)
    ensures r.None? <==> !(v.Num? || v.Null? || v.Bool?)
  {
    match v
    case Num(n) => Some(n)
    case Null => Some(0)
    case Bool(b) => Some(if b then 1 else 0)
    case _ => None
  }

  /** `currentTime - new Date(d[field]) >= fourWeeksInMilliseconds`; a NaN difference compares
      false. */
  predicate Overdue(d: Doc, field: string, now: int)
  {
    var t := Timestamp(Get(d, field));
    t.Some? && now - t.value >= FourWeeks
  }

  /** The collection after the candidates were examined in order, each overdue one deleted by id. */
  function SweepFrom(docs: seq<Doc>, candidates: seq<Doc>, field: string, now: int): (r: seq<Doc>)
  {
    if candidates == [] then docs
    else
      var last := candidates[|candidates| - 1];
      var before := SweepFrom(docs, candidates[..|candidates| - 1], field, now);
      if Overdue(last, field, now) then DeleteById(before, IdOf(last)) else before
  }

  /** The ids the sweep deletes, in the order it deletes them. */
  function OverdueIds(candidates: seq<Doc>, field: string, now: int): (r: seq<Value>)
    ensures |r| <= |candidates|
    ensures forall id :: id in r <==> exists c :: c in candidates && Overdue(c, field, now) && IdOf(c) == id
  {
    if candidates == [] then []
    else
      var init, last := candidates[..|candidates| - 1], candidates[|candidates| - 1];
      assert candidates == init + [last];
      OverdueIds(init, field, now) + if Overdue(last, field, now) then [IdOf(last)] else []
  }

  /** The test is inclusive: a record exactly four weeks old is overdue, one a millisecond younger
      is not. */
  lemma BoundaryIsInclusive(d: Doc, field: string, t: int)
    requires Get(d, field) == Num(t)
    ensures FourWeeks == 2419200000
    ensures Overdue(d, field, t + 2419200000)
    ensures !Overdue(d, field, t + 2419200000 - 1)
  {
  }

  /** With unique ids, the sweep keeps exactly the records whose id no overdue candidate carries,
      and the ids stay unique. */
  lemma {:induction false} SweepFromKeeps(docs: seq<Doc>, candidates: seq<Doc>, field: string, now: int)
    requires UniqueIds(docs)
    ensures UniqueIds(SweepFrom(docs, candidates, field, now))
    ensures forall d :: d in SweepFrom(docs, candidates, field, now) <==>
      d in docs && forall c :: c in candidates && Overdue(c, field, now) ==> IdOf(c) != IdOf(d)
  {
    if candidates != [] {
      var init, last := candidates[..|candidates| - 1], candidates[|candidates| - 1];
      assert candidates == init + [last];
      SweepFromKeeps(docs, init, field, now);
      var before := SweepFrom(docs, init, field, now);
      if Overdue(last, field, now) {
        DeleteByIdRemovesExactly(before, IdOf(last));
      }
    }
  }

  /** With unique ids, two records of the collection with the same id are the same record. */
  lemma SameIdSameRecord(docs: seq<Doc>, c: Doc, d: Doc)
    requires UniqueIds(docs) && c in docs && d in docs && IdOf(c) == IdOf(d)
    ensures c == d
  {
    var i :| 0 <= i < |docs| && docs[i] == c;
    var j :| 0 <= j < |docs| && docs[j] == d;
    assert !(i < j) && !(j < i);
  }

  /** The sweep over `find(query)`: with unique ids, a record is deleted exactly when it matches the
      query and is overdue; every other record, whatever its age, stays. */
  lemma SweepRemovesExactlyOverdue(docs: seq<Doc>, query: Doc, field: string, now: int)
    requires UniqueIds(docs)
    ensures forall d :: d in SweepFrom(docs, FindAll(docs, query), field, now) <==>
      d in docs && !(Matches(d, query) && Overdue(d, field, now))
  {
    var candidates := FindAll(docs, query);
    SweepFromKeeps(docs, candidates, field, now);
    forall d | d in docs
      ensures (forall c :: c in candidates && Overdue(c, field, now) ==> IdOf(c) != IdOf(d)) <==>
        !(Matches(d, query) && Overdue(d, field, now))
    {
      var j :| 0 <= j < |docs| && docs[j] == d;
      if Matches(d, query) && Overdue(d, field, now) {
        assert d in candidates;
      }
      forall c | c in candidates && Overdue(c, field, now) && IdOf(c) == IdOf(d)
        ensures Matches(d, query) && Overdue(d, field, now)
      {
        var k :| 0 <= k < |candidates| && candidates[k] == c;
        SameIdSameRecord(docs, c, d);
      }
    }
  }
}
