/** The post repository: lookups that hide archived posts, soft deletion by archiving, and the
    paginated filter search. */
module PostRepository {
  import opened Common
  import opened Docs
  import opened Strings

  /** One `$match` clause of a filter. Dates are day numbers (days since 1970-01-01) and prices are
      whole numbers. */
  datatype Clause =
    | FromOnOrAfter(day: int)
    | ToOnOrBefore(day: int)
    | PriceAtLeast(price: int)
    | PriceAtMost(price: int)
    | LocationStartsWith(text: string)
    | NotArchived

  /** Whether a post satisfies a clause. A comparison only holds for a stored value of the compared
      type; the location clause is the `$or` of "city starts with text" and "street starts with
      text", and a regular expression only matches a string field. */
  predicate Satisfies(d: Doc, c: Clause)
  {
    match c
    case FromOnOrAfter(day) => Get(d, "from").Num? && Get(d, "from").n >= day
    case ToOnOrBefore(day) => Get(d, "to").Num? && Get(d, "to").n <= day
    case PriceAtLeast(price) => Get(d, "price").Num? && Get(d, "price").n >= price
    case PriceAtMost(price) => Get(d, "price").Num? && Get(d, "price").n <= price
    case LocationStartsWith(text) =>
      var street, city := Get(d, "location.searchStreet"), Get(d, "location.searchCity");
      street.Str? && city.Str? && (StartsWith(city.s, text) || StartsWith(street.s, text))
    case NotArchived => Get(d, "isArchived") == Bool(false)
  }

  /** The `$and` of the clauses. */
  predicate SatisfiesAll(d: Doc, clauses: seq<Clause>)
  {
    forall k :: 0 <= k < |clauses| ==> Satisfies(d, clauses[k])
  }

  /** The posts matching every clause, in natural order. */
  function Where(posts: seq<Doc>, clauses: seq<Clause>): (r: seq<Doc>)
    ensures forall j :: 0 <= j < |r| ==> r[j] in posts && SatisfiesAll(r[j], clauses)
    ensures forall j :: 0 <= j < |posts| && SatisfiesAll(posts[j], clauses) ==> posts[j] in r
    ensures |r| <= |posts|
  {
    if posts == [] then []
    else
      assert posts == [posts[0]] + posts[1..];
      (if SatisfiesAll(posts[0], clauses) then [posts[0]] else []) + Where(posts[1..], clauses)
  }

  /** The filter keeps natural order: the matches of a concatenation are the matches of the first
      part, then those of the second. */
  lemma {:induction false} WhereAppend(a: seq<Doc>, b: seq<Doc>, clauses: seq<Clause>)
    ensures Where(a + b, clauses) == Where(a, clauses) + Where(b, clauses)
  {
    if a == [] {
      assert a + b == b;
    } else {
      assert (a + b)[1..] == a[1..] + b;
      WhereAppend(a[1..], b, clauses);
    }
  }

  /** A single post is a match exactly when it meets every clause. */
  lemma WhereSingle(d: Doc, clauses: seq<Clause>)
    ensures Where([d], clauses) == if SatisfiesAll(d, clauses) then [d] else []
  {
    assert [d][1..] == [];
  }

  /** The query both lookups send: the caller's fields with `isArchived: false` written last, so it
      wins over any `isArchived` of the caller's. */
  function Unarchived(search: Doc): Doc
  {
    search["isArchived" := Bool(false)]
  }

  /** `getPostByFields`: the first post that is not archived and has the searched values. */
  function PostByFields(posts: seq<Doc>, search: Doc): (r: Option<Doc>)
    ensures r.Some? ==> r.value in posts && Get(r.value, "isArchived") == Bool(false)
    ensures r.Some? ==> forall f :: f in search && f != "isArchived" ==> Get(r.value, f) == search[f]
    ensures r.None? <==> forall j :: 0 <= j < |posts| ==>
      Get(posts[j], "isArchived") != Bool(false) || !Matches(posts[j], search - {"isArchived"})
  {
    var q := Unarchived(search);
    var r := FindOne(posts, q);
    assert r.Some? ==> Matches(r.value, q) && Get(r.value, "isArchived") == q["isArchived"];
    assert forall d :: Matches(d, q) <==>
      Get(d, "isArchived") == Bool(false) && Matches(d, search - {"isArchived"});
    r
  }

  /** `getAllPostsByFields`: every post that is not archived and has the searched values. */
  function AllPostsByFields(posts: seq<Doc>, search: Doc): (r: seq<Doc>)
    ensures forall j :: 0 <= j < |r| ==> r[j] in posts && Get(r[j], "isArchived") == Bool(false)
    ensures forall j :: 0 <= j < |r| ==> Matches(r[j], search - {"isArchived"})
    ensures forall j :: (0 <= j < |posts| && Get(posts[j], "isArchived") == Bool(false) &&
      Matches(posts[j], search - {"isArchived"})) ==> posts[j] in r
  {
    var q := Unarchived(search);
    assert forall d :: Matches(d, q) <==>
      Get(d, "isArchived") == Bool(false) && Matches(d, search - {"isArchived"});
    FindAll(posts, q)
  }

  /** The update `updatePost` sends: the caller's fields with `isArchived: false` written last. */
  function Unarchiving(postData: Doc): Update
  {
    Set(postData["isArchived" := Bool(false)])
  }

  /** The update `deletePost` sends. */
  const Archiving: Update := Set(map["isArchived" := Bool(true)])

  /** `updatePost(postId, postData)`: the post with that id gets the caller's fields and is no longer
      archived; the updated post is returned, or null when no post has that id. */
  method UpdatePost(db: Database, postId: Value, postData: Doc) returns (r: Option<Doc>)
    modifies db`posts
    ensures db.posts == UpdateById(old(db.posts), postId, Unarchiving(postData))
    ensures r.None? <==> FindIndex(old(db.posts), ById(postId)) < 0
    ensures r.Some? ==> r.value == Apply(old(db.posts)[FindIndex(old(db.posts), ById(postId))], Unarchiving(postData))
  {
    var i := FindIndex(db.posts, ById(postId));
    db.posts := UpdateById(db.posts, postId, Unarchiving(postData));
    r := if i < 0 then None else Some(db.posts[i]);
  }

  /** `deletePost(postId)`: the post is archived, never removed. */
  method DeletePost(db: Database, postId: Value)
    modifies db`posts
    ensures db.posts == UpdateById(old(db.posts), postId, Archiving)
  {
    db.posts := UpdateById(db.posts, postId, Archiving);
  }

  /** An updated post is not archived, whatever the caller sent; every field it sent other than
      `isArchived` and `_id` is written unless it is undefined. */
  lemma UpdateUnarchives(d: Doc, postData: Doc)
    ensures Get(Apply(d, Unarchiving(postData)), "isArchived") == Bool(false)
    ensures forall f :: f != "isArchived" ==> Get(Apply(d, Unarchiving(postData)), f) == SetValue(d, postData, f)
  {
  }

  /** Archiving changes nothing but the `isArchived` flag. */
  lemma ArchivingKeepsFields(d: Doc)
    ensures Get(Apply(d, Archiving), "isArchived") == Bool(true)
    ensures forall f :: f != "isArchived" ==> Get(Apply(d, Archiving), f) == Get(d, f)
  {
  }

  /** After `updatePost` on an existing id, `getPostByFields({ _id })` finds the updated post, even if
      it was archived before. */
  lemma {:induction false} UpdatedPostFound(posts: seq<Doc>, id: Value, postData: Doc)
    requires FindIndex(posts, ById(id)) >= 0
    ensures var after := UpdateById(posts, id, Unarchiving(postData));
      PostByFields(after, ById(id)) == Some(after[FindIndex(posts, ById(id))])
  {
    var i := FindIndex(posts, ById(id));
    var after := UpdateById(posts, id, Unarchiving(postData));
    var q := Unarchived(ById(id));
    assert Matches(posts[i], ById(id));
    UpdateUnarchives(posts[i], postData);
    assert Matches(after[i], q);
    forall j | 0 <= j < i ensures !Matches(after[j], q) {
      assert !Matches(posts[j], ById(id));
      assert "_id" in q;
    }
    FirstMatchIs(after, q, i);
  }

  /** A match at i with no match before it is what `findOne` returns. */
  lemma FirstMatchIs(docs: seq<Doc>, q: Doc, i: nat)
    requires i < |docs| && Matches(docs[i], q)
    requires forall j :: 0 <= j < i ==> !Matches(docs[j], q)
    ensures FindOne(docs, q) == Some(docs[i])
  {
    var k := FindIndex(docs, q);
    assert k != -1;
    assert !(k < i) && !(i < k);
  }

  /** With unique ids, a deleted post is hidden from `getPostByFields({ _id })` and the collection
      keeps every record. */
  lemma {:induction false} DeletedPostHidden(posts: seq<Doc>, id: Value)
    requires UniqueIds(posts)
    ensures |UpdateById(posts, id, Archiving)| == |posts|
    ensures PostByFields(UpdateById(posts, id, Archiving), ById(id)).None?
  {
    var after := UpdateById(posts, id, Archiving);
    var i := FindIndex(posts, ById(id));
    forall j | 0 <= j < |after| && Get(after[j], "isArchived") == Bool(false)
      ensures !Matches(after[j], ById(id) - {"isArchived"})
    {
      assert ById(id) - {"isArchived"} == ById(id);
      if i >= 0 {
        ArchivingKeepsFields(posts[i]);
        assert j != i;
        assert Matches(posts[i], ById(id));
        assert IdOf(posts[i]) != IdOf(posts[j]);
        assert after[j] == posts[j];
      } else {
        assert !Matches(posts[j], ById(id));
      }
    }
  }

  function Abs(n: int): nat
  {
    if n < 0 then -n else n
  }

  /** What `performFilterSearch` returns: one page of posts and whether more match. */
  datatype Page = Page(posts: seq<Doc>, hasMore: bool)

  /** `performFilterSearch`: count the posts matching every clause, then skip `(page - 1) * limit` of
      them and take `limit`. MongoDB refuses an empty `$and` and a negative skip; a limit of 0 means
      no limit and a negative limit is taken by its absolute value. */
  function PerformFilterSearch(posts: seq<Doc>, clauses: seq<Clause>, page: int, limit: int): (r: Result<Page>)
    ensures r.Err? <==> clauses == [] || (page - 1) * limit < 0
    ensures r.Err? ==> r.error == RuntimeError
    ensures r.Ok? ==> (r.value.hasMore <==> page * limit < |Where(posts, clauses)|)
    ensures r.Ok? ==> var m, skip := Where(posts, clauses), (page - 1) * limit;
      && (|r.value.posts| > 0 ==> skip + |r.value.posts| <= |m|)
      && (forall k :: 0 <= k < |r.value.posts| ==> r.value.posts[k] == m[skip + k])
      && (limit != 0 ==> |r.value.posts| <= Abs(limit))
      && (skip + |r.value.posts| < |m| ==> limit != 0 && |r.value.posts| == Abs(limit))
  {
    var skip := (page - 1) * limit;
    if clauses == [] || skip < 0 then Err(RuntimeError)
    else
      var m := Where(posts, clauses);
      var rest := if skip >= |m| then [] else m[skip..];
      var taken := if limit == 0 || |rest| <= Abs(limit) then rest else rest[..Abs(limit)];
      Ok(Page(taken, page * limit < |m|))
  }

  /** For positive page and limit, `hasMore` says exactly that matches remain after the returned
      page. */
  lemma HasMoreIffMatchesRemain(posts: seq<Doc>, clauses: seq<Clause>, page: int, limit: int)
    requires clauses != [] && page >= 1 && limit >= 1
    ensures PerformFilterSearch(posts, clauses, page, limit).Ok?
    ensures var p := PerformFilterSearch(posts, clauses, page, limit).value;
      p.hasMore <==> (page - 1) * limit + |p.posts| < |Where(posts, clauses)|
  {
    var p := PerformFilterSearch(posts, clauses, page, limit).value;
    var m, skip := Where(posts, clauses), (page - 1) * limit;
    assert page * limit == skip + limit;
    if skip + |p.posts| < |m| {
      assert |p.posts| == limit;
    }
  }

  /** With a positive limit every match is on exactly one page: the j-th match is item j % limit of
      page j / limit + 1. */
  lemma MatchOnItsPage(posts: seq<Doc>, clauses: seq<Clause>, limit: int, j: int)
    requires clauses != [] && limit >= 1
    requires 0 <= j < |Where(posts, clauses)|
    ensures var p := PerformFilterSearch(posts, clauses, j / limit + 1, limit);
      p.Ok? && j % limit < |p.value.posts| && p.value.posts[j % limit] == Where(posts, clauses)[j]
  {
    DivMod(j, limit);
    ItemOfPage(posts, clauses, j / limit, limit, j % limit);
  }

  lemma DivMod(j: int, limit: int)
    requires j >= 0 && limit >= 1
    ensures (j / limit) * limit + j % limit == j && 0 <= j % limit < limit && j / limit >= 0
  {
  }

  lemma ItemOfPage(posts: seq<Doc>, clauses: seq<Clause>, q: int, limit: int, s: int)
    requires clauses != [] && limit >= 1 && q >= 0 && 0 <= s < limit
    requires q * limit + s < |Where(posts, clauses)|
    ensures var p := PerformFilterSearch(posts, clauses, q + 1, limit);
      p.Ok? && s < |p.value.posts| && p.value.posts[s] == Where(posts, clauses)[q * limit + s]
  {
    var p := PerformFilterSearch(posts, clauses, q + 1, limit);
    assert (q + 1 - 1) * limit == q * limit;
    assert q * limit >= 0;
    assert p.Ok?;
  }
}
