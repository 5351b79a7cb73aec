/** The daily job that deletes posts archived for at least four weeks, together with their images in
    the object store. */
module PostSweep {
  import opened Common
  import opened Docs
  import opened Sweep

  /** `Post.find({ isArchived: true })`. */
  function Archived(): Doc
  {
    map["isArchived" := Bool(true)]
  }

  /** The deletions a run performs, in order: the images of a post (by owner and post id) in the
      object store, and a post record in the database. */
  datatype Deletion = DeleteImages(userId: Value, postId: Value) | DeleteRecord(id: Value)

  /** The deletions for the overdue candidates, in candidate order: for each, its images, then its
      record. */
  function Deletions(candidates: seq<Doc>, now: int): (r: seq<Deletion>)
    ensures |r| % 2 == 0
    ensures forall k :: 0 <= k < |r| ==> (r[k].DeleteRecord? <==> k % 2 == 1)
  {
    if candidates == [] then []
    else
      var last := candidates[|candidates| - 1];
      Deletions(candidates[..|candidates| - 1], now) +
        if Overdue(last, "updatedAt", now) then [DeleteImages(Get(last, "userId"), IdOf(last)), DeleteRecord(IdOf(last))] else []
  }

  /** One run of the job at time `now`: the archived posts are fetched once, then each is examined in
      order against that one time; one archived at least four weeks ago (its last update is when it
      was archived) first has its images deleted, then its record. */
  method SweepArchivedPosts(db: Database, now: int) returns (performed: seq<Deletion>)
    modifies db`posts
    ensures db.posts == SweepFrom(old(db.posts), FindAll(old(db.posts), Archived()), "updatedAt", now)
    ensures performed == Deletions(FindAll(old(db.posts), Archived()), now)
  {
    var archivedPosts := FindAll(db.posts, Archived());
    performed := [];
    for i := 0 to |archivedPosts|
      invariant db.posts == SweepFrom(old(db.posts), archivedPosts[..i], "updatedAt", now)
      invariant performed == Deletions(archivedPosts[..i], now)
    {
      assert archivedPosts[..i + 1][..i] == archivedPosts[..i];
      if Overdue(archivedPosts[i], "updatedAt", now) {
        performed := performed + [DeleteImages(Get(archivedPosts[i], "userId"), IdOf(archivedPosts[i]))];
        db.posts := DeleteById(db.posts, IdOf(archivedPosts[i]));
        performed := performed + [DeleteRecord(IdOf(archivedPosts[i]))];
      }
    }
    assert archivedPosts[..|archivedPosts|] == archivedPosts;
  }

  /** Every record deletion comes right after the deletion of that same post's images. */
  lemma {:induction false} ImagesBeforeRecord(candidates: seq<Doc>, now: int)
    ensures forall k :: 0 <= k < |Deletions(candidates, now)| && Deletions(candidates, now)[k].DeleteRecord? ==>
      Deletions(candidates, now)[k - 1] == DeleteImages(Deletions(candidates, now)[k - 1].userId, Deletions(candidates, now)[k].id)
  {
    if candidates != [] {
      var init, last := candidates[..|candidates| - 1], candidates[|candidates| - 1];
      ImagesBeforeRecord(init, now);
      var prev := Deletions(init, now);
      var r := Deletions(candidates, now);
      forall k | 0 <= k < |r| && r[k].DeleteRecord?
        ensures r[k - 1].DeleteImages? && r[k - 1].postId == r[k].id
      {
        if k < |prev| {
          assert r[k] == prev[k] && r[k - 1] == prev[k - 1];
        } else {
          assert r == prev + [DeleteImages(Get(last, "userId"), IdOf(last)), DeleteRecord(IdOf(last))];
          assert k == |prev| + 1;
        }
      }
    }
  }

  /** The records deleted are exactly the overdue candidates, in candidate order. */
  lemma {:induction false} RecordsDeletedAreOverdue(candidates: seq<Doc>, now: int)
    ensures var r := Deletions(candidates, now);
      |r| == 2 * |OverdueIds(candidates, "updatedAt", now)| &&
      forall k :: 0 <= k < |r| / 2 ==> r[2 * k + 1] == DeleteRecord(OverdueIds(candidates, "updatedAt", now)[k])
  {
    if candidates != [] {
      RecordsDeletedAreOverdue(candidates[..|candidates| - 1], now);
    }
  }

  /** With unique ids, a run deletes exactly the archived posts last updated at least four weeks
      before `now`: posts still listed and more recently archived ones all stay. */
  lemma SweepDeletesExactlyStaleArchived(posts: seq<Doc>, now: int)
    requires UniqueIds(posts)
    ensures forall p :: p in SweepFrom(posts, FindAll(posts, Archived()), "updatedAt", now) <==>
      p in posts && !(Get(p, "isArchived") == Bool(true) && Overdue(p, "updatedAt", now))
  {
    SweepRemovesExactlyOverdue(posts, Archived(), "updatedAt", now);
    assert forall p :: Matches(p, Archived()) <==> Get(p, "isArchived") == Bool(true);
  }
}
