/** The user service: the liked-posts list update, the account access check, and the lookups by id. */
module UserService {
  import opened Common
  import opened Docs
  import Lists

  const UserNotFound := AppError(404, "User not found.")
  const NoSuchUserId := AppError(404, "User with given id doesn't exist")
  const OnlyYourAccount := AppError(403, "You can make changes only to your account!")

  /** `checkUserExistsById(userId)`: the first user with that id, or 404. */
  function CheckUserExistsById(users: seq<Doc>, userId: Value): (r: Result<Doc>)
    ensures r.Ok? ==> r.value in users && IdOf(r.value) == userId
    ensures r.Err? <==> forall j :: 0 <= j < |users| ==> IdOf(users[j]) != userId
    ensures r.Err? ==> r.error == UserNotFound
  {
    match FindOne(users, ById(userId))
    case None =>
      assert forall j :: 0 <= j < |users| ==> !Matches(users[j], ById(userId));
      Err(UserNotFound)
    case Some(u) =>
      assert Matches(u, ById(userId));
      Ok(u)
  }

  /** `getUserDataById(userId)`: the user's stored fields without `password` and `updatedAt`; a
      profile image that is not "" is replaced by the URL `signedUrl` gives for it and the user's id. */
  function GetUserDataById(users: seq<Doc>, userId: Value, signedUrl: (Value, Value) -> Value): (r: Result<Doc>)
    ensures r.Err? <==> forall j :: 0 <= j < |users| ==> IdOf(users[j]) != userId
    ensures r.Err? ==> r.error == NoSuchUserId
    ensures r.Ok? ==> "password" !in r.value && "updatedAt" !in r.value
    ensures r.Ok? ==> exists u :: u in users && IdOf(u) == userId && ProjectionOf(u, r.value, signedUrl)
  {
    match FindOne(users, ById(userId))
    case None =>
      assert forall j :: 0 <= j < |users| ==> !Matches(users[j], ById(userId));
      Err(NoSuchUserId)
    case Some(u) =>
      assert Matches(u, ById(userId));
      var userData := u - {"password", "updatedAt"};
      var sent := if Get(userData, "profileImage") != Str("") then userData["profileImage" := signedUrl(Get(userData, "profileImage"), IdOf(u))]
                  else userData;
      assert ProjectionOf(u, sent, signedUrl);
      Ok(sent)
  }

  /** r is what `getUserDataById` sends for user u: every stored field but the password, the update
      time and the profile image unchanged, and the profile image signed unless it is "". */
  ghost predicate ProjectionOf(u: Doc, r: Doc, signedUrl: (Value, Value) -> Value)
  {
    && (forall f :: f != "password" && f != "updatedAt" && f != "profileImage" ==> Get(r, f) == Get(u, f))
    && Get(r, "profileImage") ==
         (if Get(u, "profileImage") != Str("") then signedUrl(Get(u, "profileImage"), IdOf(u)) else Str(""))
  }

  /** `checkUserHasAccess(req)`: the requester is the account's owner (`body._id === params.id`) or
      says it is an administrator with the string "true". */
  function CheckUserHasAccess(body: Doc, paramsId: Value): (r: Result<bool>)
    ensures r.Ok? <==> Get(body, "_id") == paramsId || Get(body, "isAdmin") == Str("true")
    ensures r.Ok? ==> r.value
    ensures r.Err? ==> r.error == OnlyYourAccount
  {
    if Get(body, "_id") == paramsId || Get(body, "isAdmin") == Str("true") then Ok(true)
    else Err(OnlyYourAccount)
  }

  /** A boolean `isAdmin`, which is what the User schema stores, never grants access. */
  lemma BooleanAdminFlagIgnored(body: Doc, paramsId: Value)
    requires Get(body, "isAdmin") == Bool(true) && Get(body, "_id") != paramsId
    ensures CheckUserHasAccess(body, paramsId) == Err(OnlyYourAccount)
  {
  }

  /** What `updateUserLikedPosts(userId, postId, addLike)` does to the user collection and the list it
      returns. Liking pushes postId onto the stored list and returns that list with postId pushed a
      second time; unliking pulls every copy from the stored list and returns the copies filtered
      out. An unknown user makes the repository dereference null. */
  function LikedPostsUpdate(users: seq<Doc>, userId: Value, postId: string, addLike: bool): (seq<Doc>, Result<seq<Value>>)
  {
    var i := FindIndex(users, ById(userId));
    if i < 0 then (users, Err(RuntimeError))
    else if addLike then
      var after := UpdateById(users, userId, Push("likedPosts", Str(postId)));
      (after, Ok(ItemsOf(after[i], "likedPosts") + [Str(postId)]))
    else
      var after := UpdateById(users, userId, Pull("likedPosts", Str(postId)));
      (after, Ok(Lists.Without(ItemsOf(after[i], "likedPosts"), Str(postId))))
  }

  /** `updateUserLikedPosts(userId, postId, addLike)`. */
  method UpdateUserLikedPosts(db: Database, userId: Value, postId: string, addLike: bool) returns (r: Result<seq<Value>>)
    modifies db`users
    ensures (db.users, r) == LikedPostsUpdate(old(db.users), userId, postId, addLike)
  {
    var i := FindIndex(db.users, ById(userId));
    if i < 0 {
      return Err(RuntimeError);
    }
    if addLike {
      db.users := UpdateById(db.users, userId, Push("likedPosts", Str(postId)));
      var liked := ItemsOf(db.users[i], "likedPosts");
      liked := liked + [Str(postId)];
      r := Ok(liked);
    } else {
      db.users := UpdateById(db.users, userId, Pull("likedPosts", Str(postId)));
      var liked := ItemsOf(db.users[i], "likedPosts");
      liked := Lists.Without(liked, Str(postId));
      r := Ok(liked);
    }
  }

  /** Liking appends postId to the user's stored list and the returned list ends with it twice; no
      other user changes. */
  lemma LikeAppends(users: seq<Doc>, userId: Value, postId: string)
    requires FindIndex(users, ById(userId)) >= 0
    ensures var (after, r) := LikedPostsUpdate(users, userId, postId, true);
      var i := FindIndex(users, ById(userId));
      && |after| == |users|
      && ItemsOf(after[i], "likedPosts") == ItemsOf(users[i], "likedPosts") + [Str(postId)]
      && r == Ok(ItemsOf(users[i], "likedPosts") + [Str(postId), Str(postId)])
      && forall j :: 0 <= j < |users| && j != i ==> after[j] == users[j]
  {
    var i := FindIndex(users, ById(userId));
    var old_ := ItemsOf(users[i], "likedPosts");
    assert old_ + [Str(postId)] + [Str(postId)] == old_ + [Str(postId), Str(postId)];
  }

  /** Unliking removes every copy of postId from a stored list, keeps the other entries in order,
      and returns that list; no other user changes. */
  lemma UnlikeRemovesAll(users: seq<Doc>, userId: Value, postId: string)
    requires FindIndex(users, ById(userId)) >= 0
    requires Get(users[FindIndex(users, ById(userId))], "likedPosts").Arr?
    ensures var (after, r) := LikedPostsUpdate(users, userId, postId, false);
      var i := FindIndex(users, ById(userId));
      && |after| == |users|
      && ItemsOf(after[i], "likedPosts") == Lists.Without(ItemsOf(users[i], "likedPosts"), Str(postId))
      && r == Ok(ItemsOf(after[i], "likedPosts"))
      && Str(postId) !in r.value
      && forall j :: 0 <= j < |users| && j != i ==> after[j] == users[j]
  {
    var i := FindIndex(users, ById(userId));
    Lists.WithoutIdempotent(ItemsOf(users[i], "likedPosts"), Str(postId));
  }

  /** Liking a post that was not liked and then unliking it gives the user collection back. */
  lemma {:induction false} LikeThenUnlikeRestores(users: seq<Doc>, userId: Value, postId: string)
    requires FindIndex(users, ById(userId)) >= 0
    requires var u := users[FindIndex(users, ById(userId))];
      Get(u, "likedPosts").Arr? && Str(postId) !in ItemsOf(u, "likedPosts")
    ensures LikedPostsUpdate(LikedPostsUpdate(users, userId, postId, true).0, userId, postId, false).0 == users
  {
    var i := FindIndex(users, ById(userId));
    var mid := UpdateById(users, userId, Push("likedPosts", Str(postId)));
    SameFirstIndex(users, mid, userId, i);
    var back := UpdateById(mid, userId, Pull("likedPosts", Str(postId)));
    PushThenPull(users[i], Str(postId));
    assert back[i] == users[i];
    assert forall j :: 0 <= j < |users| ==> back[j] == users[j];
  }

  /** On one record: pushing a value that is not in the array field and then pulling it restores
      the record. */
  lemma PushThenPull(u: Doc, p: Value)
    requires Get(u, "likedPosts").Arr? && p !in ItemsOf(u, "likedPosts")
    ensures Apply(Apply(u, Push("likedPosts", p)), Pull("likedPosts", p)) == u
  {
    var liked := ItemsOf(u, "likedPosts");
    var mid := PushOne(u, p);
    assert Lists.Without(liked + [p], p) == liked by {
      Lists.WithoutAppend(liked, [p], p);
      assert Lists.Without([p], p) == [];
    }
    assert ItemsOf(mid, "likedPosts") == liked + [p];
    PullOne(mid, p);
    assert mid["likedPosts" := Arr(liked)] == u["likedPosts" := Arr(liked)];
    MapUpdateSame(u, "likedPosts", Arr(liked));
  }

  lemma MapUpdateSame(u: Doc, f: string, v: Value)
    requires f in u && u[f] == v
    ensures u[f := v] == u
  {
  }

  lemma PushOne(u: Doc, p: Value) returns (mid: Doc)
    ensures mid == Apply(u, Push("likedPosts", p))
    ensures mid == u["likedPosts" := Arr(ItemsOf(u, "likedPosts") + [p])]
  {
    mid := u["likedPosts" := Arr(ItemsOf(u, "likedPosts") + [p])];
  }

  lemma PullOne(mid: Doc, p: Value)
    requires Get(mid, "likedPosts").Arr?
    ensures Apply(mid, Pull("likedPosts", p)) == mid["likedPosts" := Arr(Lists.Without(ItemsOf(mid, "likedPosts"), p))]
  {
  }

  /** Two collections that agree everywhere but at i, where both records have the same id, find the
      same first record for that id. */
  lemma SameFirstIndex(a: seq<Doc>, b: seq<Doc>, id: Value, i: int)
    requires 0 <= i < |a| == |b| && FindIndex(a, ById(id)) == i
    requires IdOf(b[i]) == IdOf(a[i])
    requires forall j :: 0 <= j < |a| && j != i ==> b[j] == a[j]
    ensures FindIndex(b, ById(id)) == i
  {
    assert Matches(a[i], ById(id));
    assert Matches(b[i], ById(id)) by { assert "_id" in ById(id); }
    forall j | 0 <= j < i ensures !Matches(b[j], ById(id)) {
      assert b[j] == a[j];
    }
  }
}
