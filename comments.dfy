/** The comment service: the checks a new comment passes before it is stored, and the author's
    update of a comment's rating and content. */
module CommentService {
  import opened Common
  import opened Docs
  import UserService
  import PostService
  import PostRepository

  const OwnPost := AppError(403, "You can't comment your own post.")
  const RatingRequired := AppError(400, "Rating is required.")
  const CommentNotFound := AppError(404, "Comment not found.")
  const NotYourComment := AppError(403, "You can't update this comment.")

  /** The checks of `createComment(commentData)`, in the order they run: the author must exist,
      the post must exist and not be archived, the author must not own the post (compared with
      `===`), and the rating must be truthy. */
  function CommentChecks(users: seq<Doc>, posts: seq<Doc>, commentData: Doc): (r: Result<()>)
    ensures UserService.CheckUserExistsById(users, Get(commentData, "author")).Err? ==> r == Err(UserService.UserNotFound)
    ensures r.Ok? <==>
      && UserService.CheckUserExistsById(users, Get(commentData, "author")).Ok?
      && PostService.CheckPostExistsById(posts, Get(commentData, "post")).Ok?
      && Get(commentData, "author") != Get(PostService.CheckPostExistsById(posts, Get(commentData, "post")).value, "userId")
      && Truthy(Get(commentData, "rating"))
  {
    match UserService.CheckUserExistsById(users, Get(commentData, "author"))
    case Err(e) => Err(e)
    case Ok(_) =>
      match PostService.CheckPostExistsById(posts, Get(commentData, "post"))
      case Err(e) => Err(e)
      case Ok(post) =>
        if Get(commentData, "author") == Get(post, "userId") then Err(OwnPost)
        else if !Truthy(Get(commentData, "rating")) then Err(RatingRequired)
        else Ok(())
  }

  /** What `createComment(commentData)` does to the comment collection and returns: the comment is
      stored as given once every check passes. */
  function CreateCommentFlow(users: seq<Doc>, posts: seq<Doc>, comments: seq<Doc>, commentData: Doc): (seq<Doc>, Result<Doc>)
  {
    match CommentChecks(users, posts, commentData)
    case Err(e) => (comments, Err(e))
    case Ok(_) => (comments + [commentData], Ok(commentData))
  }

  /** `createComment(commentData)`. */
  method CreateComment(db: Database, commentData: Doc) returns (r: Result<Doc>)
    modifies db`comments
    ensures (db.comments, r) == CreateCommentFlow(db.users, db.posts, old(db.comments), commentData)
  {
    var user := UserService.CheckUserExistsById(db.users, Get(commentData, "author"));
    if user.Err? {
      return Err(user.error);
    }
    var post := PostService.CheckPostExistsById(db.posts, Get(commentData, "post"));
    if post.Err? {
      return Err(post.error);
    }
    if Get(commentData, "author") == Get(post.value, "userId") {
      return Err(OwnPost);
    }
    if !Truthy(Get(commentData, "rating")) {
      return Err(RatingRequired);
    }
    db.comments := db.comments + [commentData];
    r := Ok(commentData);
  }

  /** The checks answer with the first one that fails: 404 for an unknown author, then 404 for a
      missing or archived post, then 403 for the post's owner, then 400 for a missing rating; a
      comment is stored exactly when all of them pass, and nothing is stored otherwise. */
  lemma ChecksInOrder(users: seq<Doc>, posts: seq<Doc>, comments: seq<Doc>, commentData: Doc)
    ensures var (after, r) := CreateCommentFlow(users, posts, comments, commentData);
      var author, postId := Get(commentData, "author"), Get(commentData, "post");
      var post := PostRepository.PostByFields(posts, ById(postId));
      && ((forall j :: 0 <= j < |users| ==> IdOf(users[j]) != author) ==> r == Err(UserService.UserNotFound))
      && ((exists j :: 0 <= j < |users| && IdOf(users[j]) == author) ==>
          && (post.None? ==> r == Err(PostService.NoPostWithId))
          && (post.Some? && author == Get(post.value, "userId") ==> r == Err(OwnPost))
          && (post.Some? && author != Get(post.value, "userId") && !Truthy(Get(commentData, "rating")) ==> r == Err(RatingRequired))
          && (post.Some? && author != Get(post.value, "userId") && Truthy(Get(commentData, "rating")) ==> r.Ok?))
      && (r.Ok? <==> after == comments + [commentData])
      && (r.Err? ==> after == comments)
  {
    var (after, r) := CreateCommentFlow(users, posts, comments, commentData);
    if r.Err? {
      assert |after| == |comments| != |comments + [commentData]|;
    }
  }

  /** A falsy rating, 0 included, is refused as missing even when every other check passes. */
  lemma FalsyRatingRefused(users: seq<Doc>, posts: seq<Doc>, comments: seq<Doc>, commentData: Doc)
    requires Get(commentData, "rating") in {Undefined, Null, Num(0), Str(""), Bool(false)}
    ensures CreateCommentFlow(users, posts, comments, commentData).0 == comments
    ensures CreateCommentFlow(users, posts, comments, commentData).1 in
      {Err(UserService.UserNotFound), Err(PostService.NoPostWithId), Err(OwnPost), Err(RatingRequired)}
  {
  }

  /** `checkCommentExistsById(commentId)`: the first comment with that id, or 404. */
  function CheckCommentExistsById(comments: seq<Doc>, commentId: Value): (r: Result<Doc>)
    ensures r.Ok? ==> r.value in comments && IdOf(r.value) == commentId
    ensures r.Err? <==> forall j :: 0 <= j < |comments| ==> IdOf(comments[j]) != commentId
    ensures r.Err? ==> r.error == CommentNotFound
  {
    match FindOne(comments, ById(commentId))
    case None =>
      assert forall j :: 0 <= j < |comments| ==> !Matches(comments[j], ById(commentId));
      Err(CommentNotFound)
    case Some(c) =>
      assert Matches(c, ById(commentId));
      Ok(c)
  }

  /** The fields `updateComment` hands to the repository: the request's rating and content, even
      when the request leaves them out. */
  function RatingAndContent(body: Doc): Doc
  {
    map["rating" := Get(body, "rating"), "content" := Get(body, "content")]
  }

  /** What `updateComment(req)` does to the comment collection and returns. An unknown id answers
      404; a requester who is not the stored author (compared as strings) gets 403 and nothing is
      written; otherwise the stored comment gets the request's rating and content assigned and is
      saved in place. */
  function UpdateCommentFlow(comments: seq<Doc>, commentId: Value, body: Doc): (seq<Doc>, Result<Doc>)
  {
    match CheckCommentExistsById(comments, commentId)
    case Err(e) => (comments, Err(e))
    case Ok(comment) =>
      match SameId(Get(comment, "author"), Get(body, "author"))
      case Err(e) => (comments, Err(e))
      case Ok(author) =>
        if !author then (comments, Err(NotYourComment))
        else
          var i := FindIndex(comments, ById(commentId));
          var updated := AssignFields(comments[i], RatingAndContent(body));
          (comments[i := updated], Ok(updated))
  }

  /** `updateComment(req)`, with the repository's load, field-by-field assignment and save. */
  method UpdateComment(db: Database, commentId: Value, body: Doc) returns (r: Result<Doc>)
    modifies db`comments
    ensures (db.comments, r) == UpdateCommentFlow(old(db.comments), commentId, body)
  {
    var comment := CheckCommentExistsById(db.comments, commentId);
    if comment.Err? {
      return Err(comment.error);
    }
    var author := SameId(Get(comment.value, "author"), Get(body, "author"));
    if author.Err? {
      return Err(author.error);
    }
    if !author.value {
      return Err(NotYourComment);
    }
    var i := FindIndex(db.comments, ById(commentId));
    var updated := CopyFields(db.comments[i], RatingAndContent(body));
    db.comments := db.comments[i := updated];
    r := Ok(updated);
  }

  /** An update by the author changes exactly the rating and the content of that one comment,
      setting them to the request's values even when those are undefined; every other field and
      every other comment stay as they were. */
  lemma UpdateChangesRatingAndContent(comments: seq<Doc>, commentId: Value, body: Doc)
    requires UpdateCommentFlow(comments, commentId, body).1.Ok?
    ensures var (after, r) := UpdateCommentFlow(comments, commentId, body);
      var i := FindIndex(comments, ById(commentId));
      && 0 <= i < |comments| && |after| == |comments| && after[i] == r.value
      && Get(r.value, "rating") == Get(body, "rating")
      && Get(r.value, "content") == Get(body, "content")
      && (forall f :: f != "rating" && f != "content" ==> Get(r.value, f) == Get(comments[i], f))
      && (forall j :: 0 <= j < |comments| && j != i ==> after[j] == comments[j])
      && Get(comments[i], "author") == Get(body, "author")
  {
  }

  /** A request that is refused writes nothing: an unknown id answers 404, and a requester who is
      not the author (with the author stored) answers 403. */
  lemma RefusedUpdateWritesNothing(comments: seq<Doc>, commentId: Value, body: Doc)
    ensures var (after, r) := UpdateCommentFlow(comments, commentId, body);
      && (r.Err? ==> after == comments)
      && ((forall j :: 0 <= j < |comments| ==> IdOf(comments[j]) != commentId) ==> r == Err(CommentNotFound))
      && (var c := CheckCommentExistsById(comments, commentId);
          c.Ok? && Get(c.value, "author").Str? && Get(c.value, "author") != Get(body, "author") ==>
            r == Err(NotYourComment))
  {
  }
}
