/** The post service: splitting an address into street and city, the like/unlike toggle, the owner
    checks before an update or a deletion, and the filter builders. */
module PostService {
  import opened Common
  import opened Docs
  import opened Strings
  import Transliteration
  import opened PostRepository
  import UserService
  import VehicleService

  const PostNotFound := AppError(404, "Post not found")
  const NoPostWithId := AppError(404, "Post not found.")
  const NotYourPostToUpdate := AppError(403, "You can only update your post!")
  const NotYourPostToDelete := AppError(403, "You can only delete your post!")

  /** The first of parts[from..] that the street does not contain, or "" when it contains them all. */
  function CityFrom(street: string, parts: seq<string>, from: nat): (city: string)
    decreases |parts| - from
    ensures city == "" <==> forall j :: from <= j < |parts| ==> Includes(street, parts[j])
    ensures city != "" ==> exists k :: (from <= k < |parts| && city == parts[k] && !Includes(street, parts[k]) &&
      forall j :: from <= j < k ==> Includes(street, parts[j]))
  {
    if from >= |parts| then ""
    else if Includes(street, parts[from]) then CityFrom(street, parts, from + 1)
    else
      assert parts[from] != "" by { EmptyAlwaysIncluded(street); }
      parts[from]
  }

  /** Every string contains the empty string, so an empty part is always skipped. */
  lemma EmptyAlwaysIncluded(s: string)
    ensures Includes(s, "")
  {
    assert OccursAt(s, "", 0);
  }

  /** The search address, street and city of an already transliterated address. With more than two
      ", "-separated parts the street is the first and the city the first later part the street does
      not contain; otherwise there is no street and the city is the first part. */
  function SplitAddress(t: string): (string, string, string)
  {
    var parts := Split(t, ", ");
    if |parts| > 2 then (t, parts[0], CityFrom(parts[0], parts, 1)) else (t, "", parts[0])
  }

  /** `extractCityStreetFromAddress(address)`. */
  method ExtractCityStreetFromAddress(address: string) returns (searchAddress: string, searchStreet: string, searchCity: string)
    ensures (searchAddress, searchStreet, searchCity) == SplitAddress(Transliteration.Transliterated(address))
  {
    searchAddress := Transliteration.Transliterate(address);
    var addressInfo := Split(searchAddress, ", ");
    searchStreet, searchCity := "", "";
    if |addressInfo| > 2 {
      searchStreet := addressInfo[0];
      var nextIndex := 1;
      while nextIndex < |addressInfo|
        invariant 1 <= nextIndex <= |addressInfo|
        invariant CityFrom(searchStreet, addressInfo, nextIndex) == CityFrom(searchStreet, addressInfo, 1)
        invariant searchCity == ""
        decreases |addressInfo| - nextIndex
      {
        if Includes(searchStreet, addressInfo[nextIndex]) {
          nextIndex := nextIndex + 1;
        } else {
          searchCity := addressInfo[nextIndex];
          break;
        }
      }
    } else {
      searchCity := addressInfo[0];
    }
  }

  /** The split keeps the whole transliterated address as the search address, and neither the street
      nor the city contains the separator. */
  lemma SplitAddressParts(t: string)
    ensures SplitAddress(t).0 == t
    ensures !Includes(SplitAddress(t).1, ", ") && !Includes(SplitAddress(t).2, ", ")
    ensures |Split(t, ", ")| <= 2 ==> SplitAddress(t).1 == "" && SplitAddress(t).2 == Split(t, ", ")[0]
  {
    var parts := Split(t, ", ");
    SplitPiecesFree(t, ", ");
    EmptyAlwaysIncluded(", ");
    if |parts| > 2 {
      var city := CityFrom(parts[0], parts, 1);
      if city != "" {
        var k :| 1 <= k < |parts| && city == parts[k];
      }
    }
  }

  /** The autocomplete shape "street and number, street, city, ...": when the second part is
      contained in the street and the third is not, the repeated street is skipped and the city is
      the third part (so "ulofa palmea 3a, ulofa palmea, beograd, srbija" has the city "beograd"). */
  lemma {:induction false} RepeatedStreetSkipped(t: string)
    requires var parts := Split(t, ", ");
      |parts| >= 3 && Includes(parts[0], parts[1]) && !Includes(parts[0], parts[2])
    ensures var parts := Split(t, ", ");
      SplitAddress(t) == (t, parts[0], parts[2])
  {
    var parts := Split(t, ", ");
    assert CityFrom(parts[0], parts, 1) == CityFrom(parts[0], parts, 2);
  }

  /** `checkPostExistsById(postId)`: the first post that is not archived with that id, or 404. */
  function CheckPostExistsById(posts: seq<Doc>, postId: Value): (r: Result<Doc>)
    ensures r.Ok? ==> r.value in posts && IdOf(r.value) == postId && Get(r.value, "isArchived") == Bool(false)
    ensures r.Err? ==> r.error == NoPostWithId
    ensures r.Err? <==> PostByFields(posts, ById(postId)).None?
  {
    match PostByFields(posts, ById(postId))
    case None => Err(NoPostWithId)
    case Some(p) => Ok(p)
  }

  /** A post together with its vehicle, as `getPost` and `updatePost` return it. */
  datatype EmbeddedPost = EmbeddedPost(post: Doc, vehicle: Doc)

  /** `getPost(postData)`: the first unarchived post with the searched values (404 otherwise) and
      the vehicle it names (404 when that vehicle is missing). */
  function GetPost(posts: seq<Doc>, vehicles: seq<Doc>, search: Doc): (r: Result<EmbeddedPost>)
    ensures PostByFields(posts, search).None? ==> r == Err(PostNotFound)
    ensures r.Ok? ==> (Some(r.value.post) == PostByFields(posts, search) &&
      r.value.vehicle in vehicles && IdOf(r.value.vehicle) == Get(r.value.post, "vehicleId"))
    ensures PostByFields(posts, search).Some? ==>
      var wanted := ById(Get(PostByFields(posts, search).value, "vehicleId"));
      && (r.Ok? <==> FindOne(vehicles, wanted).Some?)
      && (r.Ok? ==> r.value.vehicle == FindOne(vehicles, wanted).value)
      && (r.Err? ==> r.error == VehicleService.VehicleNotFound)
  {
    match PostByFields(posts, search)
    case None => Err(PostNotFound)
    case Some(p) =>
      match VehicleService.GetVehicle(vehicles, ById(Get(p, "vehicleId")))
      case Err(e) => Err(e)
      case Ok(v) =>
        assert "_id" in ById(Get(p, "vehicleId"));
        Ok(EmbeddedPost(p, v))
  }

  /** What `updatePost(req)` does to the post collection and returns. A missing post is
      dereferenced (a TypeError); a requester who is not the owner gets 403 and nothing is
      written; the owner's update is written before the vehicle is looked up, so a missing vehicle
      answers 404 after the write. */
  function UpdatePostFlow(posts: seq<Doc>, vehicles: seq<Doc>, id: Value, body: Doc): (seq<Doc>, Result<EmbeddedPost>)
  {
    match PostByFields(posts, ById(id))
    case None => (posts, Err(RuntimeError))
    case Some(post) =>
      match SameId(Get(post, "userId"), Get(body, "userId"))
      case Err(e) => (posts, Err(e))
      case Ok(owner) =>
        if !owner then (posts, Err(NotYourPostToUpdate))
        else
          var i := FindIndex(posts, ById(id));
          var after := UpdateById(posts, id, Unarchiving(body));
          if i < 0 then (after, Err(RuntimeError))
          else match VehicleService.GetVehicle(vehicles, ById(Get(post, "vehicleId")))
            case Err(e) => (after, Err(e))
            case Ok(v) => (after, Ok(EmbeddedPost(after[i], v)))
  }

  /** `updatePost(req)`. */
  method UpdatePost(db: Database, id: Value, body: Doc) returns (r: Result<EmbeddedPost>)
    modifies db`posts
    ensures (db.posts, r) == UpdatePostFlow(old(db.posts), db.vehicles, id, body)
  {
    var post := PostByFields(db.posts, ById(id));
    if post.None? {
      return Err(RuntimeError);
    }
    var owner := SameId(Get(post.value, "userId"), Get(body, "userId"));
    if owner.Err? {
      return Err(owner.error);
    }
    if !owner.value {
      return Err(NotYourPostToUpdate);
    }
    var updated := PostRepository.UpdatePost(db, id, body);
    var vehicle := VehicleService.GetVehicle(db.vehicles, ById(Get(post.value, "vehicleId")));
    if updated.None? {
      return Err(RuntimeError);
    }
    if vehicle.Err? {
      return Err(vehicle.error);
    }
    r := Ok(EmbeddedPost(updated.value, vehicle.value));
  }

  /** What `deletePost(postId, userId)` does to the post collection: the owner's post is archived;
      anyone else gets 403 and nothing changes; a missing post is dereferenced. */
  function DeletePostFlow(posts: seq<Doc>, postId: Value, userId: Value): (seq<Doc>, Result<()>)
  {
    match PostByFields(posts, ById(postId))
    case None => (posts, Err(RuntimeError))
    case Some(post) =>
      match SameId(Get(post, "userId"), userId)
      case Err(e) => (posts, Err(e))
      case Ok(owner) =>
        if owner then (UpdateById(posts, IdOf(post), Archiving), Ok(()))
        else (posts, Err(NotYourPostToDelete))
  }

  /** `deletePost(postId, userId)`. */
  method DeletePost(db: Database, postId: Value, userId: Value) returns (r: Result<()>)
    modifies db`posts
    ensures (db.posts, r) == DeletePostFlow(old(db.posts), postId, userId)
  {
    var post := PostByFields(db.posts, ById(postId));
    if post.None? {
      return Err(RuntimeError);
    }
    var owner := SameId(Get(post.value, "userId"), userId);
    if owner.Err? {
      return Err(owner.error);
    }
    if !owner.value {
      return Err(NotYourPostToDelete);
    }
    PostRepository.DeletePost(db, IdOf(post.value));
    r := Ok(());
  }

  /** Only the owner's request writes: a changed collection means the post was found and its stored
      owner is the requester; a refused request leaves the posts as they were. */
  lemma OnlyOwnerWrites(posts: seq<Doc>, vehicles: seq<Doc>, id: Value, body: Doc, userId: Value)
    ensures var (after, r) := UpdatePostFlow(posts, vehicles, id, body);
      var found := PostByFields(posts, ById(id));
      && (after != posts ==> found.Some? && Get(found.value, "userId").Str? && Get(found.value, "userId") == Get(body, "userId"))
      && (r == Err(NotYourPostToUpdate) ==> after == posts)
      && (found.None? ==> r == Err(RuntimeError))
    ensures var (after, r) := DeletePostFlow(posts, id, userId);
      var found := PostByFields(posts, ById(id));
      && (after != posts ==> found.Some? && Get(found.value, "userId").Str? && Get(found.value, "userId") == userId)
      && (r.Err? ==> after == posts)
      && (found.None? ==> r == Err(RuntimeError))
  {
  }

  /** An owner's update is written even when the vehicle lookup then fails. */
  lemma UpdateWrittenBeforeVehicleLookup(posts: seq<Doc>, vehicles: seq<Doc>, id: Value, body: Doc)
    requires PostByFields(posts, ById(id)).Some?
    requires var post := PostByFields(posts, ById(id)).value;
      Get(post, "userId").Str? && Get(post, "userId") == Get(body, "userId")
    ensures UpdatePostFlow(posts, vehicles, id, body).0 == UpdateById(posts, id, Unarchiving(body))
  {
  }

  /** With unique ids, once the owner deleted a post it is no longer found. */
  lemma {:induction false} DeletedPostGone(posts: seq<Doc>, postId: Value, userId: Value)
    requires UniqueIds(posts)
    requires DeletePostFlow(posts, postId, userId).1.Ok?
    ensures PostByFields(DeletePostFlow(posts, postId, userId).0, ById(postId)).None?
  {
    var post := PostByFields(posts, ById(postId)).value;
    assert IdOf(post) == postId;
    DeletedPostHidden(posts, postId);
  }

  function LikeFailed(postId: string, userId: string): Error
  {
    AppError(400, "Couldn't like/dislike post (id=" + postId + ") by user (id=" + userId + ")")
  }

  /** What `likeDislikePost(postId, userId)` does to the user collection and returns: when both the
      unarchived post and the user exist, the post is liked if it is not on the user's list and
      unliked otherwise, and the user is returned with the list the update gave back. */
  function LikeDislike(users: seq<Doc>, posts: seq<Doc>, postId: string, userId: string): (seq<Doc>, Result<Doc>)
  {
    var post := PostByFields(posts, ById(Str(postId)));
    var user := FindOne(users, ById(Str(userId)));
    if user.Some? && post.Some? then
      var liked := IdOf(post.value) in ItemsOf(user.value, "likedPosts");
      var (after, list) := UserService.LikedPostsUpdate(users, Str(userId), postId, !liked);
      match list
      case Err(e) => (after, Err(e))
      case Ok(l) => (after, Ok(user.value["likedPosts" := Arr(l)]))
    else (users, Err(LikeFailed(postId, userId)))
  }

  /** `likeDislikePost(postId, userId)`. */
  method LikeDislikePost(db: Database, postId: string, userId: string) returns (r: Result<Doc>)
    modifies db`users
    ensures (db.users, r) == LikeDislike(old(db.users), db.posts, postId, userId)
  {
    var post := PostByFields(db.posts, ById(Str(postId)));
    var user := FindOne(db.users, ById(Str(userId)));
    if user.Some? && post.Some? {
      var list;
      if IdOf(post.value) !in ItemsOf(user.value, "likedPosts") {
        list := UserService.UpdateUserLikedPosts(db, Str(userId), postId, true);
      } else {
        list := UserService.UpdateUserLikedPosts(db, Str(userId), postId, false);
      }
      r := match list
        case Err(e) => Err(e)
        case Ok(l) => Ok(user.value["likedPosts" := Arr(l)]);
    } else {
      r := Err(LikeFailed(postId, userId));
    }
  }

  /** A missing user or post answers 400 and changes nothing; otherwise the post's membership in the
      user's stored list flips. */
  lemma {:induction false} LikeToggles(users: seq<Doc>, posts: seq<Doc>, postId: string, userId: string)
    ensures var (after, r) := LikeDislike(users, posts, postId, userId);
      var i := FindIndex(users, ById(Str(userId)));
      if i < 0 || PostByFields(posts, ById(Str(postId))).None? then
        after == users && r == Err(LikeFailed(postId, userId))
      else
        r.Ok? && (Str(postId) in ItemsOf(after[i], "likedPosts") <==> Str(postId) !in ItemsOf(users[i], "likedPosts"))
  {
    var i := FindIndex(users, ById(Str(userId)));
    var post := PostByFields(posts, ById(Str(postId)));
    if i >= 0 && post.Some? {
      assert IdOf(post.value) == Str(postId) by { assert "_id" in ById(Str(postId)); }
      var liked := Str(postId) in ItemsOf(users[i], "likedPosts");
      if liked {
        assert Get(users[i], "likedPosts").Arr?;
        UserService.UnlikeRemovesAll(users, Str(userId), postId);
      } else {
        UserService.LikeAppends(users, Str(userId), postId);
      }
    }
  }

  /** Pressing like twice on a post that was not liked gives the user collection back. */
  lemma {:induction false} LikeTwiceRestores(users: seq<Doc>, posts: seq<Doc>, postId: string, userId: string)
    requires FindIndex(users, ById(Str(userId))) >= 0 && PostByFields(posts, ById(Str(postId))).Some?
    requires var u := users[FindIndex(users, ById(Str(userId)))];
      Get(u, "likedPosts").Arr? && Str(postId) !in ItemsOf(u, "likedPosts")
    ensures LikeDislike(LikeDislike(users, posts, postId, userId).0, posts, postId, userId).0 == users
  {
    var id := Str(userId);
    var i := FindIndex(users, ById(id));
    var post := PostByFields(posts, ById(Str(postId))).value;
    assert IdOf(post) == Str(postId) by { assert "_id" in ById(Str(postId)); }
    var mid := LikeDislike(users, posts, postId, userId).0;
    UserService.LikeAppends(users, id, postId);
    assert mid == UserService.LikedPostsUpdate(users, id, postId, true).0;
    UserService.SameFirstIndex(users, mid, id, i);
    assert FindOne(mid, ById(id)) == Some(mid[i]);
    assert Str(postId) in ItemsOf(mid[i], "likedPosts");
    UserService.LikeThenUnlikeRestores(users, id, postId);
  }

  /** Day number of 1970-01-01 and of 2100-01-01, the default date bounds. */
  const EarliestDay := 0
  const LatestDay := 47482

  /** A search filter under construction: its clauses, the page and the page size. */
  class Filter {
    var filters: seq<Clause>
    var page: int
    var limit: int

    constructor (page: int, limit: int)
      ensures filters == [] && this.page == page && this.limit == limit
    {
      filters := [];
      this.page := page;
      this.limit := limit;
    }

    /** `updateFilterByStartDate(filter, startDate)`: posts available from the given day on. */
    method UpdateFilterByStartDate(startDate: Option<int>)
      modifies this`filters
      ensures filters == old(filters) + [FromOnOrAfter(if startDate.Some? then startDate.value else EarliestDay)]
    {
      var day := EarliestDay;
      if startDate.Some? {
        day := startDate.value;
      }
      filters := filters + [FromOnOrAfter(day)];
    }

    /** `updateFilterByEndDate(filter, endDate)`: posts available until the given day. */
    method UpdateFilterByEndDate(endDate: Option<int>)
      modifies this`filters
      ensures filters == old(filters) + [ToOnOrBefore(if endDate.Some? then endDate.value else LatestDay)]
    {
      var day := LatestDay;
      if endDate.Some? {
        day := endDate.value;
      }
      filters := filters + [ToOnOrBefore(day)];
    }

    /** `updateFilterByStartPrice(filter, startPrice)`: a price of at least the given one, 1 by
        default. */
    method UpdateFilterByStartPrice(startPrice: Option<int>)
      modifies this`filters
      ensures filters == old(filters) + [PriceAtLeast(if startPrice.Some? then startPrice.value else 1)]
    {
      var price := 1;
      if startPrice.Some? {
        price := startPrice.value;
      }
      filters := filters + [PriceAtLeast(price)];
    }

    /** `updateFilterByEndPrice(filter, endPrice)`: a price of at most the given one, 100000 by
        default. */
    method UpdateFilterByEndPrice(endPrice: Option<int>)
      modifies this`filters
      ensures filters == old(filters) + [PriceAtMost(if endPrice.Some? then endPrice.value else 100000)]
    {
      var price := 100000;
      if endPrice.Some? {
        price := endPrice.value;
      }
      filters := filters + [PriceAtMost(price)];
    }

    /** `updateFilterByLocation(filter, location)`: the city or the street starts with the
        transliterated location; an empty location adds a clause every string address meets. */
    method UpdateFilterByLocation(location: string)
      modifies this`filters
      ensures filters == old(filters) + [LocationStartsWith(if location != "" then Transliteration.Transliterated(location) else "")]
    {
      var searchAddress := "";
      if location != "" {
        searchAddress := Transliteration.Transliterate(location);
      }
      filters := filters + [LocationStartsWith(searchAddress)];
    }

    /** `updateFilterByArchived(filter)`. */
    method UpdateFilterByArchived()
      modifies this`filters
      ensures filters == old(filters) + [NotArchived]
    {
      filters := filters + [NotArchived];
    }

    /** `updateFilterByBrand(filter, brand)`: an empty brand adds nothing; a non-empty one reads
        `req`, which is not declared there, and throws before anything is added. */
    method UpdateFilterByBrand(brand: string) returns (r: Result<()>)
      modifies this`filters
      ensures filters == old(filters)
      ensures r.Err? <==> brand != ""
      ensures r.Err? ==> r.error == RuntimeError
    {
      if brand != "" {
        return Err(RuntimeError);
      }
      r := Ok(());
    }
  }

  /** `initializeFilter(req)`: no clauses, and page 1 and limit 12 unless the query gives them. */
  method InitializeFilter(page: Option<int>, limit: Option<int>) returns (f: Filter)
    ensures fresh(f) && f.filters == []
    ensures f.page == (if page.Some? then page.value else 1)
    ensures f.limit == (if limit.Some? then limit.value else 12)
  {
    f := new Filter(if page.Some? then page.value else 1, if limit.Some? then limit.value else 12);
  }

  /** An empty location matches exactly the posts whose street and city are both strings. */
  lemma EmptyLocationMatchesStringAddresses(d: Doc)
    ensures Satisfies(d, LocationStartsWith("")) <==>
      Get(d, "location.searchStreet").Str? && Get(d, "location.searchCity").Str?
  {
  }

  /** A page given as "0" is kept (a non-empty query string is truthy), and the search it leads to
      fails on the negative skip. */
  lemma PageZeroFails(posts: seq<Doc>, clauses: seq<Clause>, limit: int)
    requires limit >= 1
    ensures PerformFilterSearch(posts, clauses, 0, limit).Err?
  {
  }
}
