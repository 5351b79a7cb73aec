/** The booking service: the days a post's bookings occupy, and creating a booking for a post.
    Dates are whole day numbers (day 0 is 1970-01-01), so one step of `setDate(getDate() + 1)`
    is one step up, and the "YYYY-MM-DD" text of a day is the day number itself. */
module BookingService {
  import opened Common
  import opened Docs
  import PostService
  import PostRepository
  import VehicleService

  /** The two dates of a stored booking that `getTakenDates` reads and advances. */
  datatype Span = Span(startDate: int, endDate: int)

  /** The days from s through e inclusive, in ascending order; none when s is after e. */
  function Days(s: int, e: int): (r: seq<int>)
    decreases if s <= e then e - s + 1 else 0
  {
    if s > e then [] else Days(s, e - 1) + [e]
  }

  /** The days every booking of `bs` occupies, booking after booking. */
  function TakenDays(bs: seq<Span>): (r: seq<int>)
  {
    if bs == [] then [] else TakenDays(bs[..|bs| - 1]) + Days(bs[|bs| - 1].startDate, bs[|bs| - 1].endDate)
  }

  /** A booking after `getTakenDates` walked it: its start date, which the walk advanced in place,
      ends one day past its end date; a booking whose start is after its end is not touched. */
  function Walked(b: Span): (r: Span)
    ensures r.endDate == b.endDate
    ensures b.startDate <= b.endDate ==> r.startDate == b.endDate + 1
    ensures b.startDate > b.endDate ==> r == b
  {
    if b.startDate <= b.endDate then b.(startDate := b.endDate + 1) else b
  }

  /** `getTakenDates(bookings)`: every day of every booking, in booking order. The loop variable
      is the booking's own start date, so advancing it advances the stored booking. */
  method GetTakenDates(bookings: array<Span>) returns (takenDates: seq<int>)
    modifies bookings
    ensures takenDates == TakenDays(old(bookings[..]))
    ensures forall j :: 0 <= j < bookings.Length ==> bookings[j] == Walked(old(bookings[j]))
  {
    takenDates := [];
    for i := 0 to bookings.Length
      invariant takenDates == TakenDays(old(bookings[..])[..i])
      invariant forall j :: 0 <= j < i ==> bookings[j] == Walked(old(bookings[j]))
      invariant forall j :: i <= j < bookings.Length ==> bookings[j] == old(bookings[j])
    {
      ghost var before := takenDates;
      ghost var first := bookings[i].startDate;
      assert old(bookings[..])[..i + 1][..i] == old(bookings[..])[..i];
      while bookings[i].startDate <= bookings[i].endDate
        invariant bookings[i].endDate == old(bookings[i]).endDate
        invariant first <= bookings[i].startDate
        invariant first <= bookings[i].endDate ==> bookings[i].startDate <= bookings[i].endDate + 1
        invariant first > bookings[i].endDate ==> bookings[i].startDate == first
        invariant takenDates == before + Days(first, bookings[i].startDate - 1)
        invariant forall j :: 0 <= j < i ==> bookings[j] == Walked(old(bookings[j]))
        invariant forall j :: i < j < bookings.Length ==> bookings[j] == old(bookings[j])
        decreases bookings[i].endDate - bookings[i].startDate
      {
        takenDates := takenDates + [bookings[i].startDate];
        bookings[i] := bookings[i].(startDate := bookings[i].startDate + 1);
      }
    }
    assert old(bookings[..])[..bookings.Length] == old(bookings[..]);
  }

  /** A day range holds e - s + 1 days, or none. */
  lemma {:induction false} DaysLength(s: int, e: int)
    ensures |Days(s, e)| == if s <= e then e - s + 1 else 0
    decreases if s <= e then e - s + 1 else 0
  {
    if s <= e {
      DaysLength(s, e - 1);
    }
  }

  /** The k-th day of a range is s + k: the days rise one at a time from the start date. */
  lemma {:induction false} DaysAscending(s: int, e: int)
    ensures forall k :: 0 <= k < |Days(s, e)| ==> Days(s, e)[k] == s + k
    decreases if s <= e then e - s + 1 else 0
  {
    if s <= e {
      DaysAscending(s, e - 1);
      DaysLength(s, e - 1);
    }
  }

  /** A day is in the range exactly when it lies between the start and the end date, both included. */
  lemma DaysMembership(s: int, e: int, d: int)
    ensures d in Days(s, e) <==> s <= d <= e
  {
    DaysAscending(s, e);
    DaysLength(s, e);
    if s <= d <= e {
      assert Days(s, e)[d - s] == d;
    }
  }

  /** The days of two lists of bookings are the days of the first followed by those of the second. */
  lemma {:induction false} TakenDaysAppend(a: seq<Span>, b: seq<Span>)
    ensures TakenDays(a + b) == TakenDays(a) + TakenDays(b)
    decreases |b|
  {
    if b == [] {
      assert a + b == a;
    } else {
      var init := b[..|b| - 1];
      assert (a + b)[..|a + b| - 1] == a + init;
      assert (a + b)[|a + b| - 1] == b[|b| - 1];
      TakenDaysAppend(a, init);
    }
  }

  /** A day is taken exactly when some booking covers it. */
  lemma {:induction false} TakenDaysMembership(bs: seq<Span>, d: int)
    ensures d in TakenDays(bs) <==> exists b :: b in bs && b.startDate <= d <= b.endDate
  {
    if bs != [] {
      var init, last := bs[..|bs| - 1], bs[|bs| - 1];
      TakenDaysMembership(init, d);
      DaysMembership(last.startDate, last.endDate, d);
      assert bs == init + [last];
      if d in TakenDays(init) {
        var b :| b in init && b.startDate <= d <= b.endDate;
        assert b in bs;
      }
      if exists b :: b in bs && b.startDate <= d <= b.endDate {
        var b :| b in bs && b.startDate <= d <= b.endDate;
        assert b in init || b == last;
      }
    }
  }

  /** A booking whose start date is after its end date adds no day. */
  lemma EmptyBookingAddsNothing(bs: seq<Span>, b: Span)
    requires b.startDate > b.endDate
    ensures TakenDays(bs + [b]) == TakenDays(bs)
  {
    assert (bs + [b])[..|bs|] == bs;
  }

  /** The stored booking as `createBooking` builds it: `{ hostId: post.userId, ...bookingData }`.
      The host is the post's owner unless the booking data carries its own `hostId`, which the
      spread writes over it; every other field is the booking data's. */
  function HostedBooking(post: Doc, bookingData: Doc): (r: Doc)
    ensures Get(r, "hostId") == if "hostId" in bookingData then bookingData["hostId"] else Get(post, "userId")
    ensures forall f :: f != "hostId" ==> Get(r, f) == Get(bookingData, f)
  {
    map["hostId" := Get(post, "userId")] + bookingData
  }

  /** What `createBooking(bookingData)` does to the booking collection and returns: the post named
      by `bookingData.postId` is loaded as `getPost` loads it (a missing post or a missing vehicle
      fails before anything is stored), then the booking is stored. */
  function CreateBookingFlow(posts: seq<Doc>, vehicles: seq<Doc>, bookings: seq<Doc>, bookingData: Doc): (seq<Doc>, Result<Doc>)
  {
    match PostService.GetPost(posts, vehicles, ById(Get(bookingData, "postId")))
    case Err(e) => (bookings, Err(e))
    case Ok(embedded) =>
      var booking := HostedBooking(embedded.post, bookingData);
      (bookings + [booking], Ok(booking))
  }

  /** `createBooking(bookingData)`. */
  method CreateBooking(db: Database, bookingData: Doc) returns (r: Result<Doc>)
    modifies db`bookings
    ensures (db.bookings, r) == CreateBookingFlow(db.posts, db.vehicles, old(db.bookings), bookingData)
  {
    var post := PostService.GetPost(db.posts, db.vehicles, ById(Get(bookingData, "postId")));
    if post.Err? {
      return Err(post.error);
    }
    var booking := HostedBooking(post.value.post, bookingData);
    db.bookings := db.bookings + [booking];
    r := Ok(booking);
  }

  /** A booking is stored exactly when its post is found with its vehicle, and then it is the one
      new record; a missing post answers 404 "Post not found", a post whose vehicle is missing answers
      404 "Vehicle not found.", and neither stores anything. */
  lemma CreateBookingOutcomes(posts: seq<Doc>, vehicles: seq<Doc>, bookings: seq<Doc>, bookingData: Doc)
    ensures var (after, r) := CreateBookingFlow(posts, vehicles, bookings, bookingData);
      var query := ById(Get(bookingData, "postId"));
      && (r.Ok? <==> PostService.GetPost(posts, vehicles, query).Ok?)
      && (r.Ok? ==> after == bookings + [r.value] && Get(r.value, "postId") == Get(bookingData, "postId"))
      && (r.Err? ==> after == bookings)
      && (PostRepository.PostByFields(posts, query).None? ==> r == Err(PostService.PostNotFound))
      && (PostRepository.PostByFields(posts, query).Some? &&
          FindOne(vehicles, ById(Get(PostRepository.PostByFields(posts, query).value, "vehicleId"))).None? ==>
            r == Err(VehicleService.VehicleNotFound))
  {
  }

  /** The host of a new booking is the owner of its post, unless the booking data names a host. */
  lemma HostIsOwnerUnlessGiven(posts: seq<Doc>, vehicles: seq<Doc>, bookings: seq<Doc>, bookingData: Doc)
    requires CreateBookingFlow(posts, vehicles, bookings, bookingData).1.Ok?
    ensures var booking := CreateBookingFlow(posts, vehicles, bookings, bookingData).1.value;
      var post := PostRepository.PostByFields(posts, ById(Get(bookingData, "postId")));
      && post.Some?
      && ("hostId" !in bookingData ==> Get(booking, "hostId") == Get(post.value, "userId"))
      && ("hostId" in bookingData ==> Get(booking, "hostId") == bookingData["hostId"])
  {
  }

  /** `getAllPostBookings(postId, bookingData)`: after checking that the post exists as `getPost`
      does, every booking matching `bookingData`. */
  function GetAllPostBookings(posts: seq<Doc>, vehicles: seq<Doc>, bookings: seq<Doc>, postId: Value, bookingData: Doc): (r: Result<seq<Doc>>)
    ensures r.Err? <==> PostService.GetPost(posts, vehicles, ById(postId)).Err?
    ensures r.Err? ==> r.error == PostService.GetPost(posts, vehicles, ById(postId)).error
    ensures r.Ok? ==> forall b :: b in r.value <==> b in bookings && Matches(b, bookingData)
  {
    match PostService.GetPost(posts, vehicles, ById(postId))
    case Err(e) => Err(e)
    case Ok(_) =>
      var found := FindAll(bookings, bookingData);
      assert forall b :: b in found ==> b in bookings && Matches(b, bookingData) by {
        forall b | b in found ensures b in bookings && Matches(b, bookingData) {
          var j :| 0 <= j < |found| && found[j] == b;
        }
      }
      assert forall b :: b in bookings && Matches(b, bookingData) ==> b in found by {
        forall b | b in bookings && Matches(b, bookingData) ensures b in found {
          var j :| 0 <= j < |bookings| && bookings[j] == b;
        }
      }
      Ok(found)
  }

  /** The post id only gates the query: the bookings returned for two existing posts are the same,
      since `bookingData` alone selects them. */
  lemma PostIdOnlyGates(posts: seq<Doc>, vehicles: seq<Doc>, bookings: seq<Doc>, p: Value, q: Value, bookingData: Doc)
    requires GetAllPostBookings(posts, vehicles, bookings, p, bookingData).Ok?
    requires GetAllPostBookings(posts, vehicles, bookings, q, bookingData).Ok?
    ensures GetAllPostBookings(posts, vehicles, bookings, p, bookingData) == GetAllPostBookings(posts, vehicles, bookings, q, bookingData)
  {
  }
}
