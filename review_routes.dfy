/** The review service: `POST /add` derives the initial, validates and
    saves a review; `GET /` lists every review newest first. */
module ReviewRoutes {
  import opened Base
  import opened Ordering
  import opened ReviewModel

  /** The JSON body of `POST /add`; `name` is `None` when it is missing or
      is not a string (then `name.charAt` throws). `review` is `None` when
      it is missing or not a string: the string form that the schema would
      cast a number or boolean to is not modelled. */
  datatype AddBody = AddBody(name: Option<string>, review: Option<string>, rating: Option<int>)

  datatype AddResponse = Added(record: Review) | AddFailed

  function AddStatus(r: AddResponse): int { if r.Added? then 200 else 500 }
  function AddSuccess(r: AddResponse): bool { r.Added? }
  function AddMessage(r: AddResponse): string {
    if r.Added? then "Review added successfully" else "Error adding review"
  }

  lemma InitialOfAlice()
    ensures FirstLetterUpper("alice") == "A"
  {
  }

  /** What `POST /add` answers for a body, a clock reading and the
      database's acceptance of the save. */
  function HandleAdd(body: AddBody, now: int, saveOk: bool): AddResponse {
    if body.name.None? then AddFailed
    else
      var doc := ReviewDoc(body.name, Some(FirstLetterUpper(body.name.value)), body.review, body.rating, None);
      match Validate(doc, now)
      case Rejected(_) => AddFailed
      case Accepted(record) => if saveOk then Added(record) else AddFailed
  }

  /** A review is added exactly when the name and review text are non-empty
      strings, the rating lies in 1..5 and the save succeeds. The stored
      record keeps name, review and rating as submitted, with the derived
      initial and the server's clock; the answer is the success envelope
      with status 200. Every other outcome is a 500 with `success: false`. */
  lemma {:induction false} AddStoresSubmission(body: AddBody, now: int, saveOk: bool)
    ensures var r := HandleAdd(body, now, saveOk);
            && (r.Added? <==>
                  RequiredText(body.name) && RequiredText(body.review) && RatingInRange(body.rating) && saveOk)
            && (r.Added? ==>
                  && Some(r.record.name) == body.name && Some(r.record.review) == body.review
                  && Some(r.record.rating) == body.rating
                  && r.record.initial == FirstLetterUpper(r.record.name)
                  && r.record.createdAt == now
                  && WellFormedReview(r.record)
                  && AddStatus(r) == 200 && AddSuccess(r) && AddMessage(r) == "Review added successfully")
            && (!r.Added? ==> AddStatus(r) == 500 && !AddSuccess(r) && AddMessage(r) == "Error adding review")
  {
    var r := HandleAdd(body, now, saveOk);
    if body.name.Some? {
      var doc := ReviewDoc(body.name, Some(FirstLetterUpper(body.name.value)), body.review, body.rating, None);
      assert RequiredText(doc.initial) <==> RequiredText(body.name);
      if Validate(doc, now).Accepted? {
        AcceptedKeepsFields(doc, now);
      }
    }
  }

  /** A rating outside 1..5 is refused and nothing is saved. */
  lemma RatingOutsideRangeIsRefused(body: AddBody, now: int, saveOk: bool)
    requires body.rating.Some? && (body.rating.value < MinRating || body.rating.value > MaxRating)
    ensures HandleAdd(body, now, saveOk) == AddFailed
  {
    AddStoresSubmission(body, now, saveOk);
  }

  datatype ListResponse = Listed(reviews: seq<Review>)

  /** `GET /`: every stored review, newest `createdAt` first, in the
      `{success: true, reviews}` envelope. */
  function ListReviews(store: seq<Review>): ListResponse {
    Listed(SortByDesc(store, CreatedAtOf))
  }

  lemma {:induction false} ListingHasEveryReviewNewestFirst(store: seq<Review>)
    ensures var r := ListReviews(store).reviews;
            && |r| == |store|
            && multiset(r) == multiset(store)
            && (forall i, j :: 0 <= i < j < |r| ==> r[i].createdAt >= r[j].createdAt)
  {
    var r := ListReviews(store).reviews;
    assert SortedDesc(r, CreatedAtOf);
    forall i, j | 0 <= i < j < |r| ensures r[i].createdAt >= r[j].createdAt {
      assert CreatedAtOf(r[i]) >= CreatedAtOf(r[j]);
    }
  }

  /** The document store's `reviews` collection. */
  class ReviewBoard {
    var reviews: seq<Review>

    ghost predicate Valid()
      reads this
    {
      forall i :: 0 <= i < |reviews| ==> WellFormedReview(reviews[i])
    }

    constructor ()
      ensures Valid() && reviews == []
    {
      reviews := [];
    }

    /** The `POST /add` handler: appends the record only when the whole
        call succeeds, and otherwise leaves the collection unchanged. */
    method Add(body: AddBody, now: int, saveOk: bool) returns (resp: AddResponse)
      requires Valid()
      modifies this
      ensures Valid()
      ensures resp == HandleAdd(body, now, saveOk)
      ensures reviews == if resp.Added? then old(reviews) + [resp.record] else old(reviews)
    {
      if body.name.None? {
        return AddFailed;
      }
      var initial := FirstLetterUpper(body.name.value);
      var doc := ReviewDoc(body.name, Some(initial), body.review, body.rating, None);
      var checked := Validate(doc, now);
      if checked.Rejected? || !saveOk {
        return AddFailed;
      }
      AcceptedKeepsFields(doc, now);
      reviews := reviews + [checked.record];
      resp := Added(checked.record);
    }
  }
}
