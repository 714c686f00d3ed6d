/** The `Review` schema: which documents the database accepts, and the
    record it stores for them. */
module ReviewModel {
  import opened Base

  const MinRating := 1
  const MaxRating := 5

  /** A document as given to `new Review({...})`; a field that was not
      supplied is `None`. */
  datatype ReviewDoc = ReviewDoc(
    name: Option<string>,
    initial: Option<string>,
    review: Option<string>,
    rating: Option<int>,
    createdAt: Option<int>)

  /** A stored review. */
  datatype Review = Review(name: string, initial: string, review: string, rating: int, createdAt: int)

  /** The schema paths, in declaration order. */
  datatype Path = NamePath | InitialPath | ReviewPath | RatingPath

  datatype Validated = Accepted(record: Review) | Rejected(errors: seq<Path>)

  /** `required: true` on a String path: present and not the empty string. */
  predicate RequiredText(v: Option<string>) { v.Some? && |v.value| > 0 }

  /** `required: true, min: 1, max: 5` on the rating path. */
  predicate RatingInRange(v: Option<int>) { v.Some? && MinRating <= v.value <= MaxRating }

  /** What every stored review satisfies. */
  predicate WellFormedReview(r: Review) {
    |r.name| > 0 && |r.initial| > 0 && |r.review| > 0 && MinRating <= r.rating <= MaxRating
  }

  function CreatedAtOf(r: Review): int { r.createdAt }

  /** Validation of a document against the schema, with the default
      `createdAt` (the clock reading `now`) filled in when it is absent. The
      errors list each failing path once, in schema order. */
  function Validate(doc: ReviewDoc, now: int): (v: Validated)
    ensures v.Accepted? <==>
              RequiredText(doc.name) && RequiredText(doc.initial) && RequiredText(doc.review)
              && RatingInRange(doc.rating)
    ensures v.Rejected? ==>
              && |v.errors| > 0
              && (NamePath in v.errors <==> !RequiredText(doc.name))
              && (InitialPath in v.errors <==> !RequiredText(doc.initial))
              && (ReviewPath in v.errors <==> !RequiredText(doc.review))
              && (RatingPath in v.errors <==> !RatingInRange(doc.rating))
  {
    var nameErr := if RequiredText(doc.name) then [] else [NamePath];
    var initialErr := if RequiredText(doc.initial) then [] else [InitialPath];
    var reviewErr := if RequiredText(doc.review) then [] else [ReviewPath];
    var ratingErr := if RatingInRange(doc.rating) then [] else [RatingPath];
    var errors := nameErr + initialErr + reviewErr + ratingErr;
    assert |errors| == |nameErr| + |initialErr| + |reviewErr| + |ratingErr|;
    assert forall p :: p in errors <==> p in nameErr || p in initialErr || p in reviewErr || p in ratingErr;
    if errors == [] then
      Accepted(Review(doc.name.value, doc.initial.value, doc.review.value, doc.rating.value,
                      if doc.createdAt.Some? then doc.createdAt.value else now))
    else Rejected(errors)
  }

  /** An accepted document is stored unchanged, is well formed, and gets
      the creation time `now` exactly when it did not carry one. */
  lemma AcceptedKeepsFields(doc: ReviewDoc, now: int)
    requires Validate(doc, now).Accepted?
    ensures var r := Validate(doc, now).record;
            && WellFormedReview(r)
            && Some(r.name) == doc.name && Some(r.initial) == doc.initial
            && Some(r.review) == doc.review && Some(r.rating) == doc.rating
            && (doc.createdAt.None? ==> r.createdAt == now)
            && (doc.createdAt.Some? ==> r.createdAt == doc.createdAt.value)
  {
  }

  /** A rating outside 1..5, or no rating, is always rejected, whatever the
      other fields hold. */
  lemma RatingOutsideRangeRejected(doc: ReviewDoc, now: int)
    requires doc.rating.None? || doc.rating.value < MinRating || doc.rating.value > MaxRating
    ensures Validate(doc, now).Rejected? && RatingPath in Validate(doc, now).errors
  {
  }
}
