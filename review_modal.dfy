/** The review modal: a star rating that toggles down when the current star
    is clicked again, client-side checks before sending, and the form
    state before, during and after the request. */
module ReviewModal {
  import opened Base

  const StarCount := 5

  // ---------------------------------------------------------------------
  // Stars
  // ---------------------------------------------------------------------

  /** `handleStarClick`: clicking the star equal to the rating lowers the
      rating by one; any other star sets the rating to that star. */
  function StarToggle(rating: int, star: int): int {
    if star == rating then star - 1 else star
  }

  /** Star `k` is drawn filled. */
  predicate StarFilled(k: int, rating: int) { k <= rating }

  /** From a rating in 0..5, a click on star 1..5 gives a rating in 0..5:
      a new star lights exactly the stars up to it, and clicking the
      highest lit star puts out that star alone. */
  lemma StarClickEffect(rating: int, star: int)
    requires 0 <= rating <= StarCount && 1 <= star <= StarCount
    ensures 0 <= StarToggle(rating, star) <= StarCount
    ensures star != rating ==> StarToggle(rating, star) == star
    ensures star == rating ==> StarToggle(rating, star) == star - 1
    ensures forall k :: 1 <= k <= StarCount ==>
              (StarFilled(k, StarToggle(rating, star)) <==> k < star || (k == star && star != rating))
  {
  }

  /** The rating after a sequence of star clicks. */
  function RatingAfter(rating: int, clicks: seq<int>): int
    decreases |clicks|
  {
    if clicks == [] then rating else RatingAfter(StarToggle(rating, clicks[0]), clicks[1..])
  }

  /** Starting from 0 (or any rating in range), clicks on stars 1..5 keep
      the rating in 0..5. */
  lemma {:induction false} ClicksKeepRatingInRange(rating: int, clicks: seq<int>)
    requires 0 <= rating <= StarCount
    requires forall i :: 0 <= i < |clicks| ==> 1 <= clicks[i] <= StarCount
    ensures 0 <= RatingAfter(rating, clicks) <= StarCount
    decreases |clicks|
  {
    if clicks != [] {
      StarClickEffect(rating, clicks[0]);
      ClicksKeepRatingInRange(StarToggle(rating, clicks[0]), clicks[1..]);
    }
  }

  /** Clicking the highest lit star twice restores the rating. */
  lemma DoubleClickRestores(rating: int)
    requires 1 <= rating <= StarCount
    ensures RatingAfter(rating, [rating, rating]) == rating
  {
    assert RatingAfter(rating, [rating, rating]) == RatingAfter(rating - 1, [rating]);
    assert RatingAfter(rating - 1, [rating]) == RatingAfter(rating, []);
  }

  // ---------------------------------------------------------------------
  // `trim` and blank fields
  // ---------------------------------------------------------------------

  function TrimStart(s: string): (r: string)
    ensures |r| <= |s| && r == s[|s| - |r|..]
    ensures r == [] || !IsSpace(r[0])
    ensures forall i :: 0 <= i < |s| - |r| ==> IsSpace(s[i])
  {
    if s == [] || !IsSpace(s[0]) then s else TrimStart(s[1..])
  }

  function TrimEnd(s: string): (r: string)
    ensures |r| <= |s| && r == s[..|r|]
    ensures r == [] || !IsSpace(r[|r| - 1])
    ensures forall i :: |r| <= i < |s| ==> IsSpace(s[i])
  {
    if s == [] || !IsSpace(s[|s| - 1]) then s else TrimEnd(s[..|s| - 1])
  }

  /** JavaScript's `trim`, over the ASCII whitespace characters. */
  function Trim(s: string): string { TrimEnd(TrimStart(s)) }

  predicate IsBlank(s: string) { forall i :: 0 <= i < |s| ==> IsSpace(s[i]) }

  /** `!s.trim()` holds exactly for blank strings: the empty string and
      those made only of whitespace. */
  lemma TrimEmptyIffBlank(s: string)
    ensures Trim(s) == [] <==> IsBlank(s)
  {
    var t := TrimStart(s);
    // A trimmed start either is empty or begins with a non-space, which the
    // trailing trim would keep.
    assert Trim(s) == [] ==> t == [];
  }

  // ---------------------------------------------------------------------
  // The form
  // ---------------------------------------------------------------------

  datatype NoticeKind = Plain | ErrorNotice | SuccessNotice

  /** The `{type, text}` message shown above the form. */
  datatype Notice = Notice(kind: NoticeKind, text: string)

  const NoNotice := Notice(Plain, "")

  /** The JSON body sent to `POST /api/reviews/add`. */
  datatype ReviewRequest = ReviewRequest(name: string, review: string, rating: int)

  /** How the request ended: a JSON answer, or a thrown error (network
      failure or a body that is not JSON). */
  datatype Reply = Replied(success: bool, message: Option<string>) | Threw

  /** The error text for an unsuccessful answer: the server's message when
      it has one, and a fixed text when it is missing or empty. */
  function FailureText(message: Option<string>): string {
    if message.None? || message.value == "" then "Failed to submit review" else message.value
  }

  class ReviewForm {
    var name: string
    var review: string
    var rating: int
    var isSubmitting: bool
    var message: Notice

    ghost predicate Valid()
      reads this
    {
      0 <= rating <= StarCount
    }

    constructor ()
      ensures Valid()
      ensures name == "" && review == "" && rating == 0 && !isSubmitting && message == NoNotice
    {
      name, review, rating, isSubmitting, message := "", "", 0, false, NoNotice;
    }

    method EditName(value: string)
      modifies this`name
      ensures name == value
    {
      name := value;
    }

    method EditReview(value: string)
      modifies this`review
      ensures review == value
    {
      review := value;
    }

    /** A click on one of the five star buttons. */
    method StarClick(star: int)
      requires Valid() && 1 <= star <= StarCount
      modifies this`rating
      ensures Valid()
      ensures rating == StarToggle(old(rating), star)
    {
      StarClickEffect(rating, star);
      rating := StarToggle(rating, star);
    }

    /** `handleSubmit` up to the request: a blank name or review (one whose
        trimmed text is empty, see `TrimEmptyIffBlank`) is reported first,
        then a missing rating; otherwise the request is sent and the
        form is marked as submitting. The fields are never changed here. */
    method BeginSubmit() returns (request: Option<ReviewRequest>)
      requires Valid()
      modifies this`message, this`isSubmitting
      ensures Valid()
      ensures Trim(name) == [] || Trim(review) == [] ==>
                request.None? && message == Notice(ErrorNotice, "Please fill all fields")
                && isSubmitting == old(isSubmitting)
      ensures Trim(name) != [] && Trim(review) != [] && rating == 0 ==>
                request.None? && message == Notice(ErrorNotice, "Please select a rating")
                && isSubmitting == old(isSubmitting)
      ensures Trim(name) != [] && Trim(review) != [] && rating != 0 ==>
                request == Some(ReviewRequest(name, review, rating)) && 1 <= rating <= StarCount
                && isSubmitting && message == old(message)
    {
      if Trim(name) == [] || Trim(review) == [] {
        message := Notice(ErrorNotice, "Please fill all fields");
        return None;
      }
      if rating == 0 {
        message := Notice(ErrorNotice, "Please select a rating");
        return None;
      }
      isSubmitting := true;
      request := Some(ReviewRequest(name, review, rating));
    }

    /** `handleSubmit` after the request: success clears the form, an
        unsuccessful answer or a thrown error keeps it; in every case the
        form stops submitting. */
    method FinishSubmit(reply: Reply)
      requires Valid()
      modifies this`name, this`review, this`rating, this`message, this`isSubmitting
      ensures Valid() && !isSubmitting
      ensures reply.Replied? && reply.success ==>
                name == "" && review == "" && rating == 0
                && message == Notice(SuccessNotice, "Review submitted successfully!")
      ensures reply.Replied? && !reply.success ==>
                name == old(name) && review == old(review) && rating == old(rating)
                && message == Notice(ErrorNotice, FailureText(reply.message))
      ensures reply.Threw? ==>
                name == old(name) && review == old(review) && rating == old(rating)
                && message == Notice(ErrorNotice, "Something went wrong. Please try again.")
    {
      match reply {
        case Replied(success, text) =>
          if success {
            message := Notice(SuccessNotice, "Review submitted successfully!");
            name := "";
            review := "";
            rating := 0;
          } else {
            message := Notice(ErrorNotice, FailureText(text));
          }
        case Threw =>
          message := Notice(ErrorNotice, "Something went wrong. Please try again.");
      }
      isSubmitting := false;
    }
  }
}
