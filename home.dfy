/** The home page's banner carousel: previous/next with wrap-around, swipe
    and arrow-key dispatch, and the indicator dots. */
module Home {
  import CottonPage

  /** The five banners. */
  const BannerCount := 5

  /** Horizontal distance, in CSS pixels, a swipe must exceed to change the
      banner. Touch coordinates are fractional, so they are `real`. */
  const SwipeThreshold: real := 50.0

  /** `handlePrev`. */
  function PrevBanner(i: int): int {
    if i == 0 then BannerCount - 1 else i - 1
  }

  /** `handleNext`. */
  function NextBanner(i: int): int {
    if i == BannerCount - 1 then 0 else i + 1
  }

  /** Both moves keep the index on a banner and undo each other, and they
      agree with the modular arithmetic of the category carousels. */
  lemma BannerMoves(i: int)
    requires 0 <= i < BannerCount
    ensures 0 <= NextBanner(i) < BannerCount && 0 <= PrevBanner(i) < BannerCount
    ensures PrevBanner(NextBanner(i)) == i && NextBanner(PrevBanner(i)) == i
    ensures NextBanner(i) == CottonPage.NextSlideIndex(i, BannerCount)
    ensures PrevBanner(i) == CottonPage.PrevSlideIndex(i, BannerCount)
  {
    CottonPage.SlideArithmetic(i, BannerCount);
  }

  /** The index after `k` calls of `handleNext`, as the auto-slide timer
      makes them. */
  function AdvanceBy(i: int, k: nat): int {
    if k == 0 then i else NextBanner(AdvanceBy(i, k - 1))
  }

  /** `k` steps forward land on `(i + k) mod 5`; five steps return to the
      starting banner. */
  lemma {:induction false} AdvanceIsModular(i: int, k: nat)
    requires 0 <= i < BannerCount
    ensures AdvanceBy(i, k) == (i + k) % BannerCount
  {
    if k > 0 {
      AdvanceIsModular(i, k - 1);
      var j := (i + k - 1) % BannerCount;
      assert AdvanceBy(i, k) == NextBanner(j);
      assert (i + k) % BannerCount == (j + 1) % BannerCount;
    }
  }

  datatype Move = Stay | Forward | Back

  /** `handleSwipe`: a leftward swipe of more than 50 pixels goes forward,
      a rightward one goes back, anything shorter does nothing. */
  function SwipeMove(startX: real, endX: real): Move {
    var diff := startX - endX;
    if diff > SwipeThreshold then Forward
    else if diff < -SwipeThreshold then Back
    else Stay
  }

  /** `handleKeyDown`: the two arrow keys move; every other key is ignored. */
  function KeyMove(key: string): Move {
    if key == "ArrowLeft" then Back
    else if key == "ArrowRight" then Forward
    else Stay
  }

  /** The button handler a move stands for. */
  function Apply(m: Move, i: int): int {
    match m
    case Stay => i
    case Forward => NextBanner(i)
    case Back => PrevBanner(i)
  }

  /** Swipes and keys act exactly as the buttons do, or not at all. */
  lemma DispatchMatchesButtons(startX: real, endX: real, key: string, i: int)
    ensures startX - endX > 50.0 ==> Apply(SwipeMove(startX, endX), i) == NextBanner(i)
    ensures startX - endX < -50.0 ==> Apply(SwipeMove(startX, endX), i) == PrevBanner(i)
    ensures -50.0 <= startX - endX <= 50.0 ==> Apply(SwipeMove(startX, endX), i) == i
    ensures key == "ArrowLeft" ==> Apply(KeyMove(key), i) == PrevBanner(i)
    ensures key == "ArrowRight" ==> Apply(KeyMove(key), i) == NextBanner(i)
    ensures key != "ArrowLeft" && key != "ArrowRight" ==> Apply(KeyMove(key), i) == i
  {
  }

  class BannerCarousel {
    var currentIndex: int
    var touchStartX: real
    var touchEndX: real

    ghost predicate Valid()
      reads this
    {
      0 <= currentIndex < BannerCount
    }

    constructor ()
      ensures Valid() && currentIndex == 0 && touchStartX == 0.0 && touchEndX == 0.0
    {
      currentIndex, touchStartX, touchEndX := 0, 0.0, 0.0;
    }

    method Prev()
      requires Valid()
      modifies this`currentIndex
      ensures Valid() && currentIndex == PrevBanner(old(currentIndex))
    {
      currentIndex := PrevBanner(currentIndex);
    }

    method Next()
      requires Valid()
      modifies this`currentIndex
      ensures Valid() && currentIndex == NextBanner(old(currentIndex))
    {
      currentIndex := NextBanner(currentIndex);
    }

    method KeyDown(key: string)
      requires Valid()
      modifies this`currentIndex
      ensures Valid() && currentIndex == Apply(KeyMove(key), old(currentIndex))
    {
      if key == "ArrowLeft" { Prev(); }
      if key == "ArrowRight" { Next(); }
    }

    method TouchStart(x: real)
      modifies this`touchStartX
      ensures touchStartX == x
    {
      touchStartX := x;
    }

    /** `handleTouchEnd`: records the end point, then `handleSwipe`. */
    method TouchEnd(x: real)
      requires Valid()
      modifies this`touchEndX, this`currentIndex
      ensures Valid() && touchEndX == x
      ensures currentIndex == Apply(SwipeMove(touchStartX, x), old(currentIndex))
    {
      touchEndX := x;
      var diff := touchStartX - touchEndX;
      if diff > SwipeThreshold {
        Next();
      } else if diff < -SwipeThreshold {
        Prev();
      }
    }

    /** The indicator dot of banner `k`. */
    method SelectIndicator(k: int)
      requires 0 <= k < BannerCount
      modifies this`currentIndex
      ensures Valid() && currentIndex == k
    {
      currentIndex := k;
    }
  }
}
