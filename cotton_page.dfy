/** The Cotton category page: it fetches the category listing, shows it in
    reverse order, and keeps one carousel position per saree in a map from
    saree id to slide index. */
module CottonPage {
  import opened Base
  import opened Ordering
  import opened SareeRoutes

  const Category := "Cotton"
  const FetchErrorText := "No Sarees Uploaded Yet!"

  // ---------------------------------------------------------------------
  // Carousel arithmetic
  // ---------------------------------------------------------------------

  /** JavaScript's `%` for a positive divisor: the remainder takes the sign
      of the dividend. */
  function JsRem(a: int, n: int): int
    requires n > 0
  {
    if a >= 0 then a % n else -((-a) % n)
  }

  /** `nextSlide`: `(i + 1) % maxSlides`. */
  function NextSlideIndex(i: int, maxSlides: int): int
    requires maxSlides > 0
  {
    JsRem(i + 1, maxSlides)
  }

  /** `prevSlide`: `(i - 1 + maxSlides) % maxSlides`. */
  function PrevSlideIndex(i: int, maxSlides: int): int
    requires maxSlides > 0
  {
    JsRem(i - 1 + maxSlides, maxSlides)
  }

  lemma RemSmall(a: int, n: int)
    requires 0 <= a < n
    ensures JsRem(a, n) == a
  {
  }

  lemma RemWrap(a: int, n: int)
    requires 0 < n <= a < 2 * n
    ensures JsRem(a, n) == a - n
  {
  }

  /** One step forward or backward from a position inside the carousel
      stays inside it and wraps around at the ends. */
  lemma SlideStep(i: int, n: int)
    requires 0 <= i < n
    ensures NextSlideIndex(i, n) == if i == n - 1 then 0 else i + 1
    ensures PrevSlideIndex(i, n) == if i == 0 then n - 1 else i - 1
  {
    if i == n - 1 { RemWrap(i + 1, n); } else { RemSmall(i + 1, n); }
    if i == 0 { RemSmall(n - 1, n); } else { RemWrap(i - 1 + n, n); }
  }

  /** For a position inside the carousel, next and previous stay inside it,
      wrap around at the ends, and undo each other. */
  lemma SlideArithmetic(i: int, n: int)
    requires 0 <= i < n
    ensures 0 <= NextSlideIndex(i, n) < n && 0 <= PrevSlideIndex(i, n) < n
    ensures NextSlideIndex(i, n) == if i == n - 1 then 0 else i + 1
    ensures PrevSlideIndex(i, n) == if i == 0 then n - 1 else i - 1
    ensures PrevSlideIndex(NextSlideIndex(i, n), n) == i
    ensures NextSlideIndex(PrevSlideIndex(i, n), n) == i
  {
    SlideStep(i, n);
    SlideStep(NextSlideIndex(i, n), n);
    SlideStep(PrevSlideIndex(i, n), n);
  }

  // ---------------------------------------------------------------------
  // Cards
  // ---------------------------------------------------------------------

  /** `[saree.imageUrl, ...saree.thumbnailImages]`. */
  function AllImages(s: Saree): seq<Url> { [s.imageUrl] + s.thumbnailImages }

  /** Prev, next and the indicators are drawn only for more than one image. */
  predicate ShowsControls(s: Saree) { |AllImages(s)| > 1 }

  lemma CardImages(s: Saree)
    ensures |AllImages(s)| >= 1 && AllImages(s)[0] == s.imageUrl
    ensures AllImages(s)[1..] == s.thumbnailImages
    ensures ShowsControls(s) <==> |s.thumbnailImages| > 0
  {
  }

  /** `activeSlides[id] || 0`: a saree without an entry shows slide 0. */
  function CurrentSlide(slides: map<nat, int>, id: nat): int {
    if id in slides then slides[id] else 0
  }

  /** Every card has a slide entry, inside its carousel. */
  predicate SlidesCover(sarees: seq<Saree>, slides: map<nat, int>) {
    forall i :: 0 <= i < |sarees| ==>
      sarees[i].id in slides && 0 <= slides[sarees[i].id] < |AllImages(sarees[i])|
  }

  /** Every slide entry a card has lies inside its carousel; a card may
      have no entry. */
  predicate SlidesInRange(sarees: seq<Saree>, slides: map<nat, int>) {
    forall i :: 0 <= i < |sarees| && sarees[i].id in slides ==>
      0 <= slides[sarees[i].id] < |AllImages(sarees[i])|
  }

  /** Each card shows one of its own images: through its entry when it has
      one, and through slide 0, its main image, when it has none. */
  lemma {:induction false} CardShowsOwnImage(sarees: seq<Saree>, slides: map<nat, int>)
    requires SlidesInRange(sarees, slides)
    ensures forall k :: 0 <= k < |sarees| ==>
              0 <= CurrentSlide(slides, sarees[k].id) < |AllImages(sarees[k])|
    ensures forall k :: 0 <= k < |sarees| && sarees[k].id !in slides ==>
              AllImages(sarees[k])[CurrentSlide(slides, sarees[k].id)] == sarees[k].imageUrl
  {
    forall k | 0 <= k < |sarees| && sarees[k].id !in slides
      ensures 0 <= CurrentSlide(slides, sarees[k].id) < |AllImages(sarees[k])|
      ensures AllImages(sarees[k])[CurrentSlide(slides, sarees[k].id)] == sarees[k].imageUrl
    {
      assert AllImages(sarees[k])[0] == sarees[k].imageUrl;
    }
  }

  function Reverse<T>(s: seq<T>): (r: seq<T>)
    ensures |r| == |s|
    ensures forall i :: 0 <= i < |s| ==> r[i] == s[|s| - 1 - i]
  {
    if s == [] then [] else [s[|s| - 1]] + Reverse(s[..|s| - 1])
  }

  predicate DistinctIds(s: seq<Saree>) {
    forall i, j :: 0 <= i < j < |s| ==> s[i].id != s[j].id
  }

  function IdsOf(s: seq<Saree>): set<nat> {
    set x | x in s :: x.id
  }

  /** The `forEach` that gives every fetched saree slide 0. */
  method InitialSlides(data: seq<Saree>) returns (slides: map<nat, int>)
    ensures slides.Keys == IdsOf(data)
    ensures forall id :: id in slides ==> slides[id] == 0
  {
    slides := map[];
    var i := 0;
    while i < |data|
      invariant 0 <= i <= |data|
      invariant slides.Keys == IdsOf(data[..i])
      invariant forall id :: id in slides ==> slides[id] == 0
    {
      assert data[..i + 1] == data[..i] + [data[i]];
      assert IdsOf(data[..i + 1]) == IdsOf(data[..i]) + {data[i].id};
      slides := slides[data[i].id := 0];
      i := i + 1;
    }
    assert data[..i] == data;
  }

  // ---------------------------------------------------------------------
  // The page
  // ---------------------------------------------------------------------

  /** What the page's request returns: the list on a 2xx answer; any other
      answer (the 404 of an empty category included) or a network failure
      rejects. */
  datatype FetchResult = Fetched(data: seq<Saree>) | FetchFailed

  function FetchOf(r: ListResponse): FetchResult {
    if r.Found? then Fetched(r.sarees) else FetchFailed
  }

  /** A list sorted newest first, reversed, is sorted oldest first. */
  lemma ReversedDescIsAsc(s: seq<Saree>)
    requires SortedDesc(s, UploadDateOf)
    ensures forall i, j :: 0 <= i < j < |s| ==> Reverse(s)[i].uploadDate <= Reverse(s)[j].uploadDate
  {
    var r := Reverse(s);
    forall i, j | 0 <= i < j < |s| ensures r[i].uploadDate <= r[j].uploadDate {
      assert UploadDateOf(s[|s| - 1 - j]) >= UploadDateOf(s[|s| - 1 - i]);
    }
  }

  lemma ReverseKeepsElements<T>(s: seq<T>)
    ensures forall x :: x in Reverse(s) <==> x in s
  {
    var r := Reverse(s);
    forall x ensures x in r <==> x in s {
      if x in r {
        var k :| 0 <= k < |r| && r[k] == x;
        assert s[|s| - 1 - k] == x;
      }
      if x in s {
        var k :| 0 <= k < |s| && s[k] == x;
        assert r[|s| - 1 - k] == x;
      }
    }
  }

  /** The page asks for the category without `limit` or `page`, so it gets
      at most the 20 newest cotton sarees, or a failure exactly when there
      is no cotton saree; reversed, they are shown oldest first. */
  lemma {:induction false} PageShowsOldestOfNewestTwenty(store: seq<Saree>)
    ensures var f := FetchOf(ListByCategory(store, Category, None, None));
            && (f.FetchFailed? <==> |Matching(store, Category)| == 0)
            && (f.Fetched? ==>
                  var shown := Reverse(f.data);
                  var n := |Matching(store, Category)|;
                  && shown == Reverse(Window(Newest(store, Category), 0, DefaultLimit))
                  && |shown| == (if n < DefaultLimit then n else DefaultLimit)
                  && 1 <= |shown| <= DefaultLimit
                  && (forall i, j :: 0 <= i < j < |shown| ==> shown[i].uploadDate <= shown[j].uploadDate)
                  && (forall x :: x in shown ==> x in store && x.category == Category))
  {
    var r := ListByCategory(store, Category, None, None);
    assert Skip(None, None) == 0 && Take(EffectiveLimit(None)) == DefaultLimit;
    ListingIsSortedWindow(store, Category, None, None);
    EmptyWindowIsNotFound(store, Category, None, None);
    if r.Found? {
      assert |Newest(store, Category)| == |Matching(store, Category)|;
      ReversedDescIsAsc(r.sarees);
      ReverseKeepsElements(r.sarees);
    }
  }

  class CottonGallery {
    var sarees: seq<Saree>
    var error: Option<string>
    var activeSlides: map<nat, int>

    /** Every card has a slide entry, inside its carousel. */
    ghost predicate Valid()
      reads this
    {
      DistinctIds(sarees) && SlidesCover(sarees, activeSlides)
    }

    constructor ()
      ensures Valid() && sarees == [] && error == None && activeSlides == map[]
    {
      sarees, error, activeSlides := [], None, map[];
    }

    /** The fetch effect. The server's ids are unique, so the fetched list
        has distinct ids. */
    method Load(result: FetchResult)
      requires Valid()
      requires result.Fetched? ==> DistinctIds(result.data)
      modifies this
      ensures Valid()
      ensures result.Fetched? ==>
                && sarees == Reverse(result.data)
                && activeSlides.Keys == IdsOf(result.data)
                && (forall id :: id in activeSlides ==> activeSlides[id] == 0)
                && error == old(error)
      ensures result.FetchFailed? ==>
                sarees == old(sarees) && activeSlides == old(activeSlides) && error == Some(FetchErrorText)
    {
      match result {
        case Fetched(data) =>
          sarees := Reverse(data);
          var initial := InitialSlides(data);
          activeSlides := initial;
          forall i | 0 <= i < |sarees|
            ensures sarees[i].id in activeSlides && 0 <= activeSlides[sarees[i].id] < |AllImages(sarees[i])|
          {
            assert sarees[i] == data[|data| - 1 - i];
            assert sarees[i].id in IdsOf(data);
          }
          forall i, j | 0 <= i < j < |sarees| ensures sarees[i].id != sarees[j].id {
            assert sarees[i] == data[|data| - 1 - i] && sarees[j] == data[|data| - 1 - j];
          }
        case FetchFailed =>
          error := Some(FetchErrorText);
      }
    }

    /** The next button of card `card`. */
    method NextSlide(card: nat)
      requires Valid() && card < |sarees|
      modifies this`activeSlides
      ensures Valid()
      ensures var id := sarees[card].id;
              activeSlides == old(activeSlides)[id := NextSlideIndex(old(activeSlides)[id], |AllImages(sarees[card])|)]
      ensures forall id :: id in old(activeSlides) && id != sarees[card].id ==>
                id in activeSlides && activeSlides[id] == old(activeSlides)[id]
    {
      var id, maxSlides := sarees[card].id, |AllImages(sarees[card])|;
      SlideArithmetic(activeSlides[id], maxSlides);
      activeSlides := activeSlides[id := NextSlideIndex(activeSlides[id], maxSlides)];
    }

    /** The previous button of card `card`. */
    method PrevSlide(card: nat)
      requires Valid() && card < |sarees|
      modifies this`activeSlides
      ensures Valid()
      ensures var id := sarees[card].id;
              activeSlides == old(activeSlides)[id := PrevSlideIndex(old(activeSlides)[id], |AllImages(sarees[card])|)]
      ensures forall id :: id in old(activeSlides) && id != sarees[card].id ==>
                id in activeSlides && activeSlides[id] == old(activeSlides)[id]
    {
      var id, maxSlides := sarees[card].id, |AllImages(sarees[card])|;
      SlideArithmetic(activeSlides[id], maxSlides);
      activeSlides := activeSlides[id := PrevSlideIndex(activeSlides[id], maxSlides)];
    }

    /** Indicator `slideIndex` of card `card`. */
    method GoToSlide(card: nat, slideIndex: nat)
      requires Valid() && card < |sarees| && slideIndex < |AllImages(sarees[card])|
      modifies this`activeSlides
      ensures Valid()
      ensures activeSlides == old(activeSlides)[sarees[card].id := slideIndex]
      ensures forall id :: id in old(activeSlides) && id != sarees[card].id ==>
                id in activeSlides && activeSlides[id] == old(activeSlides)[id]
    {
      activeSlides := activeSlides[sarees[card].id := slideIndex];
    }
  }
}
