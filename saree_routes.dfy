/** The catalog service: `POST /upload` builds a saree record from the media
    host's URLs and appends it to the store; `GET /category/:category` lists
    one category newest first, one page at a time. */
module SareeRoutes {
  import opened Base
  import opened Ordering

  /** Upload limits declared to the multipart middleware. */
  const MaxMainImages := 1
  const MaxThumbnails := 5

  /** Query defaults used when `limit` or `page` is missing, not a number or zero. */
  const DefaultLimit := 20
  const DefaultPage := 1

  datatype Saree = Saree(
    id: nat,
    name: string,
    description: string,
    imageUrl: Url,
    thumbnailImages: seq<Url>,
    category: string,
    uploadDate: int)

  function UploadDateOf(s: Saree): int { s.uploadDate }

  // ---------------------------------------------------------------------
  // GET /category/:category
  // ---------------------------------------------------------------------

  datatype ListResponse =
    | Found(sarees: seq<Saree>)
    | NotFound(message: string)
    | ListFailed(message: string)

  function ListStatus(r: ListResponse): int {
    match r
    case Found(_) => 200
    case NotFound(_) => 404
    case ListFailed(_) => 500
  }

  /** `parseInt(q) || d`: a query value that is absent, not a number
      (both `None`) or zero falls back to the default. */
  function OrDefault(parsed: Option<int>, default: int): int {
    if parsed.None? || parsed.value == 0 then default else parsed.value
  }

  function EffectiveLimit(limitParam: Option<int>): int { OrDefault(limitParam, DefaultLimit) }
  function EffectivePage(pageParam: Option<int>): int { OrDefault(pageParam, DefaultPage) }

  function Skip(limitParam: Option<int>, pageParam: Option<int>): int {
    (EffectivePage(pageParam) - 1) * EffectiveLimit(limitParam)
  }

  /** How many records the database returns for a limit: a negative limit
      asks for its absolute value. */
  function Take(limit: int): nat { if limit < 0 then -limit else limit }

  /** `find({category})`: the records of exactly that category, in store order. */
  function Matching(store: seq<Saree>, category: string): (r: seq<Saree>)
    ensures |r| <= |store|
    ensures forall x :: x in r <==> x in store && x.category == category
    ensures forall x :: multiset(r)[x] == if x.category == category then multiset(store)[x] else 0
  {
    if store == [] then []
    else
      var rest := Matching(store[1..], category);
      assert store == [store[0]] + store[1..];
      assert multiset(store) == multiset{store[0]} + multiset(store[1..]);
      if store[0].category == category then [store[0]] + rest else rest
  }

  /** `.sort({uploadDate: -1})` applied to the category's records. */
  function Newest(store: seq<Saree>, category: string): seq<Saree> {
    SortByDesc(Matching(store, category), UploadDateOf)
  }

  /** `.skip(skip).limit(take)` on an already ordered result. */
  function Window<T>(s: seq<T>, skip: nat, take: nat): (r: seq<T>)
    ensures |r| <= take
    ensures skip < |s| ==> |r| == if skip + take <= |s| then take else |s| - skip
    ensures skip >= |s| ==> r == []
    ensures forall i :: 0 <= i < |r| ==> skip + i < |s| && r[i] == s[skip + i]
  {
    var from := if skip <= |s| then skip else |s|;
    var to := if from + take <= |s| then from + take else |s|;
    s[from..to]
  }

  /** The whole `GET /category/:category` handler. A negative skip is refused
      by the database, which the handler reports as a server error. */
  function ListByCategory(store: seq<Saree>, category: string,
                          limitParam: Option<int>, pageParam: Option<int>): ListResponse
  {
    var skip := Skip(limitParam, pageParam);
    if skip < 0 then ListFailed("Error fetching sarees")
    else
      var page := Window(Newest(store, category), skip, Take(EffectiveLimit(limitParam)));
      if |page| == 0 then NotFound("No sarees found for category: " + category)
      else Found(page)
  }

  /** A missing, non-numeric or zero `limit` means 20, and a missing,
      non-numeric or zero `page` means 1; the skip is `(page-1)*limit`. */
  lemma QueryDefaults(limitParam: Option<int>, pageParam: Option<int>)
    ensures EffectiveLimit(limitParam) != 0 && EffectivePage(pageParam) != 0
    ensures (limitParam.None? || limitParam == Some(0)) ==> EffectiveLimit(limitParam) == 20
    ensures (pageParam.None? || pageParam == Some(0)) ==> EffectivePage(pageParam) == 1
    ensures (limitParam.Some? && limitParam.value != 0) ==> EffectiveLimit(limitParam) == limitParam.value
    ensures (pageParam.Some? && pageParam.value != 0) ==> EffectivePage(pageParam) == pageParam.value
    ensures Skip(limitParam, pageParam) == (EffectivePage(pageParam) - 1) * EffectiveLimit(limitParam)
    ensures Skip(None, None) == 0
  {
  }

  /** The listing is exactly the window `[skip, skip+limit)` of the category's
      records sorted newest first: never longer than the limit, never empty
      on success, and each entry belongs to the store and to the category. */
  lemma {:induction false} ListingIsSortedWindow(store: seq<Saree>, category: string,
                                                 limitParam: Option<int>, pageParam: Option<int>)
    ensures var r := ListByCategory(store, category, limitParam, pageParam);
            var skip := Skip(limitParam, pageParam);
            var sorted := Newest(store, category);
            && (r.ListFailed? <==> skip < 0)
            && (r.Found? ==>
                  && 1 <= |r.sarees| <= Take(EffectiveLimit(limitParam))
                  && r.sarees == Window(sorted, skip, Take(EffectiveLimit(limitParam)))
                  && SortedDesc(r.sarees, UploadDateOf)
                  && (forall i :: 0 <= i < |r.sarees| ==> r.sarees[i] == sorted[skip + i])
                  && (forall x :: x in r.sarees ==> x in store && x.category == category))
  {
    var r := ListByCategory(store, category, limitParam, pageParam);
    var skip := Skip(limitParam, pageParam);
    if r.Found? {
      var sorted := Newest(store, category);
      var take := Take(EffectiveLimit(limitParam));
      assert r.sarees == Window(sorted, skip, take);
      forall x | x in r.sarees ensures x in store && x.category == category {
        var i :| 0 <= i < |r.sarees| && r.sarees[i] == x;
        assert x in sorted;
        SortKeepsElements(Matching(store, category), UploadDateOf, x);
      }
    }
  }

  /** An empty window, whether from a category with no records or from a
      page past the end, is reported as 404 naming the category and never
      as a 200 with an empty list; a non-empty window is always a 200. */
  lemma {:induction false} EmptyWindowIsNotFound(store: seq<Saree>, category: string,
                                                 limitParam: Option<int>, pageParam: Option<int>)
    requires Skip(limitParam, pageParam) >= 0
    ensures var r := ListByCategory(store, category, limitParam, pageParam);
            && !(r.Found? && r.sarees == [])
            && (r.NotFound? <==> Skip(limitParam, pageParam) >= |Matching(store, category)|)
            && (r.NotFound? ==> ListStatus(r) == 404 && r.message == "No sarees found for category: " + category)
            && (r.Found? <==> ListStatus(r) == 200)
  {
    var skip := Skip(limitParam, pageParam);
    var sorted := Newest(store, category);
    var take := Take(EffectiveLimit(limitParam));
    assert take >= 1;
    assert |sorted| == |Matching(store, category)|;
    var w := Window(sorted, skip, take);
    assert skip < |sorted| ==> |w| >= 1;
  }

  /** A category with no records at all is reported as not found for
      every non-negative skip. */
  lemma UnknownCategoryIsNotFound(store: seq<Saree>, category: string,
                                  limitParam: Option<int>, pageParam: Option<int>)
    requires forall x :: x in store ==> x.category != category
    requires Skip(limitParam, pageParam) >= 0
    ensures ListByCategory(store, category, limitParam, pageParam).NotFound?
  {
    var m := Matching(store, category);
    assert forall i :: 0 <= i < |m| ==> m[i] in m;
    EmptyWindowIsNotFound(store, category, limitParam, pageParam);
  }

  /** Page 3 of a category with 10 records and the default limit of 20
      starts at record 40 and is therefore not found. */
  lemma PagePastTheEndIsNotFound(store: seq<Saree>, category: string)
    requires |Matching(store, category)| == 10
    ensures ListByCategory(store, category, None, Some(3)).NotFound?
  {
    assert Skip(None, Some(3)) == 40;
    EmptyWindowIsNotFound(store, category, None, Some(3));
  }

  // ---------------------------------------------------------------------
  // POST /upload
  // ---------------------------------------------------------------------

  datatype UploadBody = UploadBody(name: string, description: string, category: string, dateTime: string)

  /** The multipart request: the files under `image` and under
      `thumbnailImages` (an absent field is an empty sequence), and the
      text fields. */
  datatype UploadRequest = UploadRequest(images: seq<File>, thumbnails: seq<File>, body: UploadBody)

  /** One call to the media host and what it returned. */
  datatype MediaUpload = MediaUpload(file: File, result: Option<Url>)

  datatype UploadResponse =
    | Uploaded(saree: Saree)
    | TooManyFiles
    | MissingImage
    | UploadFailed

  function UploadStatus(r: UploadResponse): int {
    match r
    case Uploaded(_) => 200
    case TooManyFiles => 500
    case MissingImage => 400
    case UploadFailed => 500
  }

  /** The `message` of the JSON answer. Too many files never reaches the
      handler: the multipart middleware raises a `LIMIT_UNEXPECTED_FILE`
      error whose message is given here, and Express's default error
      handler answers it with an HTML error page, not with JSON. */
  function UploadMessage(r: UploadResponse): string {
    match r
    case Uploaded(_) => "Saree uploaded successfully"
    case TooManyFiles => "Unexpected field"
    case MissingImage => "Main image is required."
    case UploadFailed => "Error uploading saree"
  }

  /** `Promise.all(files.map(upload))` followed by `.map(r => r.secure_url)`:
      every URL in submission order, or nothing if any upload failed. */
  function UploadAll(host: File -> Option<Url>, files: seq<File>): (r: Option<seq<Url>>)
    ensures r.Some? <==> forall i :: 0 <= i < |files| ==> host(files[i]).Some?
    ensures r.Some? ==> |r.value| == |files|
    ensures r.Some? ==> forall i :: 0 <= i < |files| ==> host(files[i]) == Some(r.value[i])
  {
    if files == [] then Some([])
    else
      var first := host(files[0]);
      var rest := UploadAll(host, files[1..]);
      if first.None? || rest.None? then
        assert first.None? ==> !host(files[0]).Some?;
        assert rest.None? ==> exists i :: 1 <= i < |files| && host(files[i]).None? by {
          if rest.None? {
            var j :| 0 <= j < |files[1..]| && host(files[1..][j]).None?;
            assert host(files[j + 1]).None?;
          }
        }
        None
      else
        var urls := [first.value] + rest.value;
        assert forall i :: 1 <= i < |files| ==> host(files[i]) == host(files[1..][i - 1]);
        Some(urls)
  }

  /** The media-host calls made for the thumbnails, in submission order;
      all of them are started even when one fails. */
  function Attempts(host: File -> Option<Url>, files: seq<File>): (log: seq<MediaUpload>)
    ensures |log| == |files|
    ensures forall i :: 0 <= i < |files| ==> log[i] == MediaUpload(files[i], host(files[i]))
  {
    seq(|files|, i requires 0 <= i < |files| => MediaUpload(files[i], host(files[i])))
  }

  /** The media-host calls the handler makes, in order: none when the file
      limits are exceeded or the main image is missing; otherwise the main
      image, then (only if it succeeded) every thumbnail. */
  function MediaCalls(req: UploadRequest, host: File -> Option<Url>): seq<MediaUpload> {
    if |req.images| > MaxMainImages || |req.thumbnails| > MaxThumbnails || |req.images| == 0 then []
    else
      var main := host(req.images[0]);
      [MediaUpload(req.images[0], main)] + (if main.Some? then Attempts(host, req.thumbnails) else [])
  }

  /** What the `POST /upload` handler answers, for a record that would get
      id `id` and a server clock reading `now`. */
  function HandleUpload(req: UploadRequest, host: File -> Option<Url>, id: nat, now: int, saveOk: bool)
    : UploadResponse
  {
    if |req.images| > MaxMainImages || |req.thumbnails| > MaxThumbnails then TooManyFiles
    else if |req.images| == 0 then MissingImage
    else
      var main := host(req.images[0]);
      if main.None? then UploadFailed
      else
        var thumbs := UploadAll(host, req.thumbnails);
        if thumbs.None? then UploadFailed
        else if !saveOk then UploadFailed
        else Uploaded(Saree(id, req.body.name, req.body.description, main.value, thumbs.value,
                            req.body.category, now))
  }

  /** A request without a main image is answered 400 "Main image is
      required." and calls the media host not at all. */
  lemma MissingImageIsRejected(req: UploadRequest, host: File -> Option<Url>, id: nat, now: int, saveOk: bool)
    requires |req.images| == 0 && |req.thumbnails| <= MaxThumbnails
    ensures var r := HandleUpload(req, host, id, now, saveOk);
            UploadStatus(r) == 400 && UploadMessage(r) == "Main image is required."
    ensures MediaCalls(req, host) == []
  {
  }

  /** A record is created exactly when the file limits hold, the main image
      and every thumbnail upload succeed, and the save succeeds. The record
      holds the main image's URL, the thumbnails' URLs in submission order
      (none when none were sent), the submitted text fields and the server's
      clock; the client's `dateTime` plays no part. Any failure is a 500. */
  lemma {:induction false} UploadBuildsRecord(req: UploadRequest, host: File -> Option<Url>,
                                              id: nat, now: int, saveOk: bool)
    ensures var r := HandleUpload(req, host, id, now, saveOk);
            && (r.Uploaded? <==>
                  && |req.images| == 1 && |req.thumbnails| <= MaxThumbnails
                  && host(req.images[0]).Some?
                  && (forall i :: 0 <= i < |req.thumbnails| ==> host(req.thumbnails[i]).Some?)
                  && saveOk)
            && (r.Uploaded? ==>
                  && UploadStatus(r) == 200
                  && Some(r.saree.imageUrl) == host(req.images[0])
                  && |r.saree.thumbnailImages| == |req.thumbnails| <= MaxThumbnails
                  && (forall i :: 0 <= i < |req.thumbnails| ==>
                        Some(r.saree.thumbnailImages[i]) == host(req.thumbnails[i]))
                  && r.saree.id == id && r.saree.uploadDate == now
                  && r.saree.name == req.body.name && r.saree.description == req.body.description
                  && r.saree.category == req.body.category
                  && (forall t :: HandleUpload(req.(body := req.body.(dateTime := t)), host, id, now, saveOk) == r))
            && (!r.Uploaded? && |req.images| != 0 ==> UploadStatus(r) == 500)
  {
    var r := HandleUpload(req, host, id, now, saveOk);
    if |req.images| == 1 && |req.thumbnails| <= MaxThumbnails && host(req.images[0]).Some? {
      var thumbs := UploadAll(host, req.thumbnails);
      assert thumbs.Some? <==> forall i :: 0 <= i < |req.thumbnails| ==> host(req.thumbnails[i]).Some?;
    }
  }

  /** When any thumbnail upload fails, the save is never reached: the answer
      is a 500 however the database would have behaved, so nothing is stored. */
  lemma {:induction false} FailedThumbnailStoresNothing(req: UploadRequest, host: File -> Option<Url>,
                                                        k: nat, id: nat, now: int, saveOk: bool)
    requires |req.images| == 1 && |req.thumbnails| <= MaxThumbnails
    requires k < |req.thumbnails| && host(req.thumbnails[k]).None?
    ensures HandleUpload(req, host, id, now, saveOk) == UploadFailed
  {
    UploadBuildsRecord(req, host, id, now, saveOk);
  }

  /** Every URL the media host has handed out so far. */
  ghost function HostedUrls(log: seq<MediaUpload>): set<Url> {
    set i | 0 <= i < |log| && log[i].result.Some? :: log[i].result.value
  }

  lemma HostedGrows(log: seq<MediaUpload>, more: seq<MediaUpload>)
    ensures HostedUrls(log) <= HostedUrls(log + more)
    ensures forall i :: 0 <= i < |more| && more[i].result.Some? ==> more[i].result.value in HostedUrls(log + more)
  {
    forall u | u in HostedUrls(log) ensures u in HostedUrls(log + more) {
      var i :| 0 <= i < |log| && log[i].result.Some? && log[i].result.value == u;
      assert (log + more)[i] == log[i];
    }
    forall i | 0 <= i < |more| && more[i].result.Some?
      ensures more[i].result.value in HostedUrls(log + more)
    {
      assert (log + more)[|log| + i] == more[i];
    }
  }

  /** When the main image uploads but a thumbnail fails, the request is
      refused with a 500 and no record is built, yet every upload the media
      host accepted during the call, the main image and each thumbnail that
      went through, is in the log after it: those assets stay on the host
      with nothing referring to them. */
  lemma {:induction false} FailedThumbnailLeavesUploads(log: seq<MediaUpload>, req: UploadRequest,
                                                        host: File -> Option<Url>, k: nat,
                                                        id: nat, now: int, saveOk: bool)
    requires |req.images| == 1 && |req.thumbnails| <= MaxThumbnails
    requires host(req.images[0]).Some?
    requires k < |req.thumbnails| && host(req.thumbnails[k]).None?
    ensures HandleUpload(req, host, id, now, saveOk) == UploadFailed
    ensures |MediaCalls(req, host)| == 1 + |req.thumbnails|
    ensures host(req.images[0]).value in HostedUrls(log + MediaCalls(req, host))
    ensures forall j :: 0 <= j < |req.thumbnails| && host(req.thumbnails[j]).Some? ==>
              host(req.thumbnails[j]).value in HostedUrls(log + MediaCalls(req, host))
  {
    FailedThumbnailStoresNothing(req, host, k, id, now, saveOk);
    var calls := MediaCalls(req, host);
    HostedGrows(log, calls);
    assert calls[0] == MediaUpload(req.images[0], host(req.images[0]));
    forall j | 0 <= j < |req.thumbnails| && host(req.thumbnails[j]).Some?
      ensures host(req.thumbnails[j]).value in HostedUrls(log + calls)
    {
      assert calls[1 + j] == MediaUpload(req.thumbnails[j], host(req.thumbnails[j]));
    }
  }

  /** Every image URL of the records is in `urls`. */
  ghost predicate UrlsHosted(sarees: seq<Saree>, urls: set<Url>) {
    forall i :: 0 <= i < |sarees| ==>
      sarees[i].imageUrl in urls && forall k :: 0 <= k < |sarees[i].thumbnailImages| ==> sarees[i].thumbnailImages[k] in urls
  }

  /** Ids below `nextId`, pairwise distinct, and at most five thumbnails each. */
  ghost predicate WellFormed(sarees: seq<Saree>, nextId: nat) {
    && (forall i :: 0 <= i < |sarees| ==> sarees[i].id < nextId)
    && (forall i, j :: 0 <= i < j < |sarees| ==> sarees[i].id != sarees[j].id)
    && (forall i :: 0 <= i < |sarees| ==> |sarees[i].thumbnailImages| <= MaxThumbnails)
  }

  /** The store is well formed and refers only to URLs in the media log. */
  ghost predicate StoreOk(sarees: seq<Saree>, nextId: nat, log: seq<MediaUpload>) {
    WellFormed(sarees, nextId) && UrlsHosted(sarees, HostedUrls(log))
  }

  /** Media-host calls that create no record keep the store as it was. */
  lemma CallsKeepStore(sarees: seq<Saree>, nextId: nat, log: seq<MediaUpload>, more: seq<MediaUpload>)
    requires StoreOk(sarees, nextId, log)
    ensures StoreOk(sarees, nextId, log + more)
  {
    HostedGrows(log, more);
  }

  /** The records created by the handler keep the store well formed and
      refer only to URLs the media host returned during the same call. */
  lemma {:induction false} CreatedRecordFits(sarees: seq<Saree>, nextId: nat, log: seq<MediaUpload>,
                                             req: UploadRequest, host: File -> Option<Url>, now: int)
    requires StoreOk(sarees, nextId, log)
    requires HandleUpload(req, host, nextId, now, true).Uploaded?
    ensures var saree := HandleUpload(req, host, nextId, now, true).saree;
            && WellFormed(sarees + [saree], nextId + 1)
            && UrlsHosted(sarees + [saree], HostedUrls(log + MediaCalls(req, host)))
            && StoreOk(sarees + [saree], nextId + 1, log + MediaCalls(req, host))
            && UrlsHosted([saree], HostedUrls(MediaCalls(req, host)))
  {
    var saree := HandleUpload(req, host, nextId, now, true).saree;
    var calls := MediaCalls(req, host);
    var log' := log + calls;
    UploadBuildsRecord(req, host, nextId, now, true);
    HostedGrows(log, calls);
    HostedGrows([], calls);
    assert [] + calls == calls;
    assert calls[0] == MediaUpload(req.images[0], host(req.images[0]));
    assert saree.imageUrl in HostedUrls(log') && saree.imageUrl in HostedUrls(calls);
    forall k | 0 <= k < |saree.thumbnailImages|
      ensures saree.thumbnailImages[k] in HostedUrls(log') && saree.thumbnailImages[k] in HostedUrls(calls)
    {
      assert calls[1 + k] == MediaUpload(req.thumbnails[k], host(req.thumbnails[k]));
    }
  }

  /** The document store's `sarees` collection and the log of calls made to
      the media host. */
  class Catalog {
    var sarees: seq<Saree>
    var nextId: nat
    var mediaLog: seq<MediaUpload>

    /** Ids are fresh and distinct, no saree has more than five thumbnails,
        and every stored URL was returned by the media host. */
    ghost predicate Valid()
      reads this
    {
      StoreOk(sarees, nextId, mediaLog)
    }

    constructor ()
      ensures Valid() && sarees == [] && nextId == 0 && mediaLog == []
    {
      sarees, nextId, mediaLog := [], 0, [];
    }

    /** The `POST /upload` handler. `host` is the media host, `now` the
        server clock and `saveOk` whether the database accepts the record.
        The record is appended only when the whole call succeeds; the media
        host calls are logged whatever happens after them. */
    method Upload(req: UploadRequest, host: File -> Option<Url>, now: int, saveOk: bool)
      returns (resp: UploadResponse)
      requires Valid()
      modifies this
      ensures Valid()
      ensures resp == HandleUpload(req, host, old(nextId), now, saveOk)
      ensures mediaLog == old(mediaLog) + MediaCalls(req, host)
      ensures sarees == if resp.Uploaded? then old(sarees) + [resp.saree] else old(sarees)
      ensures nextId == if resp.Uploaded? then old(nextId) + 1 else old(nextId)
    {
      if |req.images| > MaxMainImages || |req.thumbnails| > MaxThumbnails {
        return TooManyFiles;
      }
      if |req.images| == 0 {
        return MissingImage;
      }
      ghost var log0 := mediaLog;
      var mainFile := req.images[0];
      var main := host(mainFile);
      mediaLog := mediaLog + [MediaUpload(mainFile, main)];
      CallsKeepStore(sarees, nextId, log0, [MediaUpload(mainFile, main)]);
      if main.None? {
        return UploadFailed;
      }
      var thumbnailUrls: seq<Url> := [];
      assert MediaCalls(req, host) == [MediaUpload(mainFile, main)] + Attempts(host, req.thumbnails);
      mediaLog := mediaLog + Attempts(host, req.thumbnails);
      assert mediaLog == log0 + MediaCalls(req, host);
      CallsKeepStore(sarees, nextId, log0, MediaCalls(req, host));
      if |req.thumbnails| > 0 {
        var results := UploadAll(host, req.thumbnails);
        if results.None? {
          return UploadFailed;
        }
        thumbnailUrls := results.value;
      }
      var saree := Saree(nextId, req.body.name, req.body.description, main.value,
                         thumbnailUrls, req.body.category, now);
      if !saveOk {
        return UploadFailed;
      }
      assert HandleUpload(req, host, nextId, now, saveOk) == Uploaded(saree);
      CreatedRecordFits(sarees, nextId, log0, req, host, now);
      sarees := sarees + [saree];
      nextId := nextId + 1;
      resp := Uploaded(saree);
    }
  }
}
