/** The admin upload page: a dropped or chosen picture is converted to WebP
    under a `.webp` name, the form checks its fields before sending, and the
    upload-progress callback resets the form once the progress reaches 100. */
module AdminUpload {
  import opened Base
  import opened SareeRoutes

  // ---------------------------------------------------------------------
  // The `.webp` file name
  // ---------------------------------------------------------------------

  /** A character that may appear in a final extension: `[^/.]`. */
  predicate InExtension(c: char) { c != '.' && c != '/' }

  /** The length of the longest suffix made only of extension characters. */
  function TrailLength(s: string): (n: nat)
    ensures n <= |s|
    ensures forall j :: |s| - n <= j < |s| ==> InExtension(s[j])
    ensures n < |s| ==> !InExtension(s[|s| - n - 1])
  {
    if s == [] || !InExtension(s[|s| - 1]) then 0
    else
      var n := TrailLength(s[..|s| - 1]);
      assert forall j :: |s| - 1 - n <= j < |s| - 1 ==> s[j] == s[..|s| - 1][j];
      n + 1
  }

  /** `s` matches `\.[^/.]+$` starting at index `i`: a dot, followed by one
      or more characters up to the end, none of them a dot or a slash. */
  predicate ExtensionAt(s: string, i: int) {
    && 0 <= i < |s| - 1
    && s[i] == '.'
    && forall j :: i < j < |s| ==> InExtension(s[j])
  }

  /** `name.replace(/\.[^/.]+$/, '')`. */
  function StripExtension(s: string): string {
    var n := TrailLength(s);
    if 0 < n < |s| && s[|s| - n - 1] == '.' then s[..|s| - n - 1] else s
  }

  /** The regular expression matches at most once, and the stripped name
      is the name cut at the match when there is one and the whole name
      when there is none. */
  lemma {:induction false} StripExtensionMatchesPattern(s: string)
    ensures forall i, k :: ExtensionAt(s, i) && ExtensionAt(s, k) ==> i == k
    ensures forall i :: ExtensionAt(s, i) ==> StripExtension(s) == s[..i]
    ensures (forall i :: !ExtensionAt(s, i)) ==> StripExtension(s) == s
  {
    var n := TrailLength(s);
    forall i | ExtensionAt(s, i) ensures i == |s| - n - 1 {
    }
    if 0 < n < |s| && s[|s| - n - 1] == '.' {
      assert ExtensionAt(s, |s| - n - 1);
    }
  }

  /** The name of the converted file. */
  function WebpName(s: string): string { StripExtension(s) + ".webp" }

  predicate EndsWithWebp(s: string) { |s| >= 5 && s[|s| - 5..] == ".webp" }

  /** Every converted name ends in `.webp`, and converting an already
      converted name changes nothing. */
  lemma {:induction false} WebpNameIsStable(s: string)
    ensures EndsWithWebp(WebpName(s))
    ensures WebpName(WebpName(s)) == WebpName(s)
  {
    var t := StripExtension(s);
    var w := t + ".webp";
    assert ExtensionAt(w, |t|);
    StripExtensionMatchesPattern(w);
    assert w[..|t|] == t;
  }

  /** A name made of a base, a dot and a non-empty extension loses exactly
      that extension. */
  lemma WebpOfParts(base: string, ext: string)
    requires |ext| > 0 && forall j :: 0 <= j < |ext| ==> InExtension(ext[j])
    ensures WebpName(base + "." + ext) == base + ".webp"
  {
    var s := base + "." + ext;
    assert ExtensionAt(s, |base|) by {
      forall j | |base| < j < |s| ensures InExtension(s[j]) {
        assert s[j] == ext[j - |base| - 1];
      }
    }
    StripExtensionMatchesPattern(s);
    assert s[..|base|] == base;
  }

  /** A name the pattern does not match keeps its whole text. */
  lemma WebpWithoutExtension(s: string)
    requires forall i :: !ExtensionAt(s, i)
    ensures WebpName(s) == s + ".webp"
  {
    StripExtensionMatchesPattern(s);
  }

  /** How the sample names split, kept apart from the goals about them so
      that each proof stays small. */
  lemma SampleNameParts()
    ensures "saree.jpg" == "saree" + "." + "jpg" && "saree" + ".webp" == "saree.webp"
    ensures "silk.border.png" == "silk.border" + "." + "png" && "silk.border" + ".webp" == "silk.border.webp"
    ensures forall j :: 0 <= j < |"jpg"| ==> InExtension("jpg"[j])
    ensures forall j :: 0 <= j < |"png"| ==> InExtension("png"[j])
    ensures "banarasi" + ".webp" == "banarasi.webp" && forall i :: !ExtensionAt("banarasi", i)
    ensures "draft." + ".webp" == "draft..webp" && forall i :: !ExtensionAt("draft.", i)
  {
  }

  lemma SlashNameParts()
    ensures "photos.v2/front" + ".webp" == "photos.v2/front.webp"
    ensures forall i :: !ExtensionAt("photos.v2/front", i)
  {
    var dir := "photos.v2/front";
    forall i ensures !ExtensionAt(dir, i) {
      if 0 <= i < |dir| - 1 && dir[i] == '.' {
        assert i == 6 && !InExtension(dir[9]);
      }
    }
  }

  /** Sample names: a usual extension, a name with several dots, a name
      without an extension, a slash after the last dot, a trailing dot. */
  lemma WebpNameExamples()
    ensures WebpName("saree.jpg") == "saree.webp"
    ensures WebpName("silk.border.png") == "silk.border.webp"
    ensures WebpName("banarasi") == "banarasi.webp"
    ensures WebpName("photos.v2/front") == "photos.v2/front.webp"
    ensures WebpName("draft.") == "draft..webp"
  {
    SampleNameParts();
    SlashNameParts();
    WebpOfParts("saree", "jpg");
    WebpOfParts("silk.border", "png");
    WebpWithoutExtension("banarasi");
    WebpWithoutExtension("photos.v2/front");
    WebpWithoutExtension("draft.");
  }

  // ---------------------------------------------------------------------
  // Progress
  // ---------------------------------------------------------------------

  /** `Math.round(loaded * 100 / total)`: the nearest whole percentage,
      halves rounded up. */
  function Progress(loaded: int, total: int): (p: int)
    requires total > 0
    ensures 2 * p * total <= 200 * loaded + total < 2 * p * total + 2 * total
  {
    (200 * loaded + total) / (2 * total)
  }

  lemma MulMono(a: int, b: int, c: int)
    requires a <= b && c > 0
    ensures a * c <= b * c
  {
  }

  /** A progress event within the upload shows a percentage in 0..100; the
      complete upload shows 100, and so does any point from 99.5% on. */
  lemma {:induction false} ProgressBounds(loaded: int, total: int)
    requires 0 <= loaded <= total && total > 0
    ensures 0 <= Progress(loaded, total) <= 100
    ensures Progress(loaded, total) == 100 <==> 200 * loaded >= 199 * total
    ensures loaded == total ==> Progress(loaded, total) == 100
  {
    var p := Progress(loaded, total);
    if p < 0 {
      MulMono(p, -1, 2 * total);
    }
    if p > 100 {
      MulMono(101, p, 2 * total);
    }
    if p <= 99 {
      MulMono(p, 99, 2 * total);
    }
  }

  // ---------------------------------------------------------------------
  // The form
  // ---------------------------------------------------------------------

  /** The multipart body `handleSubmit` sends: `image`, `name`,
      `description`, `category` and the client's `dateTime`. */
  datatype Payload = Payload(image: File, name: string, description: string, category: string, dateTime: string)

  /** The payload as the upload route receives it: one main image and no
      thumbnails. */
  function AsRequest(p: Payload): UploadRequest {
    UploadRequest([p.image], [], UploadBody(p.name, p.description, p.category, p.dateTime))
  }

  /** A payload from this form is never refused for a missing image or for
      too many files, and when the upload succeeds the new saree has no
      thumbnails and carries the form's fields. */
  lemma {:induction false} FormPayloadIsWellShaped(p: Payload, host: File -> Option<Url>, id: nat, now: int, saveOk: bool)
    ensures var r := HandleUpload(AsRequest(p), host, id, now, saveOk);
            && r != MissingImage && r != TooManyFiles
            && (r.Uploaded? <==> host(p.image).Some? && saveOk)
            && (r.Uploaded? ==>
                  && r.saree.thumbnailImages == []
                  && Some(r.saree.imageUrl) == host(p.image)
                  && r.saree.name == p.name && r.saree.description == p.description
                  && r.saree.category == p.category)
  {
    UploadBuildsRecord(AsRequest(p), host, id, now, saveOk);
  }

  const ConversionErrorText := "Error converting image. Please try another file."
  const MissingFieldsText := "Please fill out all fields"
  const RequestErrorText := "Error uploading the file. Please try again."

  class UploadForm {
    var image: Option<File>
    var converted: Option<File>
    /** The converted picture shown as the preview. */
    var preview: Option<seq<byte>>
    var name: string
    var description: string
    var category: string
    var message: string
    var loading: bool
    var showSuccess: bool
    var progress: int
    var isDragging: bool

    /** A converted file always carries a `.webp` name. */
    ghost predicate Valid()
      reads this
    {
      converted.Some? ==> EndsWithWebp(converted.value.name)
    }

    constructor ()
      ensures Valid()
      ensures image == None && converted == None && preview == None
      ensures name == "" && description == "" && category == "" && message == ""
      ensures !loading && !showSuccess && progress == 0 && !isDragging
    {
      image, converted, preview := None, None, None;
      name, description, category, message := "", "", "", "";
      loading, showSuccess, progress, isDragging := false, false, 0, false;
    }

    method EditName(value: string)
      modifies this`name
      ensures name == value
    {
      name := value;
    }

    method EditDescription(value: string)
      modifies this`description
      ensures description == value
    {
      description := value;
    }

    method EditCategory(value: string)
      modifies this`category
      ensures category == value
    {
      category := value;
    }

    /** `processFile` up to its `await`: a chosen file becomes the image at
        once and its WebP conversion starts. The file whose conversion is
        now pending is returned; no file does nothing. */
    method ProcessFile(file: Option<File>) returns (pending: Option<File>)
      modifies this`image
      ensures pending == file
      ensures image == if file.Some? then file else old(image)
    {
      pending := file;
      if file.Some? {
        image := file;
      }
    }

    /** The rest of `processFile`, once the conversion of `file` settles:
        `conversion` is the converted bytes, or `None` when it fails. A
        conversion stores the `.webp` file and its preview; a failed one
        reports an error and keeps whatever was converted before. The image
        is not touched, so a conversion that settles after a later choice
        stores the earlier file beside the later image. */
    method FinishConversion(file: File, conversion: Option<seq<byte>>)
      requires Valid()
      modifies this`converted, this`preview, this`message
      ensures Valid()
      ensures conversion.Some? ==>
                && converted == Some(File(WebpName(file.name), conversion.value))
                && preview == conversion && message == old(message)
      ensures conversion.None? ==>
                converted == old(converted) && preview == old(preview) && message == ConversionErrorText
    {
      if conversion.Some? {
        WebpNameIsStable(file.name);
        converted := Some(File(WebpName(file.name), conversion.value));
        preview := conversion;
      } else {
        message := ConversionErrorText;
      }
    }

    /** `handleFileChange`: the first chosen file, if any, is processed. */
    method FileChange(files: seq<File>) returns (pending: Option<File>)
      modifies this`image
      ensures files == [] ==> pending.None? && image == old(image)
      ensures files != [] ==> pending == Some(files[0]) && image == pending
    {
      pending := ProcessFile(if files == [] then None else Some(files[0]));
    }

    method DragOver()
      modifies this`isDragging
      ensures isDragging
    {
      isDragging := true;
    }

    method DragLeave()
      modifies this`isDragging
      ensures !isDragging
    {
      isDragging := false;
    }

    /** `handleDrop`: the highlight goes off, and only the first dropped
        file, if there is one, is processed. */
    method Drop(files: seq<File>) returns (pending: Option<File>)
      modifies this`isDragging, this`image
      ensures !isDragging
      ensures files == [] ==> pending.None? && image == old(image)
      ensures files != [] ==> pending == Some(files[0]) && image == pending
    {
      isDragging := false;
      pending := None;
      if files != [] {
        pending := ProcessFile(Some(files[0]));
      }
    }

    /** `handleSubmit` up to the request. `clientTime` is the browser's
        `toLocaleString()` of the current date. */
    method BeginSubmit(clientTime: string) returns (payload: Option<Payload>)
      requires Valid()
      modifies this`loading, this`message, this`showSuccess, this`progress
      ensures Valid()
      ensures converted.None? || name == "" || description == "" || category == "" ==>
                && payload.None? && message == MissingFieldsText
                && loading == old(loading) && showSuccess == old(showSuccess) && progress == old(progress)
      ensures converted.Some? && name != "" && description != "" && category != "" ==>
                && payload == Some(Payload(converted.value, name, description, category, clientTime))
                && EndsWithWebp(payload.value.image.name)
                && loading && message == "" && !showSuccess && progress == 0
    {
      if converted.None? || name == "" || description == "" || category == "" {
        message := MissingFieldsText;
        return None;
      }
      payload := Some(Payload(converted.value, name, description, category, clientTime));
      loading, message, showSuccess, progress := true, "", false, 0;
    }

    /** The `onUploadProgress` callback. At 100 the success overlay shows
        and the form is cleared, whether or not the server has answered. */
    method OnProgress(loaded: int, total: int)
      requires Valid() && total > 0
      modifies this
      ensures Valid() && progress == Progress(loaded, total)
      ensures isDragging == old(isDragging) && message == old(message)
      ensures progress == 100 ==>
                && showSuccess && !loading
                && image == None && converted == None && preview == None
                && name == "" && description == "" && category == ""
      ensures progress != 100 ==>
                && showSuccess == old(showSuccess) && loading == old(loading)
                && image == old(image) && converted == old(converted) && preview == old(preview)
                && name == old(name) && description == old(description) && category == old(category)
    {
      progress := Progress(loaded, total);
      if progress == 100 {
        showSuccess, loading := true, false;
        image, converted, preview := None, None, None;
        name, description, category := "", "", "";
      }
    }

    /** The `catch` of `handleSubmit`. */
    method OnRequestError()
      modifies this`loading, this`progress, this`message
      ensures !loading && progress == 0 && message == RequestErrorText
    {
      loading, progress, message := false, 0, RequestErrorText;
    }
  }

  /** Two files chosen in quick succession whose conversions settle in the
      opposite order: the form then shows the second file as its image while
      the file it would submit is the first one's WebP, with no error. */
  method OverlappingConversions(first: File, second: File, firstBytes: seq<byte>, secondBytes: seq<byte>)
    returns (form: UploadForm)
    ensures form.Valid()
    ensures form.image == Some(second)
    ensures form.converted == Some(File(WebpName(first.name), firstBytes))
    ensures form.preview == Some(firstBytes) && form.message == ""
  {
    form := new UploadForm();
    var a := form.FileChange([first]);
    var b := form.FileChange([second]);
    form.FinishConversion(second, Some(secondBytes));
    form.FinishConversion(first, Some(firstBytes));
  }
}
