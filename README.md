# Sakode and Company saree catalog — a Dafny model

This project models the core of the Sakode and Company saree catalog:
an Express server that stores sarees and customer reviews in a document
database, and the React pages that list, upload and review them.

The server side covers three files:

- the saree routes: `POST /upload` and `GET /category/:category`;
- the review routes: `POST /add` and `GET /`;
- the `Review` schema.

The client side covers:

- the review modal;
- the Cotton category page;
- the home banner carousel;
- the admin upload page;
- the navigation bar.

Each source file is one Dafny module. Two shared modules sit beside them:

- `Base` holds `Option`, bytes, files, and ASCII upper-casing and whitespace.
- `Ordering` holds the newest-first sort used by both listings.

Pure expressions in the source are written as functions with lemmas.

State the source changes in place is written as a class. Each React
component's `useState` variables are fields of its class, and each handler
is a method with `modifies` and a contract. The server's collections are
classes too: `Catalog` holds the sarees and the log of calls made to the
media host, and `ReviewBoard` holds the reviews.

Calls the code cannot see become parameters of the methods:

- the media host (`File -> Option<Url>`, where `None` is a failed upload);
- the database's acceptance of a save (`saveOk`);
- the server clock (`now`);
- the result of the WebP conversion;
- the reply of a `fetch`;
- the rectangles of the page's sections;
- the current path.

Behaviour of the code worth knowing, including choices the model makes
where the code leaves a behaviour to a library:

- **Review validation failures are server errors.** A failure of the review
  schema, a missing rating and a name that is not a string are all answered
  500 with `success: false`, not with a client error. The handler catches
  every error in one `catch`.
- **The review routes are not mounted.** `server/index.js` never mounts
  them, so they cannot be reached as the server is wired. They are modelled
  on their own.
- **`limit` and `page` come from `parseInt(q) || d`.** A missing or
  non-numeric value, or zero, gives the default. A negative value is kept.
  - A negative skip is refused by the database, so the handler answers 500.
  - A negative limit returns the absolute value of the limit.
- **Ties in the sort.** The database leaves the order of equal keys open.
  The model's insertion sort puts them in store order.
- **Too many files.** More than one `image` file or more than five
  `thumbnailImages` makes the multipart middleware throw before the handler
  runs. The result is a 500 with no media-host call.
- **Success is declared early.** The admin page shows success and clears
  the form as soon as the upload progress rounds to 100, which happens from
  99.5 % of the bytes on. It does this whatever the server then answers
  (`AdminUpload.ProgressBounds`, `AdminUpload.UploadForm.OnProgress`).
- **A failed conversion keeps the old file.** After a conversion failure,
  the previously converted file stays in place
  (`AdminUpload.UploadForm.FinishConversion`).
- **A late conversion wins.** Choosing a file sets the image at once, but
  its conversion settles later. When two conversions settle out of order,
  the form shows the second file while the file it submits is the first
  one's WebP (`AdminUpload.OverlappingConversions`).

## Model

| member | source | states |
|---|---|---|
| Base.UpperAscii | server/routes/reviews.js:12 | `toUpperCase` on one character: a lower-case ASCII letter becomes the matching upper-case letter (same place in the alphabet), and every other character is unchanged |
| Base.FirstLetterUpper | server/routes/reviews.js:12 | `charAt(0).toUpperCase()`: one character exactly when the string is non-empty, and that character is the upper-cased first character |
| Ordering.Insert | server/routes/sarees.js:64 | inserting into a newest-first list keeps it newest first, adds exactly the one element, and puts it at the head or keeps the old head |
| Ordering.SortByDesc | server/routes/sarees.js:63-64 | `sort({key: -1})`: the result is sorted by descending key and is a permutation of the input |
| Ordering.SortKeepsElements | server/routes/reviews.js:42-43 | sorting neither adds nor drops any element |
| SareeRoutes.Matching | server/routes/sarees.js:63 | `find({category})` holds exactly the store's records whose category is that exact string, each as many times as it occurs in the store, so its length is the category's record count |
| SareeRoutes.Newest | server/routes/sarees.js:63-64 | defined as the category's records sorted by descending `uploadDate`; its properties are stated by SortByDesc, Matching and ListingIsSortedWindow |
| SareeRoutes.Window | server/routes/sarees.js:65-66 | `skip` then `limit`: at most `take` entries, entry i is entry `skip+i` of the input, and the window is empty once the skip passes the end |
| SareeRoutes.EffectiveLimit | server/routes/sarees.js:59 | defined as `parseInt(limit)`, or 20 when that is absent, non-numeric or zero; its properties are stated by QueryDefaults |
| SareeRoutes.EffectivePage | server/routes/sarees.js:60 | defined as `parseInt(page)` or 1 when that is absent, non-numeric or zero; its properties are stated by QueryDefaults |
| SareeRoutes.Skip | server/routes/sarees.js:61 | defined as `(page - 1) * limit` over the effective values; its properties are stated by QueryDefaults |
| SareeRoutes.Take | server/routes/sarees.js:66 | defined as the absolute value of the limit, the number of records the database returns for it; its properties are stated by ListingIsSortedWindow |
| SareeRoutes.ListStatus | server/routes/sarees.js:69-75 | defined as 200 for a found listing, 404 for an empty one and 500 for a failed one; ListingIsSortedWindow and EmptyWindowIsNotFound state which listing gets which |
| SareeRoutes.ListByCategory | server/routes/sarees.js:56-77 | defined as the whole `GET /category/:category` handler: 500 for a negative skip, else the window of the newest-first category records, 404 when it is empty and 200 otherwise; its properties are stated by ListingIsSortedWindow, EmptyWindowIsNotFound and UnknownCategoryIsNotFound |
| SareeRoutes.QueryDefaults | server/routes/sarees.js:59-61 | a missing, non-numeric or zero `limit` is 20, and the same for `page` is 1; other values are kept; skip is `(page-1)*limit` |
| SareeRoutes.ListingIsSortedWindow | server/routes/sarees.js:56-77 | the listing fails exactly when the skip is negative; a found listing is the whole window `[skip, skip+limit)` of the category's records sorted newest first, has 1 to limit entries, and contains only store records of that category |
| SareeRoutes.EmptyWindowIsNotFound | server/routes/sarees.js:68-72 | an empty window is a 404 naming the category and never a 200 with an empty array; 404 holds exactly when the skip reaches past the category's records |
| SareeRoutes.UnknownCategoryIsNotFound | server/routes/sarees.js:68-70 | a category with no records is not found |
| SareeRoutes.PagePastTheEndIsNotFound | server/routes/sarees.js:59-70 | page 3 of a category holding 10 records, with the default limit of 20, is not found |
| SareeRoutes.UploadAll | server/routes/sarees.js:26-34 | the thumbnail URLs exist exactly when every upload succeeds; there is one per thumbnail, in submission order, each the URL the host returned for that file |
| SareeRoutes.MediaCalls | server/routes/sarees.js:23-32 | defined as the media host calls made, in order: none when the request is refused before uploading, else the main image and, only if it succeeded, every thumbnail; its properties are stated by FailedThumbnailLeavesUploads and Catalog.Upload |
| SareeRoutes.UploadStatus | server/routes/sarees.js:18-51 | defined as 200 for a created record, 400 for a missing main image and 500 for too many files or a failed upload or save; MissingImageIsRejected and UploadBuildsRecord state which request gets which |
| SareeRoutes.UploadMessage | server/routes/sarees.js:18-51 | defined as the answer's message: "Saree uploaded successfully", "Main image is required.", "Error uploading saree", or the upload middleware's "Unexpected field" for too many files; MissingImageIsRejected states it for the missing image |
| SareeRoutes.HandleUpload | server/routes/sarees.js:13-53 | defined as the whole `POST /upload` handler's answer; its properties are stated by UploadBuildsRecord, MissingImageIsRejected and FailedThumbnailStoresNothing |
| SareeRoutes.MissingImageIsRejected | server/routes/sarees.js:18-20 | a request without a main image gets 400 "Main image is required." and makes no media-host call |
| SareeRoutes.UploadBuildsRecord | server/routes/sarees.js:13-53 | a record is created exactly when the file limits hold, every upload succeeds and the save succeeds. The record holds the main URL, the thumbnail URLs in order, the text fields and the server clock, and never the client's `dateTime`. Every other failure after the limits is a 500 |
| SareeRoutes.FailedThumbnailStoresNothing | server/routes/sarees.js:28-52 | when any one thumbnail upload fails, the answer is a 500 whether or not the database would have saved, so no partial record exists |
| SareeRoutes.FailedThumbnailLeavesUploads | server/routes/sarees.js:23-52 | when the main image uploads and a thumbnail fails, the answer is a 500 without a record, while every thumbnail is still sent and the main image's URL and every accepted thumbnail's URL are in the media log afterwards |
| SareeRoutes.CreatedRecordFits | server/routes/sarees.js:37-47 | a created record keeps ids fresh and distinct and has at most five thumbnails; every URL in it is among the URLs the media host returned during that same call, and so also among those in the log after it |
| SareeRoutes.CallsKeepStore | server/routes/sarees.js:23-34 | media-host calls that end without a new record (a failed upload, a failed save) leave the stored records well formed and every stored URL still among those the host returned |
| SareeRoutes.Catalog.constructor | server/routes/sarees.js:6 | the `Saree` collection starts empty, with next id 0 and an empty media log, and so keeps the store invariant |
| SareeRoutes.Catalog.Upload | server/routes/sarees.js:13-53 | the answer is the handler's outcome; the media host calls made are appended to the log even when the request then fails; the record is appended, and the next id advanced, only on success; the store invariant is kept |
| ReviewModel.Validate | server/models/Review.js:4-27 | a document is accepted exactly when name, initial and review are non-empty strings and the rating is present and in 1..5; a rejection lists every failing path and only those |
| ReviewModel.AcceptedKeepsFields | server/models/Review.js:4-26 | an accepted document is stored with its own fields, is well formed, and gets `createdAt = now` exactly when it carried none |
| ReviewModel.RatingOutsideRangeRejected | server/models/Review.js:17-22 | a missing rating, or one outside 1..5, is always rejected at the rating path |
| ReviewRoutes.InitialOfAlice | server/routes/reviews.js:12 | the name "alice" gives the initial "A" |
| ReviewRoutes.AddStatus | server/routes/reviews.js:24-35 | defined as 200 for an added review and 500 otherwise; AddStoresSubmission states which submission gets which |
| ReviewRoutes.AddSuccess | server/routes/reviews.js:24-35 | defined as the `success` flag, true exactly for an added review; stated by AddStoresSubmission |
| ReviewRoutes.AddMessage | server/routes/reviews.js:24-35 | defined as "Review added successfully" or "Error adding review"; stated by AddStoresSubmission |
| ReviewRoutes.HandleAdd | server/routes/reviews.js:7-37 | defined as the whole `POST /add` handler: derive the initial, validate, save; its properties are stated by AddStoresSubmission and RatingOutsideRangeIsRefused |
| ReviewRoutes.AddStoresSubmission | server/routes/reviews.js:7-37 | a review is added exactly when name and review are non-empty, the rating is in 1..5 and the save succeeds. It stores the submitted fields, the derived initial and the server clock, with 200 and "Review added successfully". Any other outcome is 500 "Error adding review" |
| ReviewRoutes.RatingOutsideRangeIsRefused | server/routes/reviews.js:15-23 | a rating outside 1..5 is refused and nothing is added |
| ReviewRoutes.ListReviews | server/routes/reviews.js:40-48 | defined as every stored review sorted by descending `createdAt`; its properties are stated by ListingHasEveryReviewNewestFirst |
| ReviewRoutes.ListingHasEveryReviewNewestFirst | server/routes/reviews.js:40-48 | the listing holds exactly the stored reviews, as a permutation, with the newest `createdAt` first |
| ReviewRoutes.ReviewBoard.constructor | server/models/Review.js:29 | the `Review` collection starts empty, and so every stored review is well formed |
| ReviewRoutes.ReviewBoard.Add | server/routes/reviews.js:7-37 | the answer is the handler's outcome; the record is appended only on success, and every stored review stays well formed |
| ReviewModal.StarToggle | frontend/src/Screens/ReviewModal.jsx:10-17 | defined as `star - 1` when the star clicked is the current rating and `star` otherwise; its properties are stated by StarClickEffect, ClicksKeepRatingInRange and DoubleClickRestores |
| ReviewModal.StarFilled | frontend/src/Screens/ReviewModal.jsx:138 | defined as star k showing filled when k is at most the rating; StarClickEffect states which stars are filled after a click |
| ReviewModal.StarClickEffect | frontend/src/Screens/ReviewModal.jsx:10-17 | from a rating in 0..5, clicking star 1..5 sets the rating to that star, or one below it when it was already the rating; the result stays in 0..5; the stars drawn filled (`star <= rating`) are exactly those up to the new rating |
| ReviewModal.ClicksKeepRatingInRange | frontend/src/Screens/ReviewModal.jsx:10-17 | any sequence of star clicks keeps the rating in 0..5 |
| ReviewModal.DoubleClickRestores | frontend/src/Screens/ReviewModal.jsx:12-15 | clicking the highest lit star twice gives back the rating |
| ReviewModal.TrimStart | frontend/src/Screens/ReviewModal.jsx:22 | removes exactly the leading whitespace: what is cut is whitespace, and the result does not start with whitespace |
| ReviewModal.TrimEnd | frontend/src/Screens/ReviewModal.jsx:22 | removes exactly the trailing whitespace: what is cut is whitespace, and the result does not end with whitespace |
| ReviewModal.Trim | frontend/src/Screens/ReviewModal.jsx:22 | defined as TrimEnd of TrimStart; its properties are stated by TrimStart, TrimEnd and TrimEmptyIffBlank |
| ReviewModal.FailureText | frontend/src/Screens/ReviewModal.jsx:63 | defined as the server's message, or "Failed to submit review" when it is absent or empty; its use is stated by ReviewForm.FinishSubmit |
| ReviewModal.TrimEmptyIffBlank | frontend/src/Screens/ReviewModal.jsx:22 | `!s.trim()` holds exactly for strings made only of whitespace, the empty string included |
| ReviewModal.ReviewForm.constructor | frontend/src/Screens/ReviewModal.jsx:4-8 | the form starts empty, with rating 0, not submitting, and no message |
| ReviewModal.ReviewForm.EditName | frontend/src/Screens/ReviewModal.jsx:119 | typing sets the name |
| ReviewModal.ReviewForm.EditReview | frontend/src/Screens/ReviewModal.jsx:154 | typing sets the review text |
| ReviewModal.ReviewForm.StarClick | frontend/src/Screens/ReviewModal.jsx:135 | a star click applies the toggle rule and keeps the rating in 0..5 |
| ReviewModal.ReviewForm.BeginSubmit | frontend/src/Screens/ReviewModal.jsx:19-32 | a blank name or review gives "Please fill all fields"; otherwise rating 0 gives "Please select a rating"; otherwise the request carries the three fields with a rating in 1..5, and the form is marked submitting |
| ReviewModal.ReviewForm.FinishSubmit | frontend/src/Screens/ReviewModal.jsx:34-70 | success clears the fields and shows the success text. An unsuccessful answer shows the server's message, or "Failed to submit review" when it is missing or empty. A thrown error shows the generic retry text. Submitting always ends |
| CottonPage.NextSlideIndex | frontend/src/Categories/CottonPage.jsx:46 | defined as `(i + 1) % maxSlides` with JavaScript's remainder; its properties are stated by SlideStep and SlideArithmetic |
| CottonPage.PrevSlideIndex | frontend/src/Categories/CottonPage.jsx:53 | defined as `(i - 1 + maxSlides) % maxSlides` with JavaScript's remainder; its properties are stated by SlideStep and SlideArithmetic |
| CottonPage.SlideStep | frontend/src/Categories/CottonPage.jsx:43-55 | with JavaScript's remainder, next is `i+1` and wraps from the last image to 0; previous is `i-1` and wraps from 0 to the last image |
| CottonPage.SlideArithmetic | frontend/src/Categories/CottonPage.jsx:43-55 | next and previous stay inside the carousel and undo each other |
| CottonPage.AllImages | frontend/src/Categories/CottonPage.jsx:71 | defined as the main image followed by the thumbnails; its properties are stated by CardImages |
| CottonPage.CurrentSlide | frontend/src/Categories/CottonPage.jsx:72 | defined as the card's entry, or 0 when it has none; its properties are stated by CardShowsOwnImage |
| CottonPage.ShowsControls | frontend/src/Categories/CottonPage.jsx:94 | defined as a card having more than one image; CardImages states that this holds exactly when the saree has a thumbnail |
| CottonPage.CardImages | frontend/src/Categories/CottonPage.jsx:71-94 | a card's images are the main image followed by the thumbnails, and the controls show exactly when there is at least one thumbnail |
| CottonPage.CardShowsOwnImage | frontend/src/Categories/CottonPage.jsx:72 | as long as the entries that exist lie in their carousels, every card shows one of its own images; a card without an entry reads as slide 0 and shows its main image |
| CottonPage.Reverse | frontend/src/Categories/CottonPage.jsx:15 | `[...data].reverse()`: same length, with element i taken from the mirrored position |
| CottonPage.InitialSlides | frontend/src/Categories/CottonPage.jsx:17-22 | the `forEach` gives exactly the fetched ids an entry, each 0 |
| CottonPage.ReversedDescIsAsc | frontend/src/Categories/CottonPage.jsx:15 | a newest-first list, reversed, is oldest first |
| CottonPage.ReverseKeepsElements | frontend/src/Categories/CottonPage.jsx:15 | reversing neither adds nor drops sarees |
| CottonPage.FetchOf | frontend/src/Categories/CottonPage.jsx:14-24 | defined as the list of a 200 answer, and a rejection for any other answer; its properties are stated by PageShowsOldestOfNewestTwenty |
| CottonPage.PageShowsOldestOfNewestTwenty | frontend/src/Categories/CottonPage.jsx:11-29 | the page's request, sent without limit or page, fails exactly when there is no cotton saree; otherwise it shows exactly the newest min(20, n) cotton sarees of the store, reversed so that they run oldest first |
| CottonPage.CottonGallery.constructor | frontend/src/Categories/CottonPage.jsx:6-8 | no sarees, no error, and no slide entries at first |
| CottonPage.CottonGallery.Load | frontend/src/Categories/CottonPage.jsx:11-29 | on success the list is the reversed data and every id starts at slide 0; on failure the list and slides are kept and the error text is set; every card keeps a slide inside its carousel |
| CottonPage.CottonGallery.NextSlide | frontend/src/Categories/CottonPage.jsx:43-48 | only the card's entry moves to the next slide, wrapping around; every other entry is unchanged |
| CottonPage.CottonGallery.PrevSlide | frontend/src/Categories/CottonPage.jsx:50-55 | only the card's entry moves to the previous slide, wrapping around; every other entry is unchanged |
| CottonPage.CottonGallery.GoToSlide | frontend/src/Categories/CottonPage.jsx:57-62 | only the card's entry is set to the chosen slide |
| Home.PrevBanner | frontend/src/Screens/Home.jsx:17-19 | defined as the last banner from the first and one back otherwise; its properties are stated by BannerMoves |
| Home.NextBanner | frontend/src/Screens/Home.jsx:21-23 | defined as the first banner from the last and one forward otherwise; its properties are stated by BannerMoves and AdvanceIsModular |
| Home.SwipeMove | frontend/src/Screens/Home.jsx:54-58 | defined as forward when the start is more than 50 pixels right of the end, back when more than 50 left, otherwise no move; its properties are stated by DispatchMatchesButtons |
| Home.KeyMove | frontend/src/Screens/Home.jsx:36-39 | defined as back for ArrowLeft, forward for ArrowRight, otherwise no move; its properties are stated by DispatchMatchesButtons |
| Home.BannerMoves | frontend/src/Screens/Home.jsx:17-23 | previous and next stay on one of the five banners, undo each other, and equal the modular carousel arithmetic |
| Home.AdvanceBy | frontend/src/Screens/Home.jsx:26-32 | defined as k successive calls of `handleNext`, the effect of k ticks of the auto-advance timer; AdvanceIsModular states where they land |
| Home.AdvanceIsModular | frontend/src/Screens/Home.jsx:21-32 | k steps forward from banner i land on `(i+k) mod 5` |
| Home.Apply | frontend/src/Screens/Home.jsx:17-23 | defined as the button handler a move stands for: none, `handleNext` or `handlePrev`; DispatchMatchesButtons states the moves of swipes and keys through it |
| Home.DispatchMatchesButtons | frontend/src/Screens/Home.jsx:34-58 | a swipe of more than 50 pixels to the left goes forward, one of more than 50 to the right goes back, and a shorter one does nothing; ArrowLeft goes back, ArrowRight goes forward, and other keys do nothing |
| Home.BannerCarousel.constructor | frontend/src/Screens/Home.jsx:10-15 | the carousel starts on banner 0 with both touch points at 0.0 |
| Home.BannerCarousel.Prev | frontend/src/Screens/Home.jsx:17-19 | moves to the previous banner, wrapping from 0 to 4 |
| Home.BannerCarousel.Next | frontend/src/Screens/Home.jsx:21-23 | moves to the next banner, wrapping from 4 to 0 |
| Home.BannerCarousel.KeyDown | frontend/src/Screens/Home.jsx:36-39 | applies the key's move |
| Home.BannerCarousel.TouchStart | frontend/src/Screens/Home.jsx:45-47 | records where the touch started |
| Home.BannerCarousel.TouchEnd | frontend/src/Screens/Home.jsx:49-58 | records where the touch ended, then applies the swipe's move |
| Home.BannerCarousel.SelectIndicator | frontend/src/Screens/Home.jsx:107 | an indicator dot selects its banner |
| AdminUpload.TrailLength | frontend/src/pages/AdminUploadPage.jsx:62 | the longest suffix of the name free of '.' and '/' |
| AdminUpload.StripExtension | frontend/src/pages/AdminUploadPage.jsx:62 | defined as the name cut before a final dot followed by a non-empty run free of '.' and '/'; its properties are stated by StripExtensionMatchesPattern |
| AdminUpload.WebpName | frontend/src/pages/AdminUploadPage.jsx:62 | defined as StripExtension of the name followed by ".webp"; its properties are stated by WebpNameIsStable, WebpOfParts and WebpWithoutExtension |
| AdminUpload.StripExtensionMatchesPattern | frontend/src/pages/AdminUploadPage.jsx:62 | `\.[^/.]+$` matches at most once; removing it cuts the name at the match, and without a match the name is unchanged |
| AdminUpload.WebpOfParts | frontend/src/pages/AdminUploadPage.jsx:62 | a name made of a base, a dot and a non-empty run without dot or slash loses exactly that dot and run, and gets `.webp` |
| AdminUpload.WebpWithoutExtension | frontend/src/pages/AdminUploadPage.jsx:62 | a name the pattern does not match keeps its whole text and gets `.webp` appended |
| AdminUpload.WebpNameIsStable | frontend/src/pages/AdminUploadPage.jsx:62 | every converted name ends in ".webp", and deriving a name from a converted name changes nothing |
| AdminUpload.WebpNameExamples | frontend/src/pages/AdminUploadPage.jsx:62 | "saree.jpg" gives "saree.webp" and "silk.border.png" gives "silk.border.webp"; names without a final extension keep all their characters: "banarasi", "photos.v2/front" and "draft." |
| AdminUpload.Progress | frontend/src/pages/AdminUploadPage.jsx:118 | `Math.round(loaded*100/total)`: the whole percentage nearest the ratio, with halves rounded up |
| AdminUpload.ProgressBounds | frontend/src/pages/AdminUploadPage.jsx:117-120 | within the upload the progress is 0..100; it is 100 exactly from 99.5 % of the bytes on, and at the last byte |
| AdminUpload.FormPayloadIsWellShaped | frontend/src/pages/AdminUploadPage.jsx:102-107 | the form's body never trips the missing-image or too-many-files answers; it is stored exactly when the host takes the image and the save succeeds; the record has no thumbnails and carries the form's fields |
| AdminUpload.UploadForm.constructor | frontend/src/pages/AdminUploadPage.jsx:6-16 | every field starts empty, off or 0 |
| AdminUpload.UploadForm.EditName | frontend/src/pages/AdminUploadPage.jsx:160 | typing sets the name |
| AdminUpload.UploadForm.EditDescription | frontend/src/pages/AdminUploadPage.jsx:161 | typing sets the description |
| AdminUpload.UploadForm.EditCategory | frontend/src/pages/AdminUploadPage.jsx:162 | choosing sets the category |
| AdminUpload.UploadForm.ProcessFile | frontend/src/pages/AdminUploadPage.jsx:57-59 | no file changes nothing; a chosen file becomes the image at once and is returned as the file whose conversion is pending |
| AdminUpload.UploadForm.FinishConversion | frontend/src/pages/AdminUploadPage.jsx:60-70 | when a conversion settles, its file gets the `.webp` name and becomes the converted file and the preview; a failed conversion sets the error text and keeps the earlier converted file; the image is left as it is; converted files always end in ".webp" |
| AdminUpload.UploadForm.FileChange | frontend/src/pages/AdminUploadPage.jsx:73-75 | only the first chosen file is processed: it becomes the image and its conversion is pending; an empty selection changes nothing |
| AdminUpload.UploadForm.DragOver | frontend/src/pages/AdminUploadPage.jsx:86-89 | the drop zone is highlighted |
| AdminUpload.UploadForm.DragLeave | frontend/src/pages/AdminUploadPage.jsx:91-93 | the highlight goes off |
| AdminUpload.UploadForm.Drop | frontend/src/pages/AdminUploadPage.jsx:77-84 | the highlight goes off, and only the first dropped file, if any, is processed: it becomes the image and its conversion is pending |
| AdminUpload.UploadForm.BeginSubmit | frontend/src/pages/AdminUploadPage.jsx:95-112 | a missing converted image, name, description or category gives "Please fill out all fields" and no request. Otherwise the body carries the `.webp` file, the three text fields and the client time, and loading is on, the message empty, success hidden and progress 0 |
| AdminUpload.UploadForm.OnProgress | frontend/src/pages/AdminUploadPage.jsx:117-131 | progress is the rounded percentage; at 100 success shows, loading stops, and image, preview, name, description and category are cleared; below 100 nothing else changes |
| AdminUpload.UploadForm.OnRequestError | frontend/src/pages/AdminUploadPage.jsx:133-137 | loading stops, progress returns to 0, and the error text is shown |
| AdminUpload.OverlappingConversions | frontend/src/pages/AdminUploadPage.jsx:57-84 | two files chosen one after the other whose conversions settle in reverse order leave the second file as the image and the first file's WebP as the file to submit, with no error message |
| Navbar.FindFirst | frontend/src/components/Navbar.jsx:91 | the index of the first occurrence of the pattern, or none when it never occurs |
| Navbar.ReplaceFirst | frontend/src/components/Navbar.jsx:91 | defined as `replace` with a string pattern, replacing only the first occurrence that FindFirst locates; its properties are stated by LabelReplacesFirstUs |
| Navbar.NavLabel | frontend/src/components/Navbar.jsx:91 | defined as the upper-cased first letter followed by the rest with its first "us" replaced by " Us"; its properties are stated by LabelWithoutUs, LabelReplacesFirstUs and the four label lemmas |
| Navbar.LabelWithoutUs | frontend/src/components/Navbar.jsx:91 | an item with no "us" after its first letter is labelled by upper-casing that letter |
| Navbar.LabelReplacesFirstUs | frontend/src/components/Navbar.jsx:91 | only the first "us" after the first letter becomes " Us", and the label is one character longer than the item |
| Navbar.LabelOfParts | frontend/src/components/Navbar.jsx:91 | an item whose "us" after the first letter is preceded by a stretch where "us" does not start gets that "us" replaced by " Us" and nothing else changed but the capital |
| Navbar.LabelWithoutU | frontend/src/components/Navbar.jsx:91 | an item with no 'u' after its first letter is labelled by capitalising that letter only |
| Navbar.HomeLabel | frontend/src/components/Navbar.jsx:68-91 | "home" is labelled "Home" |
| Navbar.CategoryLabel | frontend/src/components/Navbar.jsx:68-91 | "category" is labelled "Category" |
| Navbar.AboutUsLabel | frontend/src/components/Navbar.jsx:68-91 | "aboutus" is labelled "About Us" |
| Navbar.ContactUsLabel | frontend/src/components/Navbar.jsx:68-91 | "contactus" is labelled "Contact Us" |
| Navbar.FirstQualifying | frontend/src/components/Navbar.jsx:32-42 | some section is picked exactly when one exists and is crossed by the line at 100 pixels; the one picked is the first such in page order |
| Navbar.SpyPicksSectionUnderLine | frontend/src/components/Navbar.jsx:32-42 | when only one section is crossed, that section is picked |
| Navbar.NavBar.constructor | frontend/src/components/Navbar.jsx:19-20 | the menu starts closed and the active link is "home" |
| Navbar.NavBar.HandleScroll | frontend/src/components/Navbar.jsx:30-45 | the loop with its early exit activates the first qualifying section, and leaves the active link alone when none qualifies |
| Navbar.NavBar.HandleNavClick | frontend/src/components/Navbar.jsx:56-66 | on "/" the target becomes active; elsewhere the bar navigates to "/" and the active link is unchanged |
| Navbar.NavBar.ToggleMenu | frontend/src/components/Navbar.jsx:53 | the menu flag is negated |
| Navbar.NavBar.CloseMenu | frontend/src/components/Navbar.jsx:54 | the menu is closed |

## Left out

**Outside services and concurrency**

- Database read failures are not modelled. A failing `find` in either listing is a 500 that no parameter represents. Only the negative skip, which the database itself refuses, gives the saree listing's 500.
- The concurrent thumbnail uploads of `Promise.all` are modelled as sequential calls in submission order. The result is the same when any one fails.
- Media assets uploaded before a failure are never removed. The model records them in `Catalog.mediaLog` (see `SareeRoutes.FailedThumbnailLeavesUploads`) and models no cleanup.
- Upload middleware errors other than too many files are not modelled, for example a file under an unexpected field name.

**Browser APIs, timers and formatting**

- The WebP conversion itself (`FileReader`, `Image`, canvas `toBlob` at quality 0.8) is a browser API. Its outcome is a parameter.
- Object URLs for the preview are represented by the preview bytes.
- Timers are not modelled:
  - the auto-advance `setInterval` of the banners (`Home.AdvanceBy` stands for its effect);
  - the debounce of the scroll spy;
  - the modal's close-and-reload timeout;
  - the success overlay's hide timeout.
- The scroll-into-view after navigating away from another page is not modelled.
- Locale date formatting (`toLocaleString`, `formatDate`) is a library call. The client's `dateTime` is an opaque string, and dates are integers.
- Navbar.NavBar.HandleScroll: section rectangles are whole pixels, while browsers give floating-point coordinates. The banner's touch coordinates (`Home.BannerCarousel.TouchEnd`) are `real`, so a 50.5-pixel swipe moves the banner as in the browser; they are exact, not rounded to doubles.

**Simplified text and values**

- `parseInt` prefix parsing is not modelled. The parsed `limit` and `page` are given as an optional integer.
- SareeRoutes.Skip: `(page - 1) * limit` is a JavaScript double, which loses precision beyond 2^53; the model's skip and limit are unbounded integers, so queries that large are computed exactly here.
- Ordering.SortByDesc: records with equal `uploadDate` (or reviews with equal `createdAt`) keep their store order, as the insertion sort gives; the database leaves the order of such ties unspecified.
- ReviewModal.Trim: `trim` is modelled over the ASCII whitespace characters only.
- Base.UpperAscii: `toUpperCase` is modelled over ASCII letters only, without the rest of Unicode.
- ReviewModel.Validate: mongoose's casts to the declared types are not modelled, and the model refuses values that mongoose would accept after casting:
  - a number or boolean given as `review` is stored by mongoose as its string form (`5` becomes "5"); the model treats it as missing, so `ReviewRoutes.HandleAdd` answers 500 where the server stores the review;
  - a numeric string given as `rating` ("3") is stored by mongoose as a number; the model has only integer ratings;
  - non-integer ratings are not modelled;
  - a non-string `name` is `None`, and the model and the server agree there, because `name.charAt` throws before validation.
- CottonPage.CottonGallery.Load: the slide map is keyed by natural-number ids, which stand for the database's unique `_id`. Loaded data is required to have distinct ids, as the database guarantees.
- CottonPage.CardImages: a record without `thumbnailImages` (`|| []`) is not modelled. Every stored record has the field, possibly empty.
- AdminUpload.UploadForm.OnProgress: requires a positive `total`. An unknown total gives no meaningful percentage in the browser.
- The `Saree` schema file is not part of this model. No category list is enforced on the server; the form's five options are presentation only.

**Not part of this model**

- Contact page, category overview page and static reviews page: static data and markup.
- `server/index.js`: middleware and CORS plumbing.
- All Tailwind and JSX layout.
