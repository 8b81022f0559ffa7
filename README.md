# Image Compressor Online — a model of the `ImageCompressor` component

The repository is a single React component, `ImageCompressor` in src/App.js.
It lets a user pick an image file, re-encode it as JPEG at a chosen quality
and download the result. The browser's canvas does the encoding. The
component's own logic is a small state machine over four fields:

- `selectedImage`: the picked file, or null;
- `compressedImage`: the encoder's blob, or null;
- `error`: the last validation message, or null;
- `quality`: the selector's string, `"50"` at first.

The handlers change these fields. Picking a file goes through three ordered
checks: the change event must carry a file, the file must have a truthy name
and size, and its MIME type must be one of `image/jpeg`, `image/png`,
`image/svg+xml` and `image/gif`. "Upload New Image" clears everything except
the quality. The selector stores its value as given. The encoder's completion
callback stores the blob.

The project has three modules:

- `Options` (options.dfy): the optional value that stands for JavaScript's `null`.
- `App` (app.dfy): the data model, the validator, and each handler's effect
  as a pure function on a `State` value, with contracts stating what that
  handler promises. The class `ImageCompressor` has the four fields and one
  method per handler. Each method changes only the fields its
  `modifies this`field` clause names. Its postcondition ties the new
  fields to the pure function of the old ones.
- `Sessions` (sessions.dfy): any sequence of handler calls. Its lemmas show
  that every reachable state is well formed: a selected image always passed
  the validator, and an error is always one of the two messages. They also
  show that the quality stays within the offered options when the selector
  supplies it. Concrete sessions show the stale-result race and the kept
  earlier result. The end-to-end flow is stated as a verified method on the class.

Three behaviours of the code are easy to misread:

- A valid new pick does not clear an earlier compressed result. Only
  `selectedImage` and `error` are set (src/App.js:15-16).
- The download button sits inside both the `selectedImage` block and the
  `compressedImage` block (src/App.js:76, src/App.js:93). So a download is
  offered only when both are present. After a stale callback, a blob may be
  stored with nothing selected, and then no download is offered.
- The quality handler stores any string, with no check against the three
  offered options.

The host platform's decoder and encoder are parameters. `HandleCompressImage`
takes the decoded image's dimensions and returns the request it makes of the
encoder. The encoder's result is delivered by calling `OnBlobReady`, which may
happen at any time. That result may be null: the encoder passes null when the
canvas has zero width or height or the encode fails. The callback stores it
as given, which clears an earlier result. The quality in that request is an integer percent: the
encoder receives that percent divided by 100.

## Model

| member | source | states |
|---|---|---|
| `App.Initial` | src/App.js:5-8 | On first render nothing is selected, there is no result and no error, and the quality is `"50"`, one of the offered options. The state is well formed. |
| `App.IsAllowedMimeType` | src/App.js:14 | A MIME type passes exactly when it is one of image/jpeg, image/png, image/svg+xml or image/gif. |
| `App.Validate` | src/App.js:13-21 | The file is accepted iff it has a truthy name, a truthy size and an allowed type. Missing metadata is reported iff name or size is falsy, whatever the type. An unsupported type is reported iff the metadata is present and the type is not allowed. |
| `App.Message` | src/App.js:18-21 | The missing-metadata rejection reads exactly "Invalid file". The type rejection reads exactly "Only JPEG, PNG, SVG and GIF files are allowed". Each message belongs to one rejection only. |
| `App.PickedFile` | src/App.js:11-12 | The event carries a file iff its file list is present and non-empty, and the file is the list's first entry. |
| `App.ImageChanged` | src/App.js:10-24 | Without a file the state is unchanged. With one, the error is cleared iff the file is accepted, and it is exactly one of the two messages otherwise. An accepted file becomes the selection, and a refused one leaves the selection unchanged. The compressed result and the quality never change. Well-formedness is preserved. |
| `App.UploadNewImage` | src/App.js:41-45 | Selection, result and error become null and the quality is kept. The result is well formed and offers no download. |
| `App.QualityChanged` | src/App.js:47-49 | The given value is stored verbatim, unchecked, and no other field changes. |
| `App.BlobStored` | src/App.js:34-36 | The callback stores what the encoder hands it, a blob or null, as the compressed result and changes no other field. A null result offers no download. Well-formedness is preserved. |
| `App.LeadingZeroIgnored` | src/App.js:36 | A leading zero does not change the numeric value of a digit string, as JavaScript reads "050" as 50. |
| `App.QualityPercent` | src/App.js:36 | The quality string has an integer percent iff it is made of decimal digits. The empty string gives 0, as JavaScript coerces it. |
| `App.QualityPercentLeadingZero` | src/App.js:36 | For every string, a leading zero changes neither the percent nor whether there is one. |
| `App.CompressRequest` | src/App.js:26-38 | The encode request is always for image/jpeg, at the current quality's percent. The canvas width and height equal the decoded image's. The request needs a selected image. |
| `App.DownloadOffer` | src/App.js:76-106 | A download is offered iff an image is selected and a compressed result exists. It is named compressed-image.jpg and holds the stored blob. |
| `App.ImageCompressor.constructor` | src/App.js:5-8 | The fields start as in `App.Initial`. |
| `App.ImageCompressor.HandleImageChange` | src/App.js:10-24 | Only `selectedImage` and `error` may change, and the new fields are those `App.ImageChanged` gives. |
| `App.ImageCompressor.HandleCompressImage` | src/App.js:26-38 | With an image selected, the method changes nothing and returns the request `App.CompressRequest` describes. |
| `App.ImageCompressor.OnBlobReady` | src/App.js:34-36 | Only `compressedImage` may change, and it becomes what the encoder handed over, blob or null. |
| `App.ImageCompressor.HandleUploadNewImage` | src/App.js:41-45 | `quality` cannot change, and the other three fields become null. |
| `App.ImageCompressor.HandleQualityChange` | src/App.js:47-49 | Only `quality` may change, and it becomes the given value. |
| `App.ImageCompressor.DownloadCompressed` | src/App.js:100-106 | The click handler yields the download `App.DownloadOffer` describes: compressed-image.jpg with the stored blob. |
| `Sessions.Step` | src/App.js:10-49 | Every handler keeps a state well formed. Only a quality change alters the quality, and it sets the given value. |
| `Sessions.RunPreservesWellFormed` | src/App.js:10-49 | Any sequence of handler calls from a well-formed state ends in a well-formed state. |
| `Sessions.ReachableWellFormed` | src/App.js:5-49 | Every state reachable from the first render has an accepted selection, if any, and an error that is one of the two messages, if any. |
| `Sessions.RunKeepsOfferedQuality` | src/App.js:78-86 | If every quality change carries one of the selector's options, the quality stays one of 80, 50 and 10. |
| `Sessions.OfferedQualityPercents` | src/App.js:83-85 | The options "80", "50" and "10" give the percents 80, 50 and 10, all at most 100. |
| `Sessions.QualityLastWins` | src/App.js:47-49 | Of two quality changes, only the last one counts. |
| `Sessions.UploadNewImageIdempotent` | src/App.js:41-45 | Applying "Upload New Image" twice gives the same state as applying it once. |
| `Sessions.StaleResultAfterUpload` | src/App.js:29-45 | Pick a file, reset, then let the pending callback fire. The state then has a result but no selection, and offers no download. |
| `Sessions.NewPickKeepsEarlierResult` | src/App.js:13-16 | After a result for one file, a valid pick of another file keeps that result. The download still offers the earlier blob. |
| `Sessions.NullBlobClearsResult` | src/App.js:34-36 | After a blob for the picked file, a null callback leaves the selection, no result and no download, in a well-formed state. |
| `Sessions.CompressAndDownload` | src/App.js:5-106 | Pick a JPEG, keep the default quality, compress a 200 by 100 image and receive the blob. The request is image/jpeg at 50 percent and 200 by 100. The download is compressed-image.jpg holding that blob. |

## Left out

- Rendering: the JSX markup, CSS classes and previews (src/App.js:51-127) are UI. Only the guards of the compress and download buttons are kept, as preconditions. The quality selector and the "Upload New Image" button are also rendered only while an image is selected (src/App.js:76-86, src/App.js:115-124). Their handlers are modelled as callable in any state, which covers more states than the page allows.
- The canvas, the `Image` decode, `drawImage` and the `toBlob` encode (src/App.js:27-38) are host-browser codecs. The decoded dimensions are a parameter, and the blob is an opaque handle. Whether the encoder answers with a blob or with null is the caller's choice, so the model does not tie null to a zero-sized canvas.
- `URL.createObjectURL` and the anchor `click()` (src/App.js:38, src/App.js:102-105) are browser I/O.
- The `accept` attribute of the file input (src/App.js:58) is a hint to the browser's picker, not a check the component makes.
- App.QualityPercent: covers only strings of decimal digits, the empty string included (0). JavaScript's other string-to-number coercions (surrounding whitespace, signs, fractions, exponents, hexadecimal, NaN) are not modelled. The floating-point value `quality / 100` is represented as an integer percent.
- A missing `type` property of a file behaves like any string outside the allow-list. It is not modelled separately.
- The timing of the asynchronous callback and React's batching of state updates are left out. `OnBlobReady` may be called at any point, so the stale-callback race is included but not scheduled.
