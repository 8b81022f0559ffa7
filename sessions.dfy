/**
 * Sessions of the component: any sequence of handler calls, starting from a
 * given state, and what stays true along the way. Compressing is not an event
 * here because it changes no state; its result arrives as EncodeDone, which
 * may come at any time, also after the selection it was made for is gone.
 */
module Sessions {
  import opened Options
  import opened App

  datatype Event =
    | PickFiles(files: Option<seq<File>>)
    | UploadNew
    | SelectQuality(value: string)
    | EncodeDone(blob: Option<Blob>)

  /** One handler call. */
  function Step(s: State, e: Event): (r: State)
    ensures WellFormed(s) ==> WellFormed(r)
    ensures !e.SelectQuality? ==> r.quality == s.quality
    ensures e.SelectQuality? ==> r.quality == e.value
  {
    match e
    case PickFiles(files) => ImageChanged(s, files)
    case UploadNew => UploadNewImage(s)
    case SelectQuality(value) => QualityChanged(s, value)
    case EncodeDone(blob) => BlobStored(s, blob)
  }

  /** The state after the given handler calls, in order. */
  function Run(s: State, events: seq<Event>): State
    decreases |events|
  {
    if events == [] then s else Run(Step(s, events[0]), events[1..])
  }

  lemma {:induction false} RunAppend(s: State, a: seq<Event>, b: seq<Event>)
    ensures Run(s, a + b) == Run(Run(s, a), b)
    decreases |a|
  {
    if a != [] {
      assert (a + b)[0] == a[0];
      assert (a + b)[1..] == a[1..] + b;
      RunAppend(Step(s, a[0]), a[1..], b);
    } else {
      assert a + b == b;
    }
  }

  /** Every handler keeps the invariant, so every session does. */
  lemma {:induction false} RunPreservesWellFormed(s: State, events: seq<Event>)
    requires WellFormed(s)
    ensures WellFormed(Run(s, events))
    decreases |events|
  {
    if events != [] {
      RunPreservesWellFormed(Step(s, events[0]), events[1..]);
    }
  }

  /** Every state a session reaches from the first render is well formed. */
  lemma ReachableWellFormed(events: seq<Event>)
    ensures WellFormed(Run(Initial(), events))
  {
    RunPreservesWellFormed(Initial(), events);
  }

  /** The selector offers 80, 50 and 10. */
  predicate OffersOnly(events: seq<Event>) {
    forall i :: 0 <= i < |events| && events[i].SelectQuality? ==> events[i].value in QualityOptions
  }

  /**
   * The quality is only ever what the selector offers, as long as every
   * quality change carries one of its options; the handler itself checks
   * nothing.
   */
  lemma {:induction false} RunKeepsOfferedQuality(s: State, events: seq<Event>)
    requires s.quality in QualityOptions && OffersOnly(events)
    ensures Run(s, events).quality in QualityOptions
    decreases |events|
  {
    if events != [] {
      assert OffersOnly(events[1..]) by {
        forall i | 0 <= i < |events| - 1 && events[1..][i].SelectQuality?
          ensures events[1..][i].value in QualityOptions
        {
          assert events[1..][i] == events[i + 1];
        }
      }
      RunKeepsOfferedQuality(Step(s, events[0]), events[1..]);
    }
  }

  /** Each option of the selector is a percent between 0 and 100. */
  lemma OfferedQualityPercents()
    ensures QualityPercent("80") == Some(80)
    ensures QualityPercent("50") == Some(50)
    ensures QualityPercent("10") == Some(10)
    ensures forall q :: q in QualityOptions ==> QualityPercent(q).Some? && QualityPercent(q).value <= 100
  {
    assert "80"[..1] == "8" && "50"[..1] == "5" && "10"[..1] == "1";
    assert "8"[..0] == "" && "5"[..0] == "" && "1"[..0] == "";
  }

  /** A quality change followed by another keeps only the second. */
  lemma QualityLastWins(s: State, a: string, b: string)
    ensures QualityChanged(QualityChanged(s, a), b) == QualityChanged(s, b)
  {
  }

  /** Upload New Image a second time changes nothing more. */
  lemma UploadNewImageIdempotent(s: State)
    ensures UploadNewImage(UploadNewImage(s)) == UploadNewImage(s)
  {
  }

  /**
   * A stale result: compress is clicked, the selection is cleared before the
   * encoder is done, and the late callback still stores its blob. The state
   * then has a result but no selection, and no download is offered.
   */
  lemma StaleResultAfterUpload(f: File, b: Blob)
    requires Acceptable(f)
    ensures
      var r := Run(Initial(), [PickFiles(Some([f])), UploadNew, EncodeDone(Some(b))]);
      r.selectedImage.None? && r.compressedImage == Some(b) && DownloadOffer(r).None?
  {
    var events := [PickFiles(Some([f])), UploadNew, EncodeDone(Some(b))];
    assert events == [events[0]] + [events[1]] + [events[2]];
    RunAppend(Initial(), [events[0]] + [events[1]], [events[2]]);
    RunAppend(Initial(), [events[0]], [events[1]]);
  }

  /**
   * A valid new pick keeps the earlier result: after compressing one image
   * and picking another, the download still offers the first image's blob.
   */
  lemma NewPickKeepsEarlierResult(a: File, c: File, b: Blob)
    requires Acceptable(a) && Acceptable(c)
    ensures
      var r := Run(Initial(), [PickFiles(Some([a])), EncodeDone(Some(b)), PickFiles(Some([c]))]);
      r.selectedImage == Some(c) && DownloadOffer(r) == Some(Download(DownloadFileName, b))
  {
    var events := [PickFiles(Some([a])), EncodeDone(Some(b)), PickFiles(Some([c]))];
    assert events == [events[0]] + [events[1]] + [events[2]];
    RunAppend(Initial(), [events[0]] + [events[1]], [events[2]]);
    RunAppend(Initial(), [events[0]], [events[1]]);
  }

  /**
   * A failed encode clears the result of an earlier one: after a blob for the
   * picked file, a callback with null leaves no result and no download, and
   * the state stays well formed.
   */
  lemma NullBlobClearsResult(f: File, b: Blob)
    requires Acceptable(f)
    ensures
      var r := Run(Initial(), [PickFiles(Some([f])), EncodeDone(Some(b)), EncodeDone(None)]);
      r.selectedImage == Some(f) && r.compressedImage.None? && DownloadOffer(r).None? && WellFormed(r)
  {
    var events := [PickFiles(Some([f])), EncodeDone(Some(b)), EncodeDone(None)];
    assert events == [events[0]] + [events[1]] + [events[2]];
    RunAppend(Initial(), [events[0]] + [events[1]], [events[2]]);
    RunAppend(Initial(), [events[0]], [events[1]]);
    ReachableWellFormed(events);
  }

  /**
   * The whole flow on the component itself: pick a 200 by 100 JPEG, keep the
   * default quality, compress, receive the blob and download it.
   */
  method CompressAndDownload(photo: File, blob: Blob) returns (request: EncodeRequest, download: Download)
    requires photo.mimeType == "image/jpeg" && HasFileMetadata(photo)
    ensures request == EncodeRequest("image/jpeg", Some(50), 200, 100)
    ensures download == Download("compressed-image.jpg", blob)
  {
    var app := new ImageCompressor();
    app.HandleImageChange(Some([photo]));
    assert app.selectedImage == Some(photo);
    request := app.HandleCompressImage(Dimensions(200, 100));
    OfferedQualityPercents();
    app.OnBlobReady(Some(blob));
    download := app.DownloadCompressed();
  }
}
