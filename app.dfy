/**
 * The `ImageCompressor` component of src/App.js: its four pieces of state,
 * the file-pick validator, the pure effect of each handler on the state, and
 * a class whose fields and methods mirror the component's `useState` fields
 * and handlers.
 */
module App {
  import opened Options

  // The fixed strings of the component.
  const InvalidFileMessage: string := "Invalid file"
  const UnsupportedTypeMessage: string := "Only JPEG, PNG, SVG and GIF files are allowed"
  const AllowedMimeTypes: set<string> := {"image/jpeg", "image/png", "image/svg+xml", "image/gif"}
  const EncodeMimeType: string := "image/jpeg"
  const DefaultQuality: string := "50"
  const QualityOptions: seq<string> := ["80", "50", "10"]
  const DownloadFileName: string := "compressed-image.jpg"

  /**
   * A picked file as the handler reads it. The `name` and `size` properties
   * may be missing; `handle` stands for the file's opaque contents.
   */
  datatype File = File(name: Option<string>, size: Option<int>, mimeType: string, handle: nat)

  /** The encoder's output, opaque to the component. */
  datatype Blob = Blob(handle: nat)

  /** The natural dimensions the host decoder reports for the selected image. */
  datatype Dimensions = Dimensions(width: nat, height: nat)

  /**
   * What the component asks the host encoder for: a MIME type, a quality as
   * an integer percent (the encoder receives percent / 100), and the canvas
   * size.
   */
  datatype EncodeRequest = EncodeRequest(mimeType: string, qualityPercent: Option<nat>, width: nat, height: nat)

  /** The file offered by the download button. */
  datatype Download = Download(fileName: string, blob: Blob)

  /** The four `useState` fields of the component. */
  datatype State = State(selectedImage: Option<File>, compressedImage: Option<Blob>, error: Option<string>, quality: string)

  /** The two ways a picked file is refused. */
  datatype Rejection = MissingFileMetadata | UnsupportedType

  /** The state on first render. */
  function Initial(): (s: State)
    ensures WellFormed(s) && s.quality == DefaultQuality && s.quality in QualityOptions
    ensures s.selectedImage.None? && s.compressedImage.None? && s.error.None?
  {
    State(None, None, None, DefaultQuality)
  }

  // JavaScript truthiness of the two metadata properties: a missing or empty
  // name is falsy, and so is a missing or zero size.
  predicate IsTruthyName(name: Option<string>) { name.Some? && name.value != "" }

  predicate IsTruthySize(size: Option<int>) { size.Some? && size.value != 0 }

  predicate HasFileMetadata(f: File) { IsTruthyName(f.name) && IsTruthySize(f.size) }

  /** The MIME allow-list test of the file picker. */
  function IsAllowedMimeType(t: string): (allowed: bool)
    ensures allowed <==> t in AllowedMimeTypes
  {
    t == "image/jpeg" || t == "image/png" || t == "image/svg+xml" || t == "image/gif"
  }

  /** The ordered checks on a picked file: metadata first, then the type. */
  function Validate(f: File): (r: Option<Rejection>)
    ensures r.None? <==> HasFileMetadata(f) && f.mimeType in AllowedMimeTypes
    ensures r == Some(MissingFileMetadata) <==> !HasFileMetadata(f)
    ensures r == Some(UnsupportedType) <==> HasFileMetadata(f) && f.mimeType !in AllowedMimeTypes
  {
    if !HasFileMetadata(f) then Some(MissingFileMetadata)
    else if !IsAllowedMimeType(f.mimeType) then Some(UnsupportedType)
    else None
  }

  /** The message shown for each rejection; distinct rejections read differently. */
  function Message(kind: Rejection): (m: string)
    ensures m == InvalidFileMessage <==> kind == MissingFileMetadata
    ensures m == UnsupportedTypeMessage <==> kind == UnsupportedType
  {
    match kind
    case MissingFileMetadata => InvalidFileMessage
    case UnsupportedType => UnsupportedTypeMessage
  }

  predicate Acceptable(f: File) { Validate(f).None? }

  /**
   * What every reachable state satisfies: a selected image passed the
   * validator, and an error is one of the two fixed messages.
   */
  predicate WellFormed(s: State) {
    && (s.selectedImage.Some? ==> Acceptable(s.selectedImage.value))
    && (s.error.Some? ==> s.error.value == InvalidFileMessage || s.error.value == UnsupportedTypeMessage)
  }

  /** The file the change event carries: the first entry of a present, non-empty file list. */
  function PickedFile(files: Option<seq<File>>): (f: Option<File>)
    ensures f.Some? <==> files.Some? && |files.value| > 0
    ensures f.Some? ==> f.value == files.value[0]
  {
    if files.Some? && |files.value| > 0 then Some(files.value[0]) else None
  }

  /**
   * The effect of a file pick. Without a file nothing changes; otherwise the
   * error says exactly which check failed, an accepted file becomes the
   * selection, a refused one leaves the selection as it was, and the
   * compressed result and the quality are never touched.
   */
  function ImageChanged(s: State, files: Option<seq<File>>): (r: State)
    ensures r.compressedImage == s.compressedImage && r.quality == s.quality
    ensures PickedFile(files).None? ==> r == s
    ensures PickedFile(files).Some? ==>
      var f := PickedFile(files).value;
      && (r.error.None? <==> HasFileMetadata(f) && f.mimeType in AllowedMimeTypes)
      && (r.error == Some(InvalidFileMessage) <==> !HasFileMetadata(f))
      && (r.error == Some(UnsupportedTypeMessage) <==> HasFileMetadata(f) && f.mimeType !in AllowedMimeTypes)
      && r.selectedImage == (if r.error.None? then Some(f) else s.selectedImage)
    ensures WellFormed(s) ==> WellFormed(r)
  {
    match PickedFile(files)
    case None => s
    case Some(f) =>
      match Validate(f)
      case None => s.(selectedImage := Some(f), error := None)
      case Some(kind) => s.(error := Some(Message(kind)))
  }

  /** The effect of "Upload New Image": everything but the quality is cleared. */
  function UploadNewImage(s: State): (r: State)
    ensures r.selectedImage.None? && r.compressedImage.None? && r.error.None?
    ensures r.quality == s.quality
    ensures WellFormed(r) && DownloadOffer(r).None?
  {
    s.(selectedImage := None, compressedImage := None, error := None)
  }

  /** The effect of the quality selector: the value is stored as given, unchecked. */
  function QualityChanged(s: State, value: string): (r: State)
    ensures r.quality == value
    ensures r.selectedImage == s.selectedImage && r.compressedImage == s.compressedImage && r.error == s.error
    ensures WellFormed(s) ==> WellFormed(r)
  {
    s.(quality := value)
  }

  /**
   * The effect of the encoder's completion callback, whenever it runs. The
   * encoder passes null when it cannot produce a blob (a canvas of zero width
   * or height, or a failed encode), and the callback stores that too, which
   * clears an earlier result.
   */
  function BlobStored(s: State, blob: Option<Blob>): (r: State)
    ensures r.compressedImage == blob
    ensures r.selectedImage == s.selectedImage && r.error == s.error && r.quality == s.quality
    ensures WellFormed(s) ==> WellFormed(r)
    ensures blob.None? ==> DownloadOffer(r).None?
  {
    s.(compressedImage := blob)
  }

  // The numeric value of the quality string. JavaScript coerces the string
  // when it divides it by 100; the model covers strings of decimal digits.
  predicate IsDigits(q: string) { forall i :: 0 <= i < |q| ==> '0' <= q[i] <= '9' }

  /** The value of a string of decimal digits, most significant first. */
  function DecimalValue(q: string): (n: nat)
    requires IsDigits(q)
  {
    if q == [] then 0
    else
      var d := (q[|q| - 1] - '0') as nat;
      var m := DecimalValue(q[..|q| - 1]);
      10 * m + d
  }

  /** Leading zeros do not change the value, as in "050". */
  lemma {:induction false} LeadingZeroIgnored(q: string)
    requires IsDigits(q)
    ensures IsDigits("0" + q) && DecimalValue("0" + q) == DecimalValue(q)
  {
    var z := "0" + q;
    if q == [] {
      assert z[..0] == [];
    } else {
      assert z[|z| - 1] == q[|q| - 1];
      assert z[..|z| - 1] == "0" + q[..|q| - 1];
      LeadingZeroIgnored(q[..|q| - 1]);
    }
  }

  /**
   * The quality as an integer percent, when the string is made of decimal
   * digits; the empty string counts as 0, as JavaScript coerces it.
   */
  function QualityPercent(q: string): (p: Option<nat>)
    ensures p.Some? <==> IsDigits(q)
    ensures q == "" ==> p == Some(0)
  {
    if IsDigits(q) then Some(DecimalValue(q)) else None
  }

  /** A leading zero never changes the percent, nor whether there is one. */
  lemma QualityPercentLeadingZero(q: string)
    ensures QualityPercent("0" + q) == QualityPercent(q)
  {
    if IsDigits(q) {
      LeadingZeroIgnored(q);
    } else {
      var i :| 0 <= i < |q| && !('0' <= q[i] <= '9');
      assert ("0" + q)[i + 1] == q[i];
    }
  }

  /**
   * The encode request made by "Compress Image": always JPEG, at the current
   * quality, on a canvas exactly the size of the decoded image. The button is
   * only shown while an image is selected.
   */
  function CompressRequest(s: State, decoded: Dimensions): (r: EncodeRequest)
    requires s.selectedImage.Some?
    ensures r.mimeType == EncodeMimeType
    ensures r.qualityPercent == QualityPercent(s.quality)
    ensures r.width == decoded.width && r.height == decoded.height
  {
    EncodeRequest(EncodeMimeType, QualityPercent(s.quality), decoded.width, decoded.height)
  }

  /**
   * The download on offer. The button is rendered inside both the
   * selected-image block and the compressed-image block, so it needs both.
   */
  function DownloadOffer(s: State): (d: Option<Download>)
    ensures d.Some? <==> s.selectedImage.Some? && s.compressedImage.Some?
    ensures d.Some? ==> d.value.fileName == DownloadFileName && d.value.blob == s.compressedImage.value
  {
    if s.selectedImage.Some? && s.compressedImage.Some? then
      Some(Download(DownloadFileName, s.compressedImage.value))
    else None
  }

  /** The component, with one method per handler. */
  class ImageCompressor {
    var selectedImage: Option<File>
    var compressedImage: Option<Blob>
    var error: Option<string>
    var quality: string

    function Snapshot(): State
      reads this
    {
      State(selectedImage, compressedImage, error, quality)
    }

    constructor ()
      ensures Snapshot() == Initial()
    {
      selectedImage := None;
      compressedImage := None;
      error := None;
      quality := DefaultQuality;
    }

    /** `handleImageChange`: validate the picked file and record the outcome. */
    method HandleImageChange(files: Option<seq<File>>)
      modifies this`selectedImage, this`error
      ensures Snapshot() == ImageChanged(old(Snapshot()), files)
    {
      if files.Some? && |files.value| > 0 {
        var file := files.value[0];
        if IsTruthyName(file.name) && IsTruthySize(file.size) {
          if IsAllowedMimeType(file.mimeType) {
            selectedImage := Some(file);
            error := None;
          } else {
            error := Some(UnsupportedTypeMessage);
          }
        } else {
          error := Some(InvalidFileMessage);
        }
      }
    }

    /**
     * `handleCompressImage`: nothing changes when it is called; it hands the
     * decoded image to the encoder with this request. The result arrives
     * later through OnBlobReady.
     */
    method HandleCompressImage(decoded: Dimensions) returns (request: EncodeRequest)
      requires selectedImage.Some?
      ensures request == CompressRequest(Snapshot(), decoded)
    {
      request := EncodeRequest(EncodeMimeType, QualityPercent(quality), decoded.width, decoded.height);
    }

    /** The `toBlob` callback: store the encoder's result, null included. */
    method OnBlobReady(blob: Option<Blob>)
      modifies this`compressedImage
      ensures Snapshot() == BlobStored(old(Snapshot()), blob)
    {
      compressedImage := blob;
    }

    /** `handleUploadNewImage`. */
    method HandleUploadNewImage()
      modifies this`selectedImage, this`compressedImage, this`error
      ensures Snapshot() == UploadNewImage(old(Snapshot()))
    {
      selectedImage := None;
      compressedImage := None;
      error := None;
    }

    /** `handleQualityChange`. */
    method HandleQualityChange(value: string)
      modifies this`quality
      ensures Snapshot() == QualityChanged(old(Snapshot()), value)
    {
      quality := value;
    }

    /** The download button's click handler, which exists only while it is rendered. */
    method DownloadCompressed() returns (d: Download)
      requires selectedImage.Some? && compressedImage.Some?
      ensures DownloadOffer(Snapshot()) == Some(d)
    {
      d := Download(DownloadFileName, compressedImage.value);
    }
  }
}
