/**
 * The upload endpoint of app/api/upload/route.ts: two input checks, then one
 * stored file and one public URL per uploaded file, in input order. Decoding,
 * resizing, re-encoding and writing a file is one opaque step whose success the
 * environment decides, as are the clock and the random suffix.
 */
module UploadRoute {
  import opened Wrappers
  import Text

  /** An uploaded file, as far as naming goes: the name the client sent. */
  datatype UploadFile = UploadFile(name: string)

  /**
   * What the environment supplies while the k-th file is handled: `Date.now()`,
   * the `Math.random()` suffix, and whether the image step and the write succeeded.
   */
  datatype FileDraw = FileDraw(timestamp: nat, suffix: string, stored: bool)

  /** The JSON answer: the URLs with a message, or an HTTP status with an error. */
  datatype Response =
    | Uploaded(message: string, imageUrls: seq<string>)
    | Failed(status: nat, error: string)

  const NoFiles := "No files received"
  const NoSlug := "No event slug provided"
  const UploadFailed := "Failed to upload files"
  const UploadsPrefix := "/uploads/"

  /** `file.name.split('.')[0]`: the name up to its first dot. */
  function BaseName(fileName: string): (r: string)
    ensures '.' !in r && r <= fileName
    ensures r == fileName <==> '.' !in fileName
    ensures r != fileName ==> fileName[|r|] == '.'
  {
    Text.TakeUntil(fileName, '.')
  }

  /** `${timestamp}-${randomSuffix}-${originalName}.jpg`: always ends in `.jpg`. */
  function FileName(timestamp: nat, suffix: string, fileName: string): (r: string)
    ensures |r| >= 4 && r[|r| - 4..] == ".jpg"
  {
    Text.Decimal(timestamp) + "-" + suffix + "-" + BaseName(fileName) + ".jpg"
  }

  /** The timestamp can be read back from a file name: it is the part before the first `-`. */
  lemma FileNameTimestamp(timestamp: nat, suffix: string, fileName: string)
    ensures var prefix := Text.TakeUntil(FileName(timestamp, suffix, fileName), '-');
      Text.AllDigits(prefix) && Text.DecimalValue(prefix) == timestamp
  {
    var digits := Text.Decimal(timestamp);
    var rest := suffix + "-" + BaseName(fileName) + ".jpg";
    assert '-' !in digits by {
      forall i | 0 <= i < |digits| ensures digits[i] != '-' {
        assert Text.IsDigit(digits[i]);
      }
    }
    assert FileName(timestamp, suffix, fileName) == digits + ['-'] + rest;
    Text.TakeUntilSeparated(digits, '-', rest);
    Text.DecimalRoundTrip(timestamp);
  }

  /** `/uploads/${eventSlug}/${filename}`. */
  function ImageUrl(eventSlug: string, filename: string): (r: string)
    ensures |r| > |UploadsPrefix| + |filename|
    ensures r[..|UploadsPrefix|] == UploadsPrefix && r[|r| - |filename|..] == filename
  {
    UploadsPrefix + eventSlug + "/" + filename
  }

  /** The event slug can be read back from a URL: it is the path segment after `/uploads/`. */
  lemma UrlNamesEvent(eventSlug: string, filename: string)
    requires '/' !in eventSlug
    ensures Text.TakeUntil(ImageUrl(eventSlug, filename)[|UploadsPrefix|..], '/') == eventSlug
  {
    var r := ImageUrl(eventSlug, filename);
    assert r[|UploadsPrefix|..] == eventSlug + ['/'] + filename;
    Text.TakeUntilSeparated(eventSlug, '/', filename);
  }

  /** The URL the k-th file gets. */
  function UrlFor(eventSlug: string, files: seq<UploadFile>, draw: nat -> FileDraw, k: nat): string
    requires k < |files|
  {
    ImageUrl(eventSlug, FileName(draw(k).timestamp, draw(k).suffix, files[k].name))
  }

  /**
   * The loop over `files` (app/api/upload/route.ts:28-57): each file is named,
   * stored and its URL pushed, in input order; the first file whose step fails
   * aborts the whole batch.
   */
  method StoreFiles(eventSlug: string, files: seq<UploadFile>, draw: nat -> FileDraw)
    returns (ok: bool, uploadedImages: seq<string>)
    ensures ok <==> forall k | 0 <= k < |files| :: draw(k).stored
    ensures ok ==> |uploadedImages| == |files|
    ensures ok ==> forall k | 0 <= k < |files| :: uploadedImages[k] == UrlFor(eventSlug, files, draw, k)
  {
    uploadedImages := [];
    for k := 0 to |files|
      invariant |uploadedImages| == k
      invariant forall j | 0 <= j < k :: draw(j).stored
      invariant forall j | 0 <= j < k :: uploadedImages[j] == UrlFor(eventSlug, files, draw, j)
    {
      var d := draw(k);
      var filename := FileName(d.timestamp, d.suffix, files[k].name);
      if !d.stored {
        return false, uploadedImages;
      }
      var imageUrl := ImageUrl(eventSlug, filename);
      assert imageUrl == UrlFor(eventSlug, files, draw, k);
      uploadedImages := uploadedImages + [imageUrl];
    }
    ok := true;
  }

  /**
   * POST /api/upload (app/api/upload/route.ts:6-67). `dirReady` is the outcome
   * of creating the event's upload directory; `draw(k)` is what the
   * environment supplies for the k-th file.
   */
  method Post(files: seq<UploadFile>, eventSlug: Option<string>, dirReady: bool, draw: nat -> FileDraw)
    returns (r: Response)
    ensures |files| == 0 ==> r == Failed(400, NoFiles)
    ensures |files| > 0 && !Given(eventSlug) ==> r == Failed(400, NoSlug)
    ensures |files| > 0 && Given(eventSlug) ==>
      (r.Uploaded? <==> dirReady && forall k | 0 <= k < |files| :: draw(k).stored)
    ensures |files| > 0 && Given(eventSlug) && r.Failed? ==> r == Failed(500, UploadFailed)
    ensures r.Uploaded? ==>
      && |r.imageUrls| == |files|
      && (forall k | 0 <= k < |files| :: r.imageUrls[k] == UrlFor(eventSlug.value, files, draw, k))
      && r.message == Text.Decimal(|files|) + " files uploaded successfully"
  {
    if |files| == 0 {
      return Failed(400, NoFiles);
    }
    if !Given(eventSlug) {
      return Failed(400, NoSlug);
    }
    if !dirReady {
      return Failed(500, UploadFailed);
    }
    var ok, uploadedImages := StoreFiles(eventSlug.value, files, draw);
    if !ok {
      return Failed(500, UploadFailed);
    }
    var message := Text.Decimal(|uploadedImages|) + " files uploaded successfully";
    return Uploaded(message, uploadedImages);
  }
}
