/** The pure parts of gym-server/server.js: the delay before the first nightly
    subscription check and the times of the later runs, the content type of an uploaded
    image, and the answers of the uploads and receipts routes once it is known whether the
    requested file exists. Local time is `day * DayMillis + msOfDay`, with no daylight
    saving shifts. */
module GymServer {
  import opened Text
  import opened Clock
  import opened NodePath
  import opened UserModel
  import opened PdfService

  /** `scheduleSubscriptionCheck`: the time from `now` to 00:00 of the next day. */
  function TimeToMidnight(now: int): (delay: int)
    ensures 0 < delay <= DayMillis
    ensures (now + delay) % DayMillis == 0
  {
    DayMillis - now % DayMillis
  }

  /** `now + delay` is the start of the day after the day of `now`... */
  lemma MidnightIsNextDay(now: int)
    ensures now + TimeToMidnight(now) == (now / DayMillis + 1) * DayMillis
  {
  }

  /** ...and no midnight lies strictly between `now` and it. */
  lemma MidnightIsFirst(now: int, day: int)
    requires now < day * DayMillis
    ensures now + TimeToMidnight(now) <= day * DayMillis
  {
    MidnightIsNextDay(now);
    var q := now / DayMillis;
    assert q * DayMillis <= now;
    assert q < day by {
      assert q * DayMillis < day * DayMillis;
    }
    assert (q + 1) * DayMillis <= day * DayMillis;
  }

  /** Run `n` (counting from 0) of `checkExpiredSubscriptions`: the first when the delay
      has elapsed, then one every 24 hours. */
  function RunTime(now: int, n: nat): int {
    now + TimeToMidnight(now) + n * DayMillis
  }

  /** Every run falls on a midnight, the first within a day of `now`, and consecutive
      runs are a day apart. */
  lemma RunsAtMidnight(now: int, n: nat)
    ensures RunTime(now, n) % DayMillis == 0
    ensures now < RunTime(now, 0) <= now + DayMillis
    ensures RunTime(now, n + 1) == RunTime(now, n) + DayMillis
  {
    MidnightIsNextDay(now);
    assert RunTime(now, n) == (now / DayMillis + 1 + n) * DayMillis;
  }

  /** The content-type table of the uploads route, with its fall-back. */
  function ContentType(ext: string): string {
    if ext == ".jpg" || ext == ".jpeg" then "image/jpeg"
    else if ext == ".png" then "image/png"
    else if ext == ".gif" then "image/gif"
    else "application/octet-stream"
  }

  /** The content type an existing upload is served with: the table looked up with the
      lower-cased extension. */
  function UploadContentType(filePath: string): (r: string)
    ensures r in {"image/jpeg", "image/png", "image/gif", "application/octet-stream"}
  {
    ContentType(ToLower(ExtName(filePath)))
  }

  /** The four answers of the table, each exactly for its extensions in any letter case. */
  lemma UploadContentTypeCases(filePath: string)
    ensures UploadContentType(filePath) == "image/jpeg" <==> ToLower(ExtName(filePath)) in {".jpg", ".jpeg"}
    ensures UploadContentType(filePath) == "image/png" <==> ToLower(ExtName(filePath)) == ".png"
    ensures UploadContentType(filePath) == "image/gif" <==> ToLower(ExtName(filePath)) == ".gif"
    ensures UploadContentType(filePath) == "application/octet-stream" <==>
      ToLower(ExtName(filePath)) !in {".jpg", ".jpeg", ".png", ".gif"}
  {
  }

  /** An upload stored as `stem.JPG` is served as JPEG: the extension is matched
      without regard to case. */
  lemma UploadContentTypeIgnoresCase(stem: string)
    requires stem != [] && stem[0] != '.' && '/' !in stem
    ensures UploadContentType(stem + ".JPG") == "image/jpeg"
  {
    ExtNameOf(stem, ".JPG");
    var lower := ToLower(".JPG");
    assert lower[0] == '.' && lower[1] == 'j' && lower[2] == 'p' && lower[3] == 'g';
    assert lower == ".jpg";
  }

  datatype UploadResponse =
    | ServeUpload(contentType: string)   // headers set, the static handler sends the file
    | ServeDefaultAvatar(contentType: string)   // sends public/default-avatar.png
    | ImageNotFound(status: nat, message: string)

  /** The uploads route, given whether the requested file and the default avatar exist. */
  function UploadsRoute(filePath: string, fileExists: bool, avatarExists: bool): (r: UploadResponse)
    ensures fileExists <==> r.ServeUpload?
    ensures r.ServeUpload? ==> r.contentType == UploadContentType(filePath)
    ensures r.ServeDefaultAvatar? <==> !fileExists && avatarExists
    ensures r.ServeDefaultAvatar? ==> r.contentType == "image/png"
    ensures r.ImageNotFound? ==> r.status == 404 && r.message == "Image not found"
  {
    if fileExists then ServeUpload(UploadContentType(filePath))
    else if avatarExists then ServeDefaultAvatar("image/png")
    else ImageNotFound(404, "Image not found")
  }

  datatype ReceiptResponse =
    | ServePdf(contentType: string, disposition: string)
    | ReceiptNotFound(status: nat, message: string)

  /** The receipts route, given whether the requested file exists. */
  function ReceiptsRoute(filePath: string, fileExists: bool): (r: ReceiptResponse)
    ensures fileExists <==> r.ServePdf?
    ensures r.ServePdf? ==>
      r.contentType == "application/pdf" &&
      r.disposition == "attachment; filename=\"" + BaseName(filePath) + "\""
    ensures r.ReceiptNotFound? ==> r.status == 404 && r.message == "Receipt not found"
  {
    if fileExists then ServePdf("application/pdf", "attachment; filename=\"" + BaseName(filePath) + "\"")
    else ReceiptNotFound(404, "Receipt not found")
  }

  /** A receipt that `generateReceipt` wrote is offered for download under its own file
      name: the route joins the receipts directory and the part of the URL after
      "/receipts". */
  lemma ReceiptDownloadedUnderItsName(dir: string, id: Id, millis: nat)
    requires '/' !in id
    ensures ReceiptUrl(ReceiptFileName(id, millis)) == "/receipts/" + ReceiptFileName(id, millis)
    ensures ReceiptsRoute(dir + "/" + ReceiptFileName(id, millis), true) ==
      ServePdf("application/pdf", "attachment; filename=\"" + ReceiptFileName(id, millis) + "\"")
  {
    var name := ReceiptFileName(id, millis);
    ReceiptFileNameHasNoSlash(id, millis);
    BaseNameOfName(dir, name);
  }

  lemma ReceiptFileNameHasNoSlash(id: Id, millis: nat)
    requires '/' !in id
    ensures ReceiptFileName(id, millis) != [] && '/' !in ReceiptFileName(id, millis)
  {
    var digits := NatToString(millis);
    var name := ReceiptFileName(id, millis);
    assert name == "receipt-" + id + "-" + digits + ".pdf";
    assert '/' !in digits by {
      assert forall k :: 0 <= k < |digits| ==> IsDigit(digits[k]);
    }
  }
}
