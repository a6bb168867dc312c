/** The upload middleware of middleware/upload.js: the name a photo is stored under, the
    file filter multer runs before storing it, and the error handler that turns an
    upload failure into a response. The clock and the random suffix are parameters. */
module Upload {
  import opened Text
  import opened NodePath
  import opened UserModel

  /** `MAX_FILE_SIZE`, 2 MB in bytes. */
  const MaxFileSize: nat := 2 * 1024 * 1024

  /** The characters the sanitiser keeps: ASCII letters, digits and '.'. */
  predicate Kept(c: char) {
    IsAsciiLetter(c) || IsDigit(c) || c == '.'
  }

  /** A character that may appear in a sanitised name. */
  predicate SafeChar(c: char) {
    Kept(c) || c == '_'
  }

  /** `originalname.replace(/[^a-zA-Z0-9.]/g, '_')`. */
  function Sanitize(name: string): (r: string)
    ensures |r| == |name|
    ensures forall i :: 0 <= i < |name| ==> SafeChar(r[i])
    ensures forall i :: 0 <= i < |name| && Kept(name[i]) ==> r[i] == name[i]
    ensures forall i :: 0 <= i < |name| && !Kept(name[i]) ==> r[i] == '_'
  {
    seq(|name|, i requires 0 <= i < |name| => if Kept(name[i]) then name[i] else '_')
  }

  /** A name of kept characters only is its own sanitised form... */
  lemma SanitizeKeepsSafeNames(name: string)
    requires forall i :: 0 <= i < |name| ==> Kept(name[i])
    ensures Sanitize(name) == name
  {
  }

  /** ...and sanitising twice is sanitising once. */
  lemma SanitizeIdempotent(name: string)
    ensures Sanitize(Sanitize(name)) == Sanitize(name)
  {
    var once := Sanitize(name);
    var twice := Sanitize(once);
    forall i | 0 <= i < |name|
      ensures twice[i] == once[i]
    {
      if !Kept(once[i]) {
        assert once[i] == '_';
      }
    }
  }

  /** `uniqueSuffix + '-' + sanitizedFilename` with `uniqueSuffix = Date.now() + '-' +
      Math.round(Math.random() * 1E9)`. */
  function StoredFileName(millis: nat, random: nat, originalName: string): (r: string)
    ensures '/' !in r
  {
    var r := NatToString(millis) + "-" + NatToString(random) + "-" + Sanitize(originalName);
    assert forall i :: 0 <= i < |r| ==> IsDigit(r[i]) || r[i] == '-' || SafeChar(r[i]) by {
      var a, b := NatToString(millis), NatToString(random);
      forall i | 0 <= i < |r|
        ensures IsDigit(r[i]) || r[i] == '-' || SafeChar(r[i])
      {
        if i < |a| {
          assert r[i] == a[i];
        } else if i == |a| {
        } else if i < |a| + 1 + |b| {
          assert r[i] == b[i - |a| - 1];
        } else if i == |a| + 1 + |b| {
        } else {
          assert r[i] == Sanitize(originalName)[i - |a| - |b| - 2];
        }
      }
    }
    r
  }

  /** Cuts a stored name at its first two '-': the instant, the random suffix and the
      sanitised original name, with empty pieces for missing separators. */
  function SplitStoredName(name: string): (string, string, string) {
    var i := IndexOfFrom(name, '-', 0);
    if i == |name| then (name, "", "")
    else
      var j := IndexOfFrom(name, '-', i + 1);
      if j == |name| then (name[..i], name[i + 1..], "")
      else (name[..i], name[i + 1..j], name[j + 1..])
  }

  /** The stored name gives back the instant, the random suffix and the sanitised
      original name: the first two '-' end the two numbers, which have no '-'. */
  lemma SplitStoredFileName(millis: nat, random: nat, originalName: string)
    ensures SplitStoredName(StoredFileName(millis, random, originalName)) ==
      (NatToString(millis), NatToString(random), Sanitize(originalName))
  {
    var a, b, c := NatToString(millis), NatToString(random), Sanitize(originalName);
    assert StoredFileName(millis, random, originalName) == a + "-" + b + "-" + c;
    SplitJoinedName(a, b, c);
  }

  /** Two runs of digits and a rest, joined by '-', are cut back into those three. */
  lemma SplitJoinedName(a: string, b: string, c: string)
    requires forall k :: 0 <= k < |a| ==> IsDigit(a[k])
    requires forall k :: 0 <= k < |b| ==> IsDigit(b[k])
    ensures SplitStoredName(a + "-" + b + "-" + c) == (a, b, c)
  {
    var r := a + "-" + b + "-" + c;
    forall k | 0 <= k < |a|
      ensures IsDigit(r[k])
    {
      assert r[k] == a[k];
    }
    DashAfterDigits(r, 0, |a|);
    forall k | |a| + 1 <= k < |a| + 1 + |b|
      ensures IsDigit(r[k])
    {
      assert r[k] == b[k - |a| - 1];
    }
    DashAfterDigits(r, |a| + 1, |b|);
    var i := IndexOfFrom(r, '-', 0);
    var j := IndexOfFrom(r, '-', i + 1);
    assert i == |a| && j == |a| + 1 + |b| < |r|;
    assert r[..i] == a;
    assert r[i + 1..j] == b;
    assert r[j + 1..] == c;
    SplitStoredNameAt(r, i, j);
  }

  lemma SplitStoredNameAt(r: string, i: nat, j: nat)
    requires i == IndexOfFrom(r, '-', 0) < |r|
    requires j == IndexOfFrom(r, '-', i + 1) < |r|
    ensures SplitStoredName(r) == (r[..i], r[i + 1..j], r[j + 1..])
  {
  }

  /** The first '-' at or after the start of a run of digits is the one that ends it. */
  lemma DashAfterDigits(r: string, from: nat, len: nat)
    requires from + len < |r| && r[from + len] == '-'
    requires forall k :: from <= k < from + len ==> IsDigit(r[k])
    ensures IndexOfFrom(r, '-', from) == from + len
  {
    IndexOfFromAt(r, '-', from, from + len);
  }

  /** Two uploads stored under the same name were stored at the same millisecond, with the
      same random suffix and the same sanitised name. */
  lemma StoredFileNameInjective(m1: nat, r1: nat, o1: string, m2: nat, r2: nat, o2: string)
    requires StoredFileName(m1, r1, o1) == StoredFileName(m2, r2, o2)
    ensures m1 == m2 && r1 == r2 && Sanitize(o1) == Sanitize(o2)
  {
    SplitStoredFileName(m1, r1, o1);
    SplitStoredFileName(m2, r2, o2);
    NatToStringInjective(m1, m2);
    NatToStringInjective(r1, r2);
  }

  /** A photo whose name is a stem and an extension of kept characters keeps that
      extension once stored, so the uploads route serves it by that extension. */
  lemma StoredFileNameKeepsExtension(millis: nat, random: nat, stem: string, ext: string)
    requires stem != [] && forall i :: 0 <= i < |stem| ==> Kept(stem[i])
    requires ext != [] && ext[0] == '.' && forall i :: 1 <= i < |ext| ==> Kept(ext[i]) && ext[i] != '.'
    ensures ExtName(StoredFileName(millis, random, stem + ext)) == ext
  {
    SanitizeKeepsSafeNames(stem + ext);
    var a := NatToString(millis) + "-" + NatToString(random) + "-" + stem;
    assert StoredFileName(millis, random, stem + ext) == a + ext;
    assert a[0] == NatToString(millis)[0];
    assert '/' !in a by {
      assert '/' !in StoredFileName(millis, random, stem + ext);
      assert forall k :: 0 <= k < |a| ==> a[k] == (a + ext)[k];
    }
    assert '.' !in ext[1..] by {
      assert forall k :: 0 <= k < |ext| - 1 ==> ext[1..][k] == ext[k + 1];
    }
    assert '/' !in ext by {
      assert forall k :: 0 <= k < |ext| ==> ext[k] == '.' || Kept(ext[k]);
    }
    ExtNameOf(a, ext);
  }

  /** The file multer hands to the filter. `size` is `None` when multer has not measured
      the file yet. */
  datatype UploadFile = UploadFile(originalName: string, mimeType: string, size: Option<nat>)

  datatype FilterResult = Accept | Reject(message: string)

  /** `/jpeg|jpg|png/.test(s)`: one of the three words occurs anywhere in `s`. */
  predicate MatchesImageType(s: string) {
    Contains(s, "jpeg") || Contains(s, "jpg") || Contains(s, "png")
  }

  const SizeMessage := "File size exceeds 2MB limit. Please upload a smaller file."
  const TypeMessage := "Only .jpg, .jpeg, and .png files are allowed!"

  /** `fileFilter`: the size test first (an unmeasured size passes it), then the type
      test on the lower-cased extension of the original name and on the mime type. */
  function FileFilter(file: UploadFile): (r: FilterResult)
    ensures r.Accept? <==>
      (file.size.None? || file.size.value <= MaxFileSize) &&
      MatchesImageType(ToLower(ExtName(file.originalName))) && MatchesImageType(file.mimeType)
    ensures r.Reject? && file.size.Some? && file.size.value > MaxFileSize ==> r.message == SizeMessage
    ensures r.Reject? && (file.size.None? || file.size.value <= MaxFileSize) ==> r.message == TypeMessage
  {
    if file.size.Some? && file.size.value > MaxFileSize then Reject(SizeMessage)
    else if MatchesImageType(ToLower(ExtName(file.originalName))) && MatchesImageType(file.mimeType) then Accept
    else Reject(TypeMessage)
  }

  /** The lower-cased extension the filter tests, for a name made of a stem and an
      extension. */
  lemma LowerExtension(stem: string, ext: string, lower: string)
    requires stem != [] && stem[0] != '.' && '/' !in stem
    requires ext != [] && ext[0] == '.' && '.' !in ext[1..] && '/' !in ext
    requires ToLower(ext) == lower
    ensures ToLower(ExtName(stem + ext)) == lower
  {
    ExtNameOf(stem, ext);
  }

  lemma JpgMatches()
    ensures MatchesImageType(".jpg") && MatchesImageType("image/jpeg")
  {
    ContainsAt(".jpg", "jpg", 1);
    ContainsAt("image/jpeg", "jpeg", 6);
  }

  lemma PngMatches()
    ensures MatchesImageType(".png") && MatchesImageType("image/png")
  {
    ContainsAt(".png", "png", 1);
    ContainsAt("image/png", "png", 6);
  }

  lemma ApngMatches()
    ensures MatchesImageType(".apng") && MatchesImageType("image/apng")
  {
    ContainsAt(".apng", "png", 2);
    ContainsAt("image/apng", "png", 7);
  }

  lemma GifDoesNotMatch()
    ensures !MatchesImageType(".gif")
  {
    NotContainsWithoutHead(".gif", "jpeg");
    NotContainsWithoutHead(".gif", "jpg");
    NotContainsWithoutHead(".gif", "png");
  }

  /** A JPEG within the limit is accepted, whatever the letter case of its extension. */
  lemma FileFilterAcceptsJpeg(stem: string, size: nat)
    requires stem != [] && stem[0] != '.' && '/' !in stem
    requires size <= MaxFileSize
    ensures FileFilter(UploadFile(stem + ".JPG", "image/jpeg", Some(size))) == Accept
  {
    var jpg := ToLower(".JPG");
    assert jpg[0] == '.' && jpg[1] == 'j' && jpg[2] == 'p' && jpg[3] == 'g';
    assert jpg == ".jpg";
    LowerExtension(stem, ".JPG", ".jpg");
    JpgMatches();
  }

  /** A PNG within the limit is accepted. */
  lemma FileFilterAcceptsPng(stem: string, size: nat)
    requires stem != [] && stem[0] != '.' && '/' !in stem
    requires size <= MaxFileSize
    ensures FileFilter(UploadFile(stem + ".png", "image/png", Some(size))) == Accept
  {
    ToLowerOfLowerCase(".png");
    LowerExtension(stem, ".png", ".png");
    PngMatches();
  }

  /** The match is unanchored: an animated PNG (`.apng`, `image/apng`) passes, and a file
      of unmeasured size is never turned away for its size. */
  lemma FileFilterMatchIsUnanchored(stem: string)
    requires stem != [] && stem[0] != '.' && '/' !in stem
    ensures FileFilter(UploadFile(stem + ".apng", "image/apng", None)) == Accept
  {
    ToLowerOfLowerCase(".apng");
    LowerExtension(stem, ".apng", ".apng");
    ApngMatches();
  }

  /** A GIF is rejected by the filter, although the uploads route has a content type
      for it. */
  lemma FileFilterRejectsGif(stem: string)
    requires stem != [] && stem[0] != '.' && '/' !in stem
    ensures FileFilter(UploadFile(stem + ".gif", "image/gif", Some(0))) == Reject(TypeMessage)
  {
    ToLowerOfLowerCase(".gif");
    LowerExtension(stem, ".gif", ".gif");
    GifDoesNotMatch();
  }

  /** An oversized file is rejected for its size before its type is looked at. */
  lemma FileFilterSizeFirst(file: UploadFile)
    requires file.size.Some? && file.size.value > MaxFileSize
    ensures FileFilter(file) == Reject(SizeMessage)
  {
  }

  /** An error reaching the upload error handler: one of multer's own, with its code, or
      any other error (among them the two the filter raises). */
  datatype UploadError =
    | MulterError(code: string, message: string)
    | OtherError(message: string)

  datatype HandlerResult = Next | ErrorResponse(status: nat, message: string)

  const LimitMessage := "File size too large. Maximum size is 2MB. Please upload a smaller file."
  const DefaultMessage := "Error uploading file"

  /** `handleUploadError`. */
  function HandleUploadError(err: Option<UploadError>): (r: HandlerResult)
    ensures r.Next? <==> err.None?
    ensures r.ErrorResponse? ==> r.status == 400
    ensures err.Some? && err.value.MulterError? && err.value.code == "LIMIT_FILE_SIZE" ==>
      r.message == LimitMessage
    ensures err.Some? && !(err.value.MulterError? && err.value.code == "LIMIT_FILE_SIZE") ==>
      r.message == (if err.value.message != "" then err.value.message else DefaultMessage)
  {
    match err
    case None => Next
    case Some(MulterError(code, message)) =>
      if code == "LIMIT_FILE_SIZE" then ErrorResponse(400, LimitMessage)
      else ErrorResponse(400, if message != "" then message else DefaultMessage)
    case Some(OtherError(message)) =>
      ErrorResponse(400, if message != "" then message else DefaultMessage)
  }

  /** A file the filter rejects reaches the client as a 400 with the filter's own message. */
  lemma RejectedFileAnswered(file: UploadFile)
    requires FileFilter(file).Reject?
    ensures HandleUploadError(Some(OtherError(FileFilter(file).message))) ==
      ErrorResponse(400, FileFilter(file).message)
  {
  }
}
