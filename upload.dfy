/** Admission of the optional audio attachment of `/send`
    (`multer({ storage, limits, fileFilter }).single('audio')`). */
module Upload {
  import opened Http
  import JsNumber

  /** `upload.single('audio')`: the only file field accepted. */
  const AudioField := "audio"

  /** `limits: { fileSize: 15 * 1024 * 1024 }`. */
  const MaxFileSize: nat := 15 * 1024 * 1024

  /** A file part of a multipart request: its field name, multer's
      `file.mimetype` (the part's Content-Type as the multipart parser
      normalises it: lower-cased, parameters dropped, `text/plain` when
      absent) and its length in bytes. */
  datatype FilePart = FilePart(field: string, mimeType: string, size: nat)

  /** `s.startsWith(prefix)`. */
  predicate StartsWith(s: string, prefix: string) {
    |prefix| <= |s| && s[..|prefix|] == prefix
  }

  /** The `fileFilter`: a declared audio type, or an unlabelled binary stream. */
  predicate FileFilter(mimeType: string) {
    StartsWith(mimeType, "audio/") || mimeType == "application/octet-stream"
  }

  /** Disk storage's `filename`: `Date.now() + '.mp3'`. */
  function StoredName(nowMs: nat): string {
    JsNumber.Decimal(nowMs) + ".mp3"
  }

  /** What multer leaves for the handler: no file, the stored file's name, or
      the error it passes on. The checks run in multer's order: the field
      name, then the filter, then the size limit while the bytes are written. */
  function Admit(part: Option<FilePart>, nowMs: nat): (r: Result<Option<string>>)
    ensures part.None? ==> r == Ok(None)
    ensures part.Some? && r.Ok? ==> r.value == Some(StoredName(nowMs))
    ensures part.Some? ==>
      (r.Ok? <==> part.value.field == AudioField && FileFilter(part.value.mimeType) && part.value.size <= MaxFileSize)
    ensures part.Some? && part.value.field != AudioField ==> r == Err(UnexpectedField)
    ensures part.Some? && part.value.field == AudioField && !FileFilter(part.value.mimeType) ==> r == Err(AudioOnly)
    ensures r == Err(FileTooLarge) <==>
      part.Some? && part.value.field == AudioField && FileFilter(part.value.mimeType) && part.value.size > MaxFileSize
  {
    match part
    case None => Ok(None)
    case Some(f) =>
      if f.field != AudioField then Err(UnexpectedField)
      else if !FileFilter(f.mimeType) then Err(AudioOnly)
      else if f.size > MaxFileSize then Err(FileTooLarge)
      else Ok(Some(StoredName(nowMs)))
  }

  /** The size limit is inclusive: exactly 15 MiB is stored, one byte more is refused. */
  lemma SizeBoundary(mimeType: string, nowMs: nat)
    requires FileFilter(mimeType)
    ensures Admit(Some(FilePart(AudioField, mimeType, MaxFileSize)), nowMs) == Ok(Some(StoredName(nowMs)))
    ensures Admit(Some(FilePart(AudioField, mimeType, MaxFileSize + 1)), nowMs) == Err(FileTooLarge)
  {
  }

  /** Which mimetypes pass the filter: every `audio/` subtype and exactly
      `application/octet-stream`; a bare `audio`, another type, and the
      `text/plain` a part without a Content-Type gets, do not. */
  lemma FilterExamples()
    ensures FileFilter("audio/mpeg") && FileFilter("audio/") && FileFilter("application/octet-stream")
    ensures !FileFilter("audio") && !FileFilter("video/mp4") && !FileFilter("text/plain")
    ensures !FileFilter("application/octet")
  {
    assert "audio/mpeg"[..6] == "audio/";
    assert "application/octet"[..6][1] != "audio/"[1];
    assert "application/octet" != "application/octet-stream";
    assert "video/mp4"[..6][0] != "audio/"[0];
    assert "text/plain"[..6][0] != "audio/"[0];
  }

  /** Uploads stored at different milliseconds get different names; two in
      the same millisecond get the same name. */
  lemma StoredNamesDistinct(a: nat, b: nat)
    ensures StoredName(a) == StoredName(b) <==> a == b
  {
    if StoredName(a) == StoredName(b) {
      var da, db := JsNumber.Decimal(a), JsNumber.Decimal(b);
      assert |da| == |db|;
      assert da == StoredName(a)[..|da|];
      assert db == StoredName(b)[..|db|];
      JsNumber.DecimalInjective(a, b);
    }
  }
}
