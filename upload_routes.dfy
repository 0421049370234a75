/** The upload route's multer configuration: the MIME allowlist, the stored file
    name and the size limit. */
module UploadRoutes {
  import opened JsText
  import opened MessageController

  /** The MIME type of Word documents in the Office Open XML format (`.docx`). */
  const WordDocument: string := "application/" + "vnd.openxmlformats-officedocument.wordprocessingml.document"

  /** The eight accepted MIME types: three images, three documents, two audio. */
  const AllowedTypes: seq<string> := [
    "image/jpeg", "image/png", "image/gif",
    "application/pdf", "application/msword",
    WordDocument,
    "audio/mpeg", "audio/wav"]

  const InvalidTypeMessage := "Invalid file type. Only images, documents, and audio files are allowed."

  /** 10 MB. */
  const MaxFileSize: nat := 10 * 1024 * 1024

  datatype FilterResult = Accept | Reject(error: string)

  /** `fileFilter`: exact membership in the allowlist (no prefix or case matching). */
  function FileFilter(mimetype: string): (r: FilterResult)
    ensures r == Accept <==> mimetype in AllowedTypes
    ensures r.Reject? ==> r.error == InvalidTypeMessage
  {
    if mimetype in AllowedTypes then Accept else Reject(InvalidTypeMessage)
  }

  /** The size check: a file of at most `MaxFileSize` bytes is taken. */
  predicate SizeAllowed(size: nat) {
    size <= MaxFileSize
  }

  lemma SizeLimitValue()
    ensures MaxFileSize == 10485760
    ensures SizeAllowed(10485760) && !SizeAllowed(10485761)
  {
  }

  /** The `filename` callback: the millisecond clock in decimal, a dash, and the
      original name with every whitespace character turned into a dash. */
  function StoredFilename(now: nat, originalname: string): (r: string)
    ensures |r| == |NatToString(now)| + 1 + |originalname|
    ensures forall i | 0 <= i < |r| :: !IsJsWhitespace(r[i])
    ensures forall i | 0 <= i < |originalname| && !IsJsWhitespace(originalname[i]) ::
              r[|NatToString(now)| + 1 + i] == originalname[i]
    ensures forall i | 0 <= i < |originalname| && IsJsWhitespace(originalname[i]) ::
              r[|NatToString(now)| + 1 + i] == '-'
  {
    var t := NatToString(now);
    var tail := ReplaceWhitespace(originalname, '-');
    assert forall i | 0 <= i < |t| :: !IsJsWhitespace(t[i]);
    t + "-" + tail
  }

  /** The time stamp can be read back: the stored name's first dash ends it, and the
      digits before that dash are the clock value. */
  lemma FilenameTimestamp(now: nat, originalname: string)
    ensures var r, k := StoredFilename(now, originalname), |NatToString(now)|;
            && k < |r| && r[k] == '-'
            && (forall i | 0 <= i < k :: IsDigit(r[i]) && r[i] != '-')
            && DigitsValue(r[..k]) == now
  {
    var t := NatToString(now);
    var r := StoredFilename(now, originalname);
    assert r[..|t|] == t;
    NatToStringRoundTrip(now);
  }

  /** What the upload handler reports for each accepted type: the three images as
      image, the two audio types as audio, the others as document; so the reported
      type is always one the message schema allows. */
  lemma AcceptedTypesClassified(mimetype: string)
    requires FileFilter(mimetype) == Accept
    ensures FileTypeOf(mimetype) == (if mimetype in AllowedTypes[..3] then "image"
                                     else if mimetype in AllowedTypes[6..] then "audio"
                                     else "document")
    ensures FileTypeOf(mimetype) in {"image", "audio", "document"}
  {
    assert StartsWith("image/jpeg", "image") && StartsWith("image/png", "image") && StartsWith("image/gif", "image");
    assert StartsWith("audio/mpeg", "audio") && StartsWith("audio/wav", "audio");
    var pdf, doc, docx := AllowedTypes[3], AllowedTypes[4], AllowedTypes[5];
    assert docx == WordDocument;
    CharDiffers(pdf, "image", 0);
    CharDiffers(pdf, "audio", 1);
    CharDiffers(doc, "image", 0);
    CharDiffers(doc, "audio", 1);
    CharDiffers(docx, "image", 0);
    CharDiffers(docx, "audio", 1);
  }

  lemma CharDiffers(s: string, prefix: string, i: nat)
    requires i < |s| && i < |prefix| && s[i] != prefix[i]
    ensures !StartsWith(s, prefix)
  {
    if |prefix| <= |s| {
      assert s[..|prefix|][i] == s[i];
    }
  }
}
