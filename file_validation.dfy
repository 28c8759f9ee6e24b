/** Upload checks: the size ceiling, the MIME allow-list, the extension table and
    filename sanitising. Every operation is a pure function of its arguments. */
module FileValidation {
  import opened JsString

  /** 10 MiB in bytes. */
  const MAX_FILE_SIZE: int := 10 * 1024 * 1024

  const ALLOWED_MIME_TYPES: seq<string> := [
    "image/jpeg", "image/jpg", "image/png", "image/gif", "image/webp", "image/svg+xml",
    "application/pdf",
    "application/msword",
    "application/vnd.openxmlformats-officedocument.wordprocessingml.document",
    "application/vnd.ms-excel",
    "application/vnd.openxmlformats-officedocument.spreadsheetml.sheet",
    "application/vnd.ms-powerpoint",
    "application/vnd.openxmlformats-officedocument.presentationml.presentation",
    "text/plain", "text/csv",
    "application/zip", "application/x-zip-compressed"
  ]

  const EXTENSION_TO_MIME: map<string, string> := map[
    "jpg" := "image/jpeg",
    "jpeg" := "image/jpeg",
    "png" := "image/png",
    "gif" := "image/gif",
    "webp" := "image/webp",
    "svg" := "image/svg+xml",
    "pdf" := "application/pdf",
    "doc" := "application/msword",
    "docx" := "application/vnd.openxmlformats-officedocument.wordprocessingml.document",
    "xls" := "application/vnd.ms-excel",
    "xlsx" := "application/vnd.openxmlformats-officedocument.spreadsheetml.sheet",
    "ppt" := "application/vnd.ms-powerpoint",
    "pptx" := "application/vnd.openxmlformats-officedocument.presentationml.presentation",
    "txt" := "text/plain",
    "csv" := "text/csv",
    "zip" := "application/zip"
  ]

  /** `{ valid: true }` or `{ valid: false, error }`. */
  datatype Validation = Valid | Invalid(error: string)

  const SIZE_ERROR: string := "File size exceeds maximum allowed size of 10MB"

  function MimeError(mimeType: string): string
  {
    "File type '" + mimeType + "' is not allowed. Allowed types: images, PDFs, documents"
  }

  function ValidateFileSize(size: int): (r: Validation)
    ensures r.Valid? <==> size <= MAX_FILE_SIZE
    ensures r.Invalid? ==> r.error == SIZE_ERROR
  {
    if size > MAX_FILE_SIZE then Invalid(SIZE_ERROR) else Valid
  }

  /** The ceiling itself is accepted; one byte more is not. */
  lemma SizeBoundary()
    ensures ValidateFileSize(10485760) == Valid
    ensures ValidateFileSize(10485761) == Invalid(SIZE_ERROR)
  {
  }

  function ValidateMimeType(mimeType: string): (r: Validation)
    ensures r.Valid? <==> mimeType in ALLOWED_MIME_TYPES
    ensures r.Invalid? ==> r.error == MimeError(mimeType)
  {
    if mimeType !in ALLOWED_MIME_TYPES then Invalid(MimeError(mimeType)) else Valid
  }

  /** Membership is case-sensitive: an upper-cased allowed type is refused. */
  lemma MimeCaseSensitive()
    ensures ValidateMimeType("image/png").Valid?
    ensures ValidateMimeType("IMAGE/PNG").Invalid?
  {
    PngAllowed();
    UpperPngRefused();
  }

  lemma PngAllowed()
    ensures "image/png" in ALLOWED_MIME_TYPES
  {
    assert ALLOWED_MIME_TYPES[2] == "image/png";
  }

  lemma UpperPngRefused()
    ensures "IMAGE/PNG" !in ALLOWED_MIME_TYPES
  {
    assert "IMAGE/PNG"[0] == 'I';
  }

  // ---------------------------------------------------------------------------
  // Filename sanitising

  /** The characters `[a-zA-Z0-9._-]`. */
  predicate IsSafeChar(c: char)
  {
    ('a' <= c <= 'z') || ('A' <= c <= 'Z') || ('0' <= c <= '9') || c == '.' || c == '_' || c == '-'
  }

  predicate AllSafe(s: string)
  {
    forall i :: 0 <= i < |s| ==> IsSafeChar(s[i])
  }

  predicate NoDoubleDot(s: string)
  {
    forall i :: 0 <= i < |s| - 1 ==> !(s[i] == '.' && s[i + 1] == '.')
  }

  /** A sanitised name: safe characters only, no two dots in a row, at most 255 long. */
  predicate IsSanitized(s: string)
  {
    AllSafe(s) && NoDoubleDot(s) && |s| <= 255
  }

  /** The text a replaced character leaves: one `_` per UTF-16 code unit it occupies,
      so a character outside the Basic Multilingual Plane leaves two. */
  function Underscores(c: char): string
  {
    if c as int >= 0x10000 then "__" else "_"
  }

  /** Step 1: every unsafe code unit becomes `_`. */
  function ReplaceUnsafe(s: string): (r: string)
    ensures AllSafe(r)
    ensures |r| >= |s|
  {
    if s == [] then [] else ReplaceChar(s[0]) + ReplaceUnsafe(s[1..])
  }

  function ReplaceChar(c: char): (r: string)
    ensures AllSafe(r)
  {
    if IsSafeChar(c) then [c] else Underscores(c)
  }

  /** Number of dots at the start of `s`. */
  function DotRun(s: string): (n: nat)
    ensures n <= |s|
    ensures forall i :: 0 <= i < n ==> s[i] == '.'
    ensures n < |s| ==> s[n] != '.'
  {
    if s != [] && s[0] == '.' then 1 + DotRun(s[1..]) else 0
  }

  /** Step 2: every run of two or more dots becomes one dot. A single dot is a run of
      one and stays as it is, so every maximal run leaves exactly one dot. */
  function CollapseDots(s: string): (r: string)
    ensures NoDoubleDot(r)
    ensures |r| <= |s|
    ensures s != [] ==> r != [] && r[0] == s[0]
    ensures forall i :: 0 <= i < |r| ==> r[i] in s
    decreases |s|
  {
    if s == [] then []
    else if s[0] == '.' then
      var rest := CollapseDots(s[DotRun(s)..]);
      CharsOfSuffix(s, DotRun(s), rest);
      "." + rest
    else
      var rest := CollapseDots(s[1..]);
      CharsOfSuffix(s, 1, rest);
      [s[0]] + rest
  }

  lemma CharsOfSuffix(s: string, k: nat, r: string)
    requires k <= |s| && forall i :: 0 <= i < |r| ==> r[i] in s[k..]
    ensures forall i :: 0 <= i < |r| ==> r[i] in s
  {
    forall i | 0 <= i < |r| ensures r[i] in s {
      var j :| 0 <= j < |s[k..]| && s[k..][j] == r[i];
      assert s[k + j] == r[i];
    }
  }

  /** Step 3: `slice(0, 255)`. */
  function Truncate(s: string): (r: string)
    ensures |r| <= 255 && |r| <= |s|
    ensures r == s[..|r|]
    ensures |s| <= 255 ==> r == s
  {
    if |s| <= 255 then s else s[..255]
  }

  function SanitizeFilename(filename: string): (r: string)
    ensures IsSanitized(r)
  {
    var a := ReplaceUnsafe(filename);
    var b := CollapseDots(a);
    assert AllSafe(b) by {
      forall i | 0 <= i < |b| ensures IsSafeChar(b[i]) {
        var j :| 0 <= j < |a| && a[j] == b[i];
      }
    }
    Truncate(b)
  }

  /** Step 1 changes a name exactly when some character is unsafe. */
  lemma {:induction false} ReplaceUnsafeFixed(s: string)
    ensures ReplaceUnsafe(s) == s <==> AllSafe(s)
  {
    if s != [] {
      ReplaceUnsafeFixed(s[1..]);
      if IsSafeChar(s[0]) {
        assert ReplaceUnsafe(s) == [s[0]] + ReplaceUnsafe(s[1..]);
        assert s == [s[0]] + s[1..];
        assert AllSafe(s) <==> AllSafe(s[1..]) by {
          if AllSafe(s[1..]) {
            forall i | 0 <= i < |s| ensures IsSafeChar(s[i]) {
              if i > 0 { assert s[i] == s[1..][i - 1]; }
            }
          }
        }
      } else {
        assert !AllSafe(s);
        assert ReplaceUnsafe(s)[0] == '_' != s[0];
      }
    }
  }

  lemma {:induction false} ReplaceUnsafeAppend(a: string, b: string)
    ensures ReplaceUnsafe(a + b) == ReplaceUnsafe(a) + ReplaceUnsafe(b)
  {
    if a != [] {
      assert (a + b)[0] == a[0] && (a + b)[1..] == a[1..] + b;
      ReplaceUnsafeAppend(a[1..], b);
    } else {
      assert a + b == b;
    }
  }

  /** A name with no two dots in a row has no dot run longer than one. */
  lemma DotRunAtMostOne(s: string)
    requires NoDoubleDot(s)
    ensures DotRun(s) <= 1
  {
    if |s| >= 2 && s[0] == '.' {
      assert !(s[0] == '.' && s[1] == '.');
      assert s[1..][0] == s[1];
    }
  }

  /** Step 2 changes a name exactly when it holds two dots in a row. */
  lemma {:induction false} CollapseDotsFixed(s: string)
    ensures CollapseDots(s) == s <==> NoDoubleDot(s)
    decreases |s|
  {
    if s != [] {
      if NoDoubleDot(s) {
        var k := if s[0] == '.' then DotRun(s) else 1;
        DotRunAtMostOne(s);
        assert k == 1;
        assert NoDoubleDot(s[1..]) by {
          forall i | 0 <= i < |s[1..]| - 1 ensures !(s[1..][i] == '.' && s[1..][i + 1] == '.') {
            assert s[1..][i] == s[i + 1] && s[1..][i + 1] == s[i + 2];
          }
        }
        CollapseDotsFixed(s[1..]);
        assert s == [s[0]] + s[1..];
      }
    }
  }

  /** Step 3 changes a name exactly when it is longer than 255. */
  lemma TruncateFixed(s: string)
    ensures Truncate(s) == s <==> |s| <= 255
  {
  }

  /** Each of the three steps leaves an already-sanitised name as it is. */
  lemma StepsFixSanitized(s: string)
    requires IsSanitized(s)
    ensures ReplaceUnsafe(s) == s
    ensures CollapseDots(s) == s
    ensures Truncate(s) == s
  {
    ReplaceUnsafeFixed(s);
    CollapseDotsFixed(s);
  }

  /** Sanitising twice is sanitising once. */
  lemma SanitizeIdempotent(filename: string)
    ensures SanitizeFilename(SanitizeFilename(filename)) == SanitizeFilename(filename)
  {
    var r := SanitizeFilename(filename);
    StepsFixSanitized(r);
  }

  /** A non-BMP character counts as two code units and leaves two underscores. */
  lemma SanitizeSurrogatePair()
    ensures SanitizeFilename("a\U{1F600}.txt") == "a__.txt"
  {
    ReplaceSurrogatePair();
    CollapseNoDots();
  }

  lemma ReplaceSurrogatePair()
    ensures ReplaceUnsafe("a\U{1F600}.txt") == "a__.txt"
  {
    var emoji := "\U{1F600}";
    assert "a\U{1F600}.txt" == "a" + emoji + ".txt";
    ReplaceUnsafeAppend("a" + emoji, ".txt");
    ReplaceUnsafeAppend("a", emoji);
    SafeParts();
    EmojiReplaced();
    assert "a" + "__" + ".txt" == "a__.txt";
  }

  lemma SafeParts()
    ensures ReplaceUnsafe("a") == "a" && ReplaceUnsafe(".txt") == ".txt"
  {
    ReplaceUnsafeFixed("a");
    ReplaceUnsafeFixed(".txt");
  }

  lemma EmojiReplaced()
    ensures ReplaceUnsafe("\U{1F600}") == "__"
  {
    assert "\U{1F600}"[1..] == [];
  }

  lemma CollapseNoDots()
    ensures CollapseDots("a__.txt") == "a__.txt"
  {
    assert "a__.txt" == "a__" + "." + "txt";
    assert '.' !in "a__" && '.' !in "txt";
    SingleDot("a__", "txt");
    CollapseDotsFixed("a__.txt");
  }

  /** One dot between two dot-free texts is never doubled. */
  lemma SingleDot(a: string, b: string)
    requires '.' !in a && '.' !in b
    ensures NoDoubleDot(a + "." + b)
  {
    var s := a + "." + b;
    forall i | 0 <= i < |s| - 1 ensures !(s[i] == '.' && s[i + 1] == '.') {
      if i < |a| {
        assert s[i] == a[i];
      } else if i == |a| {
        assert s[i + 1] == b[0];
      } else {
        assert s[i] == b[i - |a| - 1];
      }
    }
  }

  // ---------------------------------------------------------------------------
  // Extensions and the combined check

  /** The lower-cased text after the last dot, or "" when there is no dot. */
  function GetFileExtension(filename: string): (r: string)
    ensures '.' !in filename ==> r == ""
    ensures '.' !in r
  {
    SplitCount(filename, '.');
    var parts := Split(filename, '.');
    if |parts| > 1 then
      assert '.' !in parts[|parts| - 1];
      ToLower(parts[|parts| - 1])
    else ""
  }

  lemma GetFileExtensionSpec(filename: string)
    ensures '.' !in filename ==> GetFileExtension(filename) == ""
    ensures '.' in filename ==>
      exists k :: 0 <= k < |filename| && filename[k] == '.' && '.' !in filename[k + 1..]
        && GetFileExtension(filename) == ToLower(filename[k + 1..])
  {
    SplitCount(filename, '.');
    if '.' in filename {
      SplitLast(filename, '.');
    }
  }

  /** The extension of `base.ext` is `ext` lower-cased, whatever dots `base` holds. */
  lemma ExtensionAfterLastDot(base: string, ext: string)
    requires '.' !in ext
    ensures GetFileExtension(base + "." + ext) == ToLower(ext)
  {
    SplitLastPart(base, '.', ext);
  }

  lemma GetFileExtensionExample()
    ensures GetFileExtension("Report.Final.PDF") == "pdf"
    ensures GetFileExtension("README") == ""
  {
    GetFileExtensionSpec("README");
    LastOfThreeParts();
  }

  lemma LastOfThreeParts()
    ensures GetFileExtension("Report.Final.PDF") == "pdf"
  {
    ExtensionAfterLastDot("Report.Final", "PDF");
    assert "Report.Final" + "." + "PDF" == "Report.Final.PDF";
    assert ToLower("PDF") == "pdf";
  }

  /** `EXTENSION_TO_MIME[ext] || null`. */
  function GetMimeTypeFromExtension(filename: string): (r: Option<string>)
    ensures r.Some? <==> GetFileExtension(filename) in EXTENSION_TO_MIME
    ensures r.Some? ==> r.value == EXTENSION_TO_MIME[GetFileExtension(filename)]
  {
    var ext := GetFileExtension(filename);
    if ext in EXTENSION_TO_MIME && EXTENSION_TO_MIME[ext] != "" then Some(EXTENSION_TO_MIME[ext]) else None
  }

  /** Every MIME type the extension table yields passes the allow-list. */
  lemma ExtensionTableAllowed(filename: string)
    requires GetMimeTypeFromExtension(filename).Some?
    ensures ValidateMimeType(GetMimeTypeFromExtension(filename).value).Valid?
  {
    var ext := GetFileExtension(filename);
    assert ext in EXTENSION_TO_MIME;
  }

  /** Size first, then MIME type; the first failure is the result. */
  function ValidateFile(filename: string, size: int, mimeType: string): (r: Validation)
    ensures r.Valid? <==> size <= MAX_FILE_SIZE && mimeType in ALLOWED_MIME_TYPES
    ensures size > MAX_FILE_SIZE ==> r == Invalid(SIZE_ERROR)
    ensures size <= MAX_FILE_SIZE && mimeType !in ALLOWED_MIME_TYPES ==> r == Invalid(MimeError(mimeType))
  {
    var sizeValidation := ValidateFileSize(size);
    if sizeValidation.Invalid? then sizeValidation
    else
      var mimeValidation := ValidateMimeType(mimeType);
      if mimeValidation.Invalid? then mimeValidation
      else Valid
  }

  /** The case in which an accepted file is logged as a mismatch; it stays accepted. */
  predicate MimeMismatchWarned(filename: string, size: int, mimeType: string)
  {
    ValidateFile(filename, size, mimeType).Valid?
    && GetMimeTypeFromExtension(filename).Some?
    && GetMimeTypeFromExtension(filename).value != mimeType
  }

  /** The name never decides validity. */
  lemma ValidateFileIgnoresName(f1: string, f2: string, size: int, mimeType: string)
    ensures ValidateFile(f1, size, mimeType) == ValidateFile(f2, size, mimeType)
  {
  }

  /** There is no executable blocklist: an `.exe` declared as plain text is accepted. */
  lemma ExecutableAccepted()
    ensures ValidateFile("setup.exe", 100, "text/plain") == Valid
    ensures !MimeMismatchWarned("setup.exe", 100, "text/plain")
  {
    TextPlainAllowed();
    ExeUnmapped();
  }

  lemma TextPlainAllowed()
    ensures "text/plain" in ALLOWED_MIME_TYPES
  {
    assert ALLOWED_MIME_TYPES[13] == "text/plain";
  }

  lemma ExeUnmapped()
    ensures GetMimeTypeFromExtension("setup.exe").None?
  {
    ExtensionAfterLastDot("setup", "exe");
    assert "setup" + "." + "exe" == "setup.exe";
    assert ToLower("exe") == "exe";
    assert "exe" !in EXTENSION_TO_MIME;
  }

  /** A mismatch between the name and the declared type still passes, with a warning. */
  lemma MismatchOnlyWarns()
    ensures ValidateFile("photo.png", 100, "application/pdf") == Valid
    ensures MimeMismatchWarned("photo.png", 100, "application/pdf")
  {
    PdfAllowed();
    PngMapped();
  }

  lemma PdfAllowed()
    ensures "application/pdf" in ALLOWED_MIME_TYPES
  {
    assert ALLOWED_MIME_TYPES[6] == "application/pdf";
  }

  lemma PngMapped()
    ensures GetMimeTypeFromExtension("photo.png") == Some("image/png")
  {
    ExtensionAfterLastDot("photo", "png");
    assert "photo" + "." + "png" == "photo.png";
    assert ToLower("png") == "png";
    assert EXTENSION_TO_MIME["png"] == "image/png";
  }
}
