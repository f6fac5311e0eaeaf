/** Upload handling of `app/routes/analysis.py`: the extension allow-list,
    the decision to re-encode as JPEG and how image modes are normalised,
    the single-image endpoint's responses, and the per-file entries and
    summary of the batch endpoint. Reading the upload, the temporary files
    and the imaging library are foreign; their outcome per file is the
    `Upload` input. */
module Analysis {
  import opened Wrappers
  import Text
  import Seqs
  import IP = ImageProcessor

  const AllowedExtensions: set<string> := {".png", ".jpg", ".jpeg", ".webp", ".bmp", ".tiff", ".gif"}

  // ------------------------------------------------------ file extensions

  /** The index of the last `c` in `s`, or -1 (`str.rfind`). */
  function LastIndexOf(s: string, c: char): (i: int)
    ensures -1 <= i < |s|
    ensures i >= 0 ==> s[i] == c
    ensures forall k :: i < k < |s| ==> s[k] != c
    decreases |s|
  {
    if |s| == 0 then -1 else if s[|s| - 1] == c then |s| - 1 else LastIndexOf(s[..|s| - 1], c)
  }

  predicate AllDots(s: string)
  {
    forall k :: 0 <= k < |s| ==> s[k] == '.'
  }

  /** The last path component: what follows the last `/`. */
  function Component(p: string): string
  {
    p[LastIndexOf(p, '/') + 1..]
  }

  datatype Split = Split(root: string, ext: string)

  lemma NoSlash(p: string)
    requires forall k :: 0 <= k < |p| ==> p[k] != '/'
    ensures LastIndexOf(p, '/') == -1
  {
  }

  /** The suffix from the last `.` contains no other `.` and, when that `.`
      follows the last `/`, no `/`. */
  lemma SuffixFromLastDot(p: string)
    requires LastIndexOf(p, '.') > LastIndexOf(p, '/')
    ensures var dot := LastIndexOf(p, '.');
            forall k :: 0 < k < |p[dot..]| ==> p[dot..][k] != '.' && p[dot..][k] != '/'
  {
    var dot := LastIndexOf(p, '.');
    forall k | 0 < k < |p[dot..]|
      ensures p[dot..][k] != '.' && p[dot..][k] != '/'
    {
      assert p[dot..][k] == p[dot + k];
    }
  }

  /** `os.path.splitext` on POSIX: the extension starts at the last `.` of
      the last component, unless only dots precede it in that component
      (so `.png` and `..png` have no extension). */
  function SplitExt(p: string): (r: Split)
    ensures r.root + r.ext == p
    ensures r.ext != [] ==> r.ext[0] == '.'
    ensures forall k :: 0 < k < |r.ext| ==> r.ext[k] != '.' && r.ext[k] != '/'
  {
    var sep := LastIndexOf(p, '/');
    var dot := LastIndexOf(p, '.');
    if dot > sep && !AllDots(p[sep + 1..dot]) then
      SuffixFromLastDot(p);
      assert p[..dot] + p[dot..] == p;
      Split(p[..dot], p[dot..])
    else Split(p, [])
  }

  /** The extension is non-empty exactly when the last component has a `.`
      with some other character than `.` before it. */
  lemma SplitExtHasExtension(p: string)
    ensures SplitExt(p).ext != [] <==> HasInnerDot(Component(p))
  {
    var sep := LastIndexOf(p, '/');
    var dot := LastIndexOf(p, '.');
    if dot > sep && !AllDots(p[sep + 1..dot]) {
      InnerDotFound(p, sep, dot);
    } else {
      NoInnerDot(p);
    }
  }

  /** The last component has a `.` with a character other than `.` before it. */
  predicate HasInnerDot(c: string)
  {
    exists i, k :: 0 <= k < i < |c| && c[i] == '.' && c[k] != '.'
  }

  lemma InnerDotFound(p: string, sep: int, dot: int)
    requires sep == LastIndexOf(p, '/') && dot == LastIndexOf(p, '.')
    requires dot > sep && !AllDots(p[sep + 1..dot])
    ensures SplitExt(p).ext != [] && HasInnerDot(Component(p))
  {
    var c := Component(p);
    var k :| 0 <= k < dot - sep - 1 && p[sep + 1..dot][k] != '.';
    assert p[sep + 1..dot][k] == p[sep + 1 + k] == c[k];
    assert c[dot - sep - 1] == p[dot] == '.';
  }

  /** A name without an extension has no `.` preceded by another character
      in its last component. */
  lemma NoInnerDot(p: string)
    requires SplitExt(p).ext == []
    ensures !HasInnerDot(Component(p))
  {
    var sep := LastIndexOf(p, '/');
    var dot := LastIndexOf(p, '.');
    if dot <= sep {
      NoDotAfterSeparator(p, sep, dot);
    } else {
      OnlyDotsBeforeLastDot(p, sep, dot);
    }
  }

  /** When the last `.` comes before the last `/`, the last component has no
      `.` at all. */
  lemma NoDotAfterSeparator(p: string, sep: int, dot: int)
    requires sep == LastIndexOf(p, '/') && dot == LastIndexOf(p, '.') && dot <= sep
    ensures !HasInnerDot(Component(p))
  {
    var c := Component(p);
    forall i | 0 <= i < |c| ensures c[i] != '.' {
      assert c[i] == p[sep + 1 + i];
    }
  }

  /** When only dots precede the last `.` in the last component, every
      character before any `.` of the component is a `.`. */
  lemma OnlyDotsBeforeLastDot(p: string, sep: int, dot: int)
    requires sep == LastIndexOf(p, '/') && dot == LastIndexOf(p, '.') && dot > sep
    requires AllDots(p[sep + 1..dot])
    ensures !HasInnerDot(Component(p))
  {
    forall m | sep < m < dot ensures p[m] == '.' {
      assert p[sep + 1..dot][m - sep - 1] == p[m];
    }
    DotsThenNoDots(p, sep, dot);
  }

  /** A component whose characters are dots up to position `dot` and no dots
      after it has no `.` preceded by another character. */
  lemma DotsThenNoDots(p: string, sep: int, dot: int)
    requires -1 <= sep < dot < |p|
    requires forall m :: sep < m < dot ==> p[m] == '.'
    requires forall m :: dot < m < |p| ==> p[m] != '.'
    ensures !HasInnerDot(p[sep + 1..])
  {
    var c := p[sep + 1..];
    forall i, k | 0 <= k < i < |c| && c[i] == '.'
      ensures c[k] == '.'
    {
      assert c[i] == p[sep + 1 + i] && c[k] == p[sep + 1 + k];
    }
  }

  /** `os.path.splitext(filename)[1].lower()`. */
  function FileExtension(filename: string): string
  {
    Text.AsciiLower(SplitExt(filename).ext)
  }

  /** The allow-list test of both endpoints (lines 22-23 and 106-107). */
  predicate IsAllowed(filename: string)
  {
    FileExtension(filename) in AllowedExtensions
  }

  /** A name made of a stem and an extension splits there, and is accepted
      exactly when the extension, lower-cased, is on the list: so
      `photo.JPG` is accepted like `photo.jpg`. */
  lemma AcceptedByExtension(stem: string, ext: string)
    requires forall k :: 0 <= k < |stem| ==> stem[k] != '/'
    requires exists k :: 0 <= k < |stem| && stem[k] != '.'
    requires |ext| > 0 && ext[0] == '.'
    requires forall k :: 0 < k < |ext| ==> ext[k] != '.' && ext[k] != '/'
    ensures SplitExt(stem + ext) == Split(stem, ext)
    ensures IsAllowed(stem + ext) <==> Text.AsciiLower(ext) in AllowedExtensions
  {
    var p := stem + ext;
    SeparatorsOf(stem, ext);
    assert p[..|stem|] == stem && p[|stem|..] == ext;
    var k :| 0 <= k < |stem| && stem[k] != '.';
    assert p[0..|stem|][k] == stem[k];
    assert !AllDots(p[0..|stem|]);
  }

  /** Where the last `/` and the last `.` of such a name are. */
  lemma SeparatorsOf(stem: string, ext: string)
    requires forall k :: 0 <= k < |stem| ==> stem[k] != '/'
    requires |ext| > 0 && ext[0] == '.'
    requires forall k :: 0 < k < |ext| ==> ext[k] != '.' && ext[k] != '/'
    ensures LastIndexOf(stem + ext, '/') == -1
    ensures LastIndexOf(stem + ext, '.') == |stem|
  {
    var p := stem + ext;
    forall k | 0 <= k < |p| ensures p[k] != '/' {
      if k >= |stem| { assert p[k] == ext[k - |stem|]; }
    }
    NoSlash(p);
    forall k | |stem| < k < |p| ensures p[k] != '.' {
      assert p[k] == ext[k - |stem|];
    }
    assert p[|stem|] == '.';
  }

  /** `JPG` in capitals is accepted: the check ignores case. */
  lemma UpperCaseJpgAccepted()
    ensures IsAllowed("photo.JPG")
  {
    var stem, ext := "photo", ".JPG";
    assert stem[0] != '.';
    assert stem + ext == "photo.JPG";
    AcceptedByExtension(stem, ext);
    LowerJpg();
  }

  lemma LowerJpg()
    ensures Text.AsciiLower(".JPG") == ".jpg"
  {
    var l := Text.AsciiLower(".JPG");
    assert l[0] == '.' && l[1] == 'j' && l[2] == 'p' && l[3] == 'g';
  }

  /** A name whose last component has no `.` is rejected. */
  lemma NoExtensionRejected(filename: string)
    requires forall k :: 0 <= k < |Component(filename)| ==> Component(filename)[k] != '.'
    ensures !IsAllowed(filename)
  {
    SplitExtHasExtension(filename);
  }

  /** A hidden file such as `.png` has no extension for `splitext` and is
      rejected. */
  lemma DotFileRejected(name: string)
    requires forall k :: 0 <= k < |name| ==> name[k] != '.' && name[k] != '/'
    ensures !IsAllowed("." + name)
  {
    var p := "." + name;
    assert Component(p) == p by {
      forall k | 0 <= k < |p| ensures p[k] != '/' {
        if k > 0 { assert p[k] == name[k - 1]; }
      }
      NoSlash(p);
    }
    assert !HasInnerDot(p) by {
      forall i | 0 < i < |p| ensures p[i] != '.' {
        assert p[i] == name[i - 1];
      }
    }
    assert SplitExt(p).ext == [] by {
      SplitExtHasExtension(p);
    }
  }

  // ------------------------------------------------- format normalisation

  /** The uploaded file is re-encoded as JPEG unless its extension is
      `.jpg` or `.jpeg` (lines 44 and 129). */
  predicate NeedsJpegConversion(ext: string)
  {
    ext != ".jpg" && ext != ".jpeg"
  }

  /** Among accepted files, exactly the five non-JPEG formats are
      re-encoded. */
  lemma ConvertedFormats(ext: string)
    requires ext in AllowedExtensions
    ensures NeedsJpegConversion(ext) <==> ext in {".png", ".webp", ".bmp", ".tiff", ".gif"}
  {
  }

  /** What happens to the decoded image before it is saved as JPEG. */
  datatype ModeAction =
    | PasteOnWhite(alphaMask: bool)  // pasted onto a white RGB canvas, masked by the alpha band when `alphaMask`
    | ConvertToRgb                   // `img.convert('RGB')`
    | KeepAsIs                       // already RGB

  /** The image-mode decision table (lines 48-53 and 131-136). */
  function NormaliseMode(mode: string): (a: ModeAction)
    ensures a.PasteOnWhite? <==> mode in {"RGBA", "LA", "P"}
    ensures a.PasteOnWhite? ==> (a.alphaMask <==> mode == "RGBA")
    ensures a == KeepAsIs <==> mode == "RGB"
    ensures a == ConvertToRgb <==> mode !in {"RGBA", "LA", "P", "RGB"}
  {
    if mode in {"RGBA", "LA", "P"} then PasteOnWhite(mode == "RGBA")
    else if mode != "RGB" then ConvertToRgb
    else KeepAsIs
  }

  // ------------------------------------------------------------- endpoints

  /** What the foreign steps do for one uploaded file:
      - `stored`: reading the upload and writing the temporary copy, giving
        the number of bytes, or what was raised;
      - `conversion`: opening the copy, normalising its mode and saving it
        as JPEG, consulted only when the extension needs it;
      - `analysis`: obtaining the image-processor singleton and running
        `process_image` on the file to analyse. */
  datatype Upload = Upload(
    filename: string,
    stored: Attempt<nat>,
    conversion: Outcome,
    analysis: Attempt<IP.ImageResult>)

  /** The 400 responses of the single endpoint. The invalid-format detail
      lists the allowed set in Python's set iteration order, which is not
      modelled. */
  datatype BadRequest = InvalidFormat | ConversionFailed(detail: string)

  /** The single endpoint's possible replies. */
  datatype SingleResponse =
    | Analysed(data: IP.ImageResult, filename: string, originalFormat: string, fileSize: nat)  // success: True
    | Failed(error: string)                                                                   // success: False
    | HttpError(status: nat, reason: BadRequest)
    | InternalServerError                                                                     // an exception escapes the handler

  /** `analyze_single_image` as written: an exception while reading or
      storing the upload reaches the `finally` block before
      `processing_path` is bound (it is first assigned at line 43), so the
      cleanup itself raises and the request fails with a server error. */
  function AnalyzeSingleAsWritten(u: Upload): (r: SingleResponse)
    ensures r == InternalServerError <==> IsAllowed(u.filename) && u.stored.Raised?
    ensures r != InternalServerError ==> r == AnalyzeSingle(u)
  {
    if !IsAllowed(u.filename) then HttpError(400, InvalidFormat)
    else match u.stored
      case Raised(_) => InternalServerError
      case Done(size) => AfterStore(u, FileExtension(u.filename), size)
  }

  /** `analyze_single_image` with the fault the cleanup intends: every
      exception other than an HTTP error is reported as `success: False`. */
  function AnalyzeSingle(u: Upload): (r: SingleResponse)
    ensures r != InternalServerError
    ensures r.HttpError? ==> r.status == 400
    ensures r.HttpError? && r.reason == InvalidFormat <==> !IsAllowed(u.filename)
    ensures r.Analysed? <==>
              && IsAllowed(u.filename) && u.stored.Done? && u.analysis.Done?
              && (NeedsJpegConversion(FileExtension(u.filename)) ==> u.conversion.Pass?)
    ensures r.Analysed? ==>
              && r.data == u.analysis.value && r.filename == u.filename
              && r.originalFormat == FileExtension(u.filename) && r.fileSize == u.stored.value
  {
    if !IsAllowed(u.filename) then HttpError(400, InvalidFormat)
    else match u.stored
      case Raised(msg) => Failed(msg)
      case Done(size) => AfterStore(u, FileExtension(u.filename), size)
  }

  /** Lines 43-80, once the temporary copy exists: a conversion fault is a
      400, a fault while analysing is `success: False`. */
  function AfterStore(u: Upload, ext: string, size: nat): (r: SingleResponse)
    ensures r.HttpError? <==> NeedsJpegConversion(ext) && u.conversion.Fail?
    ensures r.HttpError? ==> r == HttpError(400, ConversionFailed("Failed to process image: " + u.conversion.msg))
    ensures r.Analysed? <==> (NeedsJpegConversion(ext) ==> u.conversion.Pass?) && u.analysis.Done?
    ensures r.Analysed? ==> r == Analysed(u.analysis.value, u.filename, ext, size)
    ensures !r.HttpError? && !r.Analysed? ==> r == Failed(u.analysis.msg)
  {
    if NeedsJpegConversion(ext) && u.conversion.Fail? then
      HttpError(400, ConversionFailed("Failed to process image: " + u.conversion.msg))
    else match u.analysis
      case Raised(msg) => Failed(msg)
      case Done(result) => Analysed(result, u.filename, ext, size)
  }

  /** The discrepancy: an accepted file whose upload cannot be stored makes
      the handler as written fail with a server error, where the corrected
      handler reports `success: False` with the fault. */
  lemma StoreFaultEscapesAsWritten(u: Upload)
    requires IsAllowed(u.filename) && u.stored.Raised?
    ensures AnalyzeSingleAsWritten(u) == InternalServerError
    ensures AnalyzeSingle(u) == Failed(u.stored.msg)
  {
  }

  /** Apart from that fault the two handlers agree. */
  lemma AsWrittenAgreesOtherwise(u: Upload)
    requires !(IsAllowed(u.filename) && u.stored.Raised?)
    ensures AnalyzeSingleAsWritten(u) == AnalyzeSingle(u)
  {
  }

  /** Every fault after validation is told apart by the corrected handler:
      a failed conversion is a 400 with the fault in the detail; a failed
      store or analysis is `success: False` with the fault. */
  lemma SingleFaultsReported(u: Upload)
    requires IsAllowed(u.filename)
    ensures u.stored.Raised? ==> AnalyzeSingle(u) == Failed(u.stored.msg)
    ensures u.stored.Done? && NeedsJpegConversion(FileExtension(u.filename)) && u.conversion.Fail? ==>
              AnalyzeSingle(u) == HttpError(400, ConversionFailed("Failed to process image: " + u.conversion.msg))
    ensures && u.stored.Done? && u.analysis.Raised?
            && (NeedsJpegConversion(FileExtension(u.filename)) ==> u.conversion.Pass?)
            ==> AnalyzeSingle(u) == Failed(u.analysis.msg)
  {
  }

  /** One entry of the batch endpoint's `results`. */
  datatype FileEntry =
    | Processed(filename: string, data: IP.ImageResult, originalFormat: string)  // success: True
    | Rejected(filename: string, error: string)                                  // success: False

  predicate Succeeded(e: FileEntry)
  {
    e.Processed?
  }

  /** The entry for one file (lines 104-158): invalid formats and every
      exception, conversion faults included, give `success: False`. */
  function BatchEntry(u: Upload): (e: FileEntry)
    ensures e.filename == u.filename
    ensures !IsAllowed(u.filename) ==> e == Rejected(u.filename, "Invalid format: " + FileExtension(u.filename))
    ensures e.Processed? <==>
              && IsAllowed(u.filename) && u.stored.Done? && u.analysis.Done?
              && (NeedsJpegConversion(FileExtension(u.filename)) ==> u.conversion.Pass?)
    ensures e.Processed? ==> e.data == u.analysis.value && e.originalFormat == FileExtension(u.filename)
    // a fault is reported as `str(e)`, the conversion's without any prefix
    ensures IsAllowed(u.filename) && u.stored.Raised? ==> e == Rejected(u.filename, u.stored.msg)
    ensures && IsAllowed(u.filename) && u.stored.Done?
            && NeedsJpegConversion(FileExtension(u.filename)) && u.conversion.Fail?
            ==> e == Rejected(u.filename, u.conversion.msg)
    ensures && IsAllowed(u.filename) && u.stored.Done? && u.analysis.Raised?
            && (NeedsJpegConversion(FileExtension(u.filename)) ==> u.conversion.Pass?)
            ==> e == Rejected(u.filename, u.analysis.msg)
  {
    var ext := FileExtension(u.filename);
    if ext !in AllowedExtensions then Rejected(u.filename, "Invalid format: " + ext)
    else if u.stored.Raised? then Rejected(u.filename, u.stored.msg)
    else if NeedsJpegConversion(ext) && u.conversion.Fail? then Rejected(u.filename, u.conversion.msg)
    else match u.analysis
      case Raised(msg) => Rejected(u.filename, msg)
      case Done(result) => Processed(u.filename, result, ext)
  }

  /** The batch endpoint's reply. */
  datatype BatchResponse = BatchResponse(
    success: bool,
    totalFiles: nat,
    processed: nat,
    failed: nat,
    results: seq<FileEntry>)

  /** `analyze_batch_images(files)`: one entry per file in input order, then
      the summary counts over the entries. */
  method AnalyzeBatch(uploads: seq<Upload>) returns (resp: BatchResponse)
    ensures resp.success
    ensures resp.totalFiles == |resp.results| == |uploads|
    ensures forall i :: 0 <= i < |uploads| ==> resp.results[i] == BatchEntry(uploads[i])
    ensures resp.processed == multiset(Seqs.Map(Succeeded, resp.results))[true]
    ensures resp.failed == multiset(Seqs.Map(Succeeded, resp.results))[false]
    ensures resp.processed + resp.failed == resp.totalFiles
  {
    var results := Seqs.Map(BatchEntry, uploads);
    var successful := CountSucceeded(results);
    resp := BatchResponse(true, |results|, successful, |results| - successful, results);
  }

  /** `sum(1 for r in results if r.get("success"))`, with the failures as the
      rest. */
  method CountSucceeded(results: seq<FileEntry>) returns (n: nat)
    ensures n == multiset(Seqs.Map(Succeeded, results))[true]
    ensures |results| - n == multiset(Seqs.Map(Succeeded, results))[false]
  {
    n := 0;
    var k := 0;
    while k < |results|
      invariant 0 <= k <= |results|
      invariant n == multiset(Seqs.Map(Succeeded, results[..k]))[true]
      invariant k - n == multiset(Seqs.Map(Succeeded, results[..k]))[false]
    {
      assert results[..k + 1] == results[..k] + [results[k]];
      Seqs.MapSnoc(Succeeded, results[..k], results[k]);
      if Succeeded(results[k]) {
        n := n + 1;
      }
      k := k + 1;
    }
    assert results[..k] == results;
  }

  /** The summary does not depend on the order of the files. */
  lemma SummaryOrderFree(es: seq<FileEntry>, es': seq<FileEntry>)
    requires multiset(es) == multiset(es')
    ensures multiset(Seqs.Map(Succeeded, es))[true] == multiset(Seqs.Map(Succeeded, es'))[true]
  {
    Seqs.MapPermutation(Succeeded, es, es');
  }
}
