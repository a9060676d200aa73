/**
  The two PDF tests of ocr_utils.py. The primary path asks whether the
  extension found by POSIX `os.path.splitext`, lowercased, is `.pdf`; the
  OCR fallback asks whether the lowercased path ends with `.pdf`. They
  differ on a file name made only of dots followed by `pdf`, such as `.pdf`.
 */
module PdfRouting {
  import opened PyStr

  /** Every character of `s` from index `lo` up to `hi` is a dot. */
  predicate DotsOnly(s: string, lo: int, hi: int) {
    forall i :: lo <= i < hi && 0 <= i < |s| ==> s[i] == '.'
  }

  /** Where the extension of `os.path.splitext(path)` starts, or -1: the
      last dot of the final component (POSIX separators), unless no
      character other than a dot comes before it in that component (a
      dot-file has no extension). */
  function ExtStart(path: string): (k: int)
    ensures -1 <= k < |path|
    ensures k >= 0 ==> path[k] == '.'
    ensures k >= 0 ==> forall j :: k < j < |path| ==> path[j] != '.' && path[j] != '/'
    ensures k >= 0 ==> RFind(path, '/') < k && !DotsOnly(path, RFind(path, '/') + 1, k)
    ensures k == -1 ==> NoExtension(path)
  {
    var sep := RFind(path, '/');
    var dot := RFind(path, '.');
    if dot > sep && !DotsOnly(path, sep + 1, dot) then dot
    else
      assert NoExtension(path) by {
        forall j | sep < j < |path| && path[j] == '.' ensures DotsOnly(path, sep + 1, j) {
          assert j <= dot;
        }
      }
      -1
  }

  /** No dot of the final component has anything but dots before it in
      that component. */
  predicate NoExtension(path: string) {
    var sep := RFind(path, '/');
    forall j :: sep < j < |path| && path[j] == '.' ==> DotsOnly(path, sep + 1, j)
  }

  /** `os.path.splitext(path)[1]`: empty, or a suffix of the path that
      starts with its only dot and holds no separator. */
  function SplitExt(path: string): (ext: string)
    ensures EndsWith(path, ext)
    ensures ext != [] ==> ext[0] == '.'
    ensures forall i :: 0 < i < |ext| ==> ext[i] != '.' && ext[i] != '/'
  {
    var k := ExtStart(path);
    if k < 0 then ""
    else
      var ext := path[k..];
      forall i | 0 < i < |ext| ensures ext[i] != '.' && ext[i] != '/' {
        assert ext[i] == path[k + i];
      }
      ext
  }

  /** The leading-periods rule of `splitext`, both ways: the extension is
      empty exactly when every dot of the final component has only dots
      before it in that component; otherwise it starts at the last dot. */
  lemma SplitExtRule(path: string)
    ensures SplitExt(path) == [] <==> NoExtension(path)
    ensures SplitExt(path) != [] ==> |path| - |SplitExt(path)| == RFind(path, '.')
  {
    var k := ExtStart(path);
    if k >= 0 {
      assert path[k] == '.';
      assert !NoExtension(path);
    }
  }

  /** The test in `extract_with_gemini`: `splitext(path)[1].lower() == ".pdf"`.
      When it holds, the extension is the last four characters. */
  predicate GeminiTreatsAsPdf(path: string)
    ensures GeminiTreatsAsPdf(path) ==>
      |path| >= 4 && ExtStart(path) == |path| - 4 && Lower(path[|path| - 4..]) == ".pdf"
  {
    Lower(SplitExt(path)) == ".pdf"
  }

  /** The test in `extract_with_tesseract`: `path.lower().endswith(".pdf")`,
      which looks at the last four characters only. */
  predicate TesseractTreatsAsPdf(path: string)
    ensures TesseractTreatsAsPdf(path) <==>
      |path| >= 4 && Lower(path[|path| - 4..]) == ".pdf"
  {
    EndsWith(Lower(path), ".pdf")
  }

  lemma LowerSuffix(s: string, k: nat)
    requires k <= |s|
    ensures Lower(s)[k..] == Lower(s[k..])
  {
  }

  /** Whatever the primary path opens as a PDF, the fallback does too. */
  lemma {:induction false} GeminiPdfIsTesseractPdf(path: string)
    requires GeminiTreatsAsPdf(path)
    ensures TesseractTreatsAsPdf(path)
  {
    var ext := SplitExt(path);
    LowerSuffix(path, |path| - |ext|);
  }

  /** A path the fallback takes for a PDF ends in a dot followed by three
      characters that are neither dots nor slashes. */
  lemma {:induction false} TesseractPdfTail(path: string)
    requires TesseractTreatsAsPdf(path)
    ensures |path| >= 4 && path[|path| - 4] == '.'
    ensures forall j :: |path| - 4 < j < |path| ==> path[j] != '.' && path[j] != '/'
  {
    var n := |path|;
    LowerSuffix(path, n - 4);
    var tail := Lower(path[n - 4..]);
    assert tail == ".pdf";
    assert LowerChar(path[n - 4]) == tail[0];
    forall j | n - 4 < j < n ensures path[j] != '.' && path[j] != '/' {
      assert LowerChar(path[j]) == tail[j - (n - 4)];
    }
  }

  /** On a path the fallback takes for a PDF, the primary path agrees exactly
      when the file name has a character other than a dot before `.pdf`. */
  lemma {:induction false} PdfRulesDisagreement(path: string)
    requires TesseractTreatsAsPdf(path)
    ensures RFind(path, '/') + 1 <= |path| - 4
    ensures GeminiTreatsAsPdf(path) <==> !DotsOnly(path, RFind(path, '/') + 1, |path| - 4)
  {
    var n := |path|;
    TesseractPdfTail(path);
    var sep := RFind(path, '/');
    var dot := RFind(path, '.');
    assert dot == n - 4;
    assert sep < n - 4;
    if !DotsOnly(path, sep + 1, dot) {
      assert SplitExt(path) == path[n - 4..];
      LowerSuffix(path, n - 4);
    } else {
      assert SplitExt(path) == "";
    }
  }

  /** A file named exactly `.pdf`, in any directory: the fallback converts it
      as a PDF, the primary path opens it as an image. */
  lemma {:induction false} DotPdfBasename(dir: string)
    requires dir == [] || EndsWith(dir, "/")
    ensures TesseractTreatsAsPdf(dir + ".pdf")
    ensures !GeminiTreatsAsPdf(dir + ".pdf")
  {
    var path := dir + ".pdf";
    assert path[|path| - 4..] == ".pdf";
    assert Lower(path)[|path| - 4..] == ".pdf";
    PdfRulesDisagreement(path);
    var sep := RFind(path, '/');
    assert sep == |path| - 5 by {
      if dir != [] { assert path[|dir| - 1] == '/'; }
    }
  }

  /** The last separator of a directory (empty or ending in `/`) followed
      by a name without separators is the directory's own last one. */
  lemma LastSeparator(path: string, dir: string, name: string)
    requires path == dir + name
    requires dir == [] || EndsWith(dir, "/")
    requires forall i :: 0 <= i < |name| ==> name[i] != '/'
    ensures RFind(path, '/') == |dir| - 1
  {
    forall j | |dir| <= j < |path| ensures path[j] != '/' {
      assert path[j] == name[j - |dir|];
    }
    if dir != [] { assert path[|dir| - 1] == dir[|dir| - 1]; }
  }

  /** An ordinary file name ending in `.pdf`, in any letter case, is a PDF to
      both tests. */
  lemma {:induction false} NamedPdfBothAgree(dir: string, stem: string, ext: string)
    requires dir == [] || EndsWith(dir, "/")
    requires stem != [] && stem[0] != '.'
    requires forall i :: 0 <= i < |stem| ==> stem[i] != '/'
    requires Lower(ext) == ".pdf"
    ensures TesseractTreatsAsPdf(dir + stem + ext)
    ensures GeminiTreatsAsPdf(dir + stem + ext)
  {
    var path := dir + stem + ext;
    var n := |path|;
    assert path[n - 4..] == ext;
    LowerSuffix(path, n - 4);
    TesseractPdfTail(path);
    var name := path[|dir|..];
    forall i | 0 <= i < |name| ensures name[i] != '/' {
      if i < |stem| { assert name[i] == stem[i]; }
    }
    assert path == dir + name;
    LastSeparator(path, dir, name);
    assert path[|dir|] == stem[0];
    PdfRulesDisagreement(path);
  }
}
