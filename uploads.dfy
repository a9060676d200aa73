/**
  The path arithmetic of `save_uploaded_file` (file_utils.py): where the
  upload is stored, whether it is converted from PDF, and which path is
  handed on to the extractor. Creating folders and writing files are not
  modelled; the sanitised file name is an input.
 */
module Uploads {
  import opened PyStr
  import opened PdfRouting

  const DefaultDataFolder: string := "data/raw/"
  const DefaultUploadFolder: string := "static/uploads/"

  /** POSIX `os.path.join(a, b)`: an absolute `b` replaces `a`; otherwise
      `b` is appended after one separator. */
  function PathJoin(a: string, b: string): (r: string)
    ensures EndsWith(r, b)
    ensures |r| > |b| ==> r[|r| - |b| - 1] == '/' && StartsWith(r, a)
    ensures StartsWith(b, "/") || a == [] ==> r == b
    ensures !StartsWith(b, "/") && a != [] ==>
      |r| == |a| + |b| + (if EndsWith(a, "/") then 0 else 1)
  {
    assert a != [] ==> (EndsWith(a, "/") <==> a[|a| - 1] == '/');
    assert StartsWith(b, "/") <==> b != [] && b[0] == '/';
    if b != [] && b[0] == '/' then b
    else if a == [] || a[|a| - 1] == '/' then a + b
    else a + "/" + b
  }

  /** `s.split('.')[-1]`: the text after the last dot, or all of `s`. */
  function LastDotField(s: string): (r: string)
    ensures EndsWith(s, r)
    ensures forall i :: 0 <= i < |r| ==> r[i] != '.'
    ensures |r| < |s| ==> s[|s| - |r| - 1] == '.'
  {
    var dot := RFind(s, '.');
    var k := dot + 1;
    var r := s[k..];
    forall i | 0 <= i < |r| ensures r[i] != '.' {
      assert r[i] == s[k + i];
    }
    r
  }

  /** `filename.split('.')[-1].lower()`. */
  function FileExt(filename: string): (r: string)
    ensures EndsWith(Lower(filename), r)
    ensures forall i :: 0 <= i < |r| ==> r[i] != '.'
    ensures |r| < |filename| ==> Lower(filename)[|filename| - |r| - 1] == '.'
  {
    var field := LastDotField(filename);
    var k := |filename| - |field|;
    var r := Lower(field);
    assert EndsWith(Lower(filename), r) by {
      LowerSuffix(filename, k);
      assert filename[k..] == field;
    }
    assert k > 0 ==> Lower(filename)[k - 1] == '.' by {
      if k > 0 { assert Lower(filename)[k - 1] == LowerChar(filename[k - 1]); }
    }
    forall i | 0 <= i < |r| ensures r[i] != '.' {
      assert r[i] == LowerChar(field[i]);
    }
    r
  }

  /** Where the upload is kept, whether it goes through PDF conversion, and
      the picture path returned to the caller. */
  datatype SavePlan = SavePlan(rawPath: string, convertPdf: bool, imagePath: string)

  /** `save_uploaded_file` without its side effects. */
  function SaveUploadedFile(filename: string, dataFolder: string, uploadFolder: string): (r: SavePlan)
    ensures r.convertPdf == (FileExt(filename) == "pdf")
    ensures r.rawPath == PathJoin(dataFolder, filename)
    ensures r.imagePath == PathJoin(uploadFolder, filename + (if r.convertPdf then ".jpg" else ""))
    ensures EndsWith(r.rawPath, filename)
    ensures r.convertPdf ==> EndsWith(r.imagePath, filename + ".jpg")
    ensures !r.convertPdf ==> EndsWith(r.imagePath, filename)
  {
    assert filename + "" == filename;
    var convert := FileExt(filename) == "pdf";
    SavePlan(
      PathJoin(dataFolder, filename),
      convert,
      if convert then PathJoin(uploadFolder, filename + ".jpg") else PathJoin(uploadFolder, filename))
  }

  // ---------------------------------------------------------------------
  // Properties
  // ---------------------------------------------------------------------

  /** Joining under a folder that ends with a separator is concatenation. */
  lemma JoinUnderFolder(folder: string, name: string)
    requires EndsWith(folder, "/")
    requires !StartsWith(name, "/")
    ensures PathJoin(folder, name) == folder + name
  {
    assert folder[|folder| - 1] == "/"[0];
  }

  /** The conversion decision: the name lowercased is `pdf` or ends with
      `.pdf`. */
  lemma {:induction false} PdfDecisionIff(filename: string)
    ensures FileExt(filename) == "pdf" <==>
      Lower(filename) == "pdf" || EndsWith(Lower(filename), ".pdf")
  {
    var n := |filename|;
    var lf := Lower(filename);
    var ext := LastDotField(filename);
    var k := n - |ext|;
    LowerSuffix(filename, k);
    assert ext == filename[k..];
    if FileExt(filename) == "pdf" {
      if k > 0 {
        assert lf[k - 1] == '.';
        assert lf[n - 4..] == [lf[k - 1]] + lf[k..];
      }
    }
    if lf == "pdf" {
      forall i | 0 <= i < n ensures filename[i] != '.' {
        assert LowerChar(filename[i]) == lf[i];
      }
      assert k == 0;
    } else if EndsWith(lf, ".pdf") {
      assert LowerChar(filename[n - 4]) == lf[n - 4];
      forall j | n - 4 < j < n ensures filename[j] != '.' {
        assert LowerChar(filename[j]) == lf[j];
      }
      assert RFind(filename, '.') == n - 4;
      assert k == n - 3;
      LowerSuffix(filename, n - 3);
      assert lf[n - 3..] == lf[n - 4..][1..];
    }
  }

  /** A file named just `pdf`, in any letter case and with no dot at all,
      is still converted. */
  lemma BareNameIsConverted(filename: string, dataFolder: string, uploadFolder: string)
    requires Lower(filename) == "pdf"
    ensures SaveUploadedFile(filename, dataFolder, uploadFolder).convertPdf
  {
    PdfDecisionIff(filename);
  }

  /** The conversion decision depends on the file name alone. */
  lemma DecisionIgnoresFolders(filename: string, d1: string, u1: string, d2: string, u2: string)
    ensures SaveUploadedFile(filename, d1, u1).convertPdf == SaveUploadedFile(filename, d2, u2).convertPdf
  {
  }

  /** With the default folders and a relative name, the upload lands under
      `data/raw/` and the picture under `static/uploads/`, with `.jpg`
      appended for a converted PDF. */
  lemma DefaultFolders(filename: string)
    requires !StartsWith(filename, "/")
    ensures SaveUploadedFile(filename, DefaultDataFolder, DefaultUploadFolder).rawPath ==
      DefaultDataFolder + filename
    ensures SaveUploadedFile(filename, DefaultDataFolder, DefaultUploadFolder).imagePath ==
      DefaultUploadFolder + filename + (if FileExt(filename) == "pdf" then ".jpg" else "")
  {
    JoinUnderFolder(DefaultDataFolder, filename);
    JoinUnderFolder(DefaultUploadFolder, filename);
    if FileExt(filename) == "pdf" {
      assert !StartsWith(filename + ".jpg", "/") by {
        if filename != [] { assert (filename + ".jpg")[0] == filename[0]; }
      }
      JoinUnderFolder(DefaultUploadFolder, filename + ".jpg");
    }
  }

  /** A joined path that ends in `.pdf` gets that ending from the name. */
  lemma {:induction false} JoinedPdfNameIsPdf(folder: string, filename: string)
    requires TesseractTreatsAsPdf(PathJoin(folder, filename))
    ensures EndsWith(Lower(filename), ".pdf")
  {
    var p := PathJoin(folder, filename);
    var n := |p|;
    var m := |filename|;
    TesseractPdfTail(p);
    assert m >= 4;
    assert p[n - 4..] == filename[m - 4..];
    LowerSuffix(p, n - 4);
    LowerSuffix(filename, m - 4);
  }

  /** A path whose last character is `g` is no PDF to the fallback. */
  lemma JpgIsNotPdf(p: string)
    requires p != [] && p[|p| - 1] == 'g'
    ensures !TesseractTreatsAsPdf(p)
  {
    assert Lower(p)[|p| - 1] == 'g';
  }

  /** A path ending in `<name>.jpg` is no PDF to the fallback. */
  lemma JpgNameIsNotPdf(p: string, filename: string)
    requires EndsWith(p, filename + ".jpg")
    ensures !TesseractTreatsAsPdf(p)
  {
    var jpg := filename + ".jpg";
    assert p[|p| - 1] == jpg[|jpg| - 1];
    JpgIsNotPdf(p);
  }

  /** A joined path ending in `.pdf` comes from a name that is converted. */
  lemma {:induction false} JoinedPdfIsConverted(folder: string, filename: string)
    requires TesseractTreatsAsPdf(PathJoin(folder, filename))
    ensures FileExt(filename) == "pdf"
  {
    JoinedPdfNameIsPdf(folder, filename);
    PdfDecisionIff(filename);
  }

  /** The path handed on to the extractor does not end in `.pdf`: a
      converted upload ends in `.jpg`, and any other name that ends in
      `.pdf` would have been converted. */
  lemma {:induction false} UploadedPathIsNotTesseractPdf(filename: string, dataFolder: string, uploadFolder: string)
    ensures !TesseractTreatsAsPdf(SaveUploadedFile(filename, dataFolder, uploadFolder).imagePath)
  {
    var plan := SaveUploadedFile(filename, dataFolder, uploadFolder);
    var p := plan.imagePath;
    if plan.convertPdf {
      JpgNameIsNotPdf(p, filename);
    } else if TesseractTreatsAsPdf(p) {
      assert filename + "" == filename;
      JoinedPdfIsConverted(uploadFolder, filename);
    }
  }

  /** The path handed on to the extractor is never a PDF to either of its
      tests. */
  lemma UploadedPathIsNeverPdf(filename: string, dataFolder: string, uploadFolder: string)
    ensures !TesseractTreatsAsPdf(SaveUploadedFile(filename, dataFolder, uploadFolder).imagePath)
    ensures !GeminiTreatsAsPdf(SaveUploadedFile(filename, dataFolder, uploadFolder).imagePath)
  {
    var p := SaveUploadedFile(filename, dataFolder, uploadFolder).imagePath;
    UploadedPathIsNotTesseractPdf(filename, dataFolder, uploadFolder);
    if GeminiTreatsAsPdf(p) {
      GeminiPdfIsTesseractPdf(p);
    }
  }
}
