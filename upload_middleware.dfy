/**
 * The upload middleware: the PDF-only file filter, the size limit and the
 * name under which an accepted file is stored.
 */
module UploadMiddleware {
  import opened Ascii

  /** The one accepted MIME type. */
  const PDF_MIME := "application/pdf"

  /** `allowedTypes` */
  const ALLOWED_TYPES: seq<string> := [PDF_MIME]

  /** `limits.fileSize`: 5 MB. */
  const MAX_FILE_SIZE := 5 * 1024 * 1024

  /** The error a rejected file produces. */
  const INVALID_TYPE_MESSAGE := "Invalid file type. Only PDF resumes are allowed."

  /** The position of the last `c` in `s`, or -1. */
  function LastIndexOf(s: string, c: char): (k: int)
    ensures -1 <= k < |s|
    ensures k >= 0 ==> s[k] == c
    ensures forall j :: k < j < |s| ==> s[j] != c
  {
    if s == [] then -1
    else if s[|s| - 1] == c then |s| - 1
    else LastIndexOf(s[..|s| - 1], c)
  }

  /** The last occurrence is the only one with no occurrence after it. */
  lemma LastIndexOfUnique(s: string, c: char, k: int)
    requires -1 <= k < |s| && (k >= 0 ==> s[k] == c)
    requires forall j :: k < j < |s| ==> s[j] != c
    ensures LastIndexOf(s, c) == k
  {
  }

  /** The path without its trailing '/' characters. */
  function StripTrailingSlashes(s: string): (r: string)
    ensures |r| <= |s| && r == s[..|r|]
    ensures r == [] || r[|r| - 1] != '/'
    ensures forall j :: |r| <= j < |s| ==> s[j] == '/'
  {
    if s == [] || s[|s| - 1] != '/' then s else StripTrailingSlashes(s[..|s| - 1])
  }

  /**
   * The last component of a path, as `path.basename` finds it: the longest
   * suffix without '/' of the path stripped of its trailing slashes.
   */
  function BaseName(path: string): (base: string)
    ensures '/' !in base
  {
    var t := StripTrailingSlashes(path);
    t[LastIndexOf(t, '/') + 1..]
  }

  /**
   * The last component is the longest suffix without '/' of the path with
   * its trailing slashes removed.
   */
  lemma BaseNameIsLastComponent(path: string)
    ensures var t, base := StripTrailingSlashes(path), BaseName(path);
      && |base| <= |t| && base == t[|t| - |base|..]
      && (|base| < |t| ==> t[|t| - |base| - 1] == '/')
  {
  }

  /** A name without '/' is its own last component. */
  lemma BaseNameOfPlain(name: string)
    requires '/' !in name
    ensures BaseName(name) == name
  {
    assert StripTrailingSlashes(name) == name by {
      if name != [] {
        assert name[|name| - 1] in name;
      }
    }
    LastIndexOfUnique(name, '/', -1);
  }

  /**
   * Node's `path.extname`: from the last '.' of the last path component to
   * its end; empty when the component has no '.', starts with its only
   * leading run at the last '.', or is "..".
   */
  function ExtName(path: string): (ext: string)
    ensures ext == [] || (ext[0] == '.' && '.' !in ext[1..])
    ensures '/' !in ext
  {
    var base := BaseName(path);
    var k := LastIndexOf(base, '.');
    if k <= 0 || base == ".." then ""
    else
      assert forall j :: 1 <= j < |base[k..]| ==> base[k..][j] == base[k + j];
      base[k..]
  }

  /**
   * The extension is the suffix of the last path component from its last
   * '.'; there is none when no '.' follows the component's first character,
   * or when the component is "..".
   */
  lemma ExtNameFromLastDot(path: string)
    ensures var base, ext := BaseName(path), ExtName(path);
      ext == [] <==> base == ".." || forall j :: 0 < j < |base| ==> base[j] != '.'
    ensures var base, ext := BaseName(path), ExtName(path);
      ext != [] ==> |ext| < |base| && ext == base[|base| - |ext|..]
  {
    var base := BaseName(path);
    var k := LastIndexOf(base, '.');
    if k > 0 && base != ".." {
      assert ExtName(path) == base[k..];
    }
  }

  /** The filter's verdict: accept, or reject with an error. */
  datatype Decision = Accept | Reject(message: string)

  /**
   * `fileFilter`: a file is accepted iff its MIME type is exactly
   * "application/pdf" and its extension, lower-cased, is ".pdf".
   */
  function FileFilter(mimetype: string, originalName: string): (d: Decision)
    ensures d == Accept <==> mimetype == PDF_MIME && Lower(ExtName(originalName)) == ".pdf"
    ensures d != Accept ==> d == Reject(INVALID_TYPE_MESSAGE)
  {
    if mimetype in ALLOWED_TYPES && Lower(ExtName(originalName)) == ".pdf" then Accept
    else Reject(INVALID_TYPE_MESSAGE)
  }

  /**
   * For a plain file name, the extension test reads: more than four
   * characters, the last four being ".pdf" in any letter case.
   */
  lemma PdfExtension(name: string)
    requires '/' !in name
    ensures Lower(ExtName(name)) == ".pdf" <==> |name| > 4 && Lower(name[|name| - 4..]) == ".pdf"
  {
    BaseNameOfPlain(name);
    var k := LastIndexOf(name, '.');
    if |name| > 4 && Lower(name[|name| - 4..]) == ".pdf" {
      var n := |name|;
      assert LowerChar(name[n - 4]) == '.' && LowerChar(name[n - 3]) == 'p';
      assert LowerChar(name[n - 2]) == 'd' && LowerChar(name[n - 1]) == 'f';
      LastIndexOfUnique(name, '.', n - 4);
      assert name != "..";
    }
    if Lower(ExtName(name)) == ".pdf" {
      var ext := ExtName(name);
      assert |ext| == 4 && ext == name[k..];
    }
  }

  /** Any letter case of ".pdf" after a non-empty stem is accepted. */
  lemma AnyCaseAccepted(stem: string, ext: string)
    requires stem != [] && '/' !in stem && '/' !in ext
    requires |ext| == 4 && Lower(ext) == ".pdf"
    ensures FileFilter(PDF_MIME, stem + ext) == Accept
  {
    var name := stem + ext;
    assert '/' !in name by {
      forall j | 0 <= j < |name|
        ensures name[j] != '/'
      {
        if j < |stem| { assert name[j] == stem[j]; } else { assert name[j] == ext[j - |stem|]; }
      }
    }
    assert name[|name| - 4..] == ext;
    PdfExtension(name);
  }

  /** A name ending in anything but a case variant of ".pdf" is rejected. */
  lemma OtherEndingRejected(name: string)
    requires '/' !in name
    requires |name| >= 4 && Lower(name[|name| - 4..]) != ".pdf"
    ensures FileFilter(PDF_MIME, name) == Reject(INVALID_TYPE_MESSAGE)
  {
    PdfExtension(name);
  }

  /** The MIME type must match exactly. */
  lemma MimeTypeIsExact()
    ensures FileFilter("application/PDF", "cv.pdf") == Reject(INVALID_TYPE_MESSAGE)
  {
  }

  /** A name that is only a leading dot and "pdf" has no extension and is rejected. */
  lemma DotFileRejected()
    ensures FileFilter(PDF_MIME, ".pdf") == Reject(INVALID_TYPE_MESSAGE)
  {
    PdfExtension(".pdf");
  }

  /** multer's size check: a file of at most `limits.fileSize` bytes is let through. */
  predicate WithinSizeLimit(size: nat) {
    size <= MAX_FILE_SIZE
  }

  /** The limit is 5,242,880 bytes, inclusive. */
  lemma SizeLimit()
    ensures MAX_FILE_SIZE == 5242880
    ensures WithinSizeLimit(5242880) && !WithinSizeLimit(5242881)
  {
  }

  /** The decimal digits of `n`, as `String(n)` writes a whole number. */
  function NatToDecimal(n: nat): (s: string)
    ensures s != []
    ensures forall i :: 0 <= i < |s| ==> '0' <= s[i] <= '9'
  {
    if n < 10 then [('0' as int + n) as char]
    else NatToDecimal(n / 10) + [('0' as int + n % 10) as char]
  }

  /** The number a string of decimal digits denotes. */
  function DecimalValue(s: string): int {
    if s == [] then 0 else 10 * DecimalValue(s[..|s| - 1]) + (s[|s| - 1] as int - '0' as int)
  }

  /** Writing a number in decimal and reading it back gives the number. */
  lemma {:induction false} DecimalRoundTrip(n: nat)
    ensures DecimalValue(NatToDecimal(n)) == n
  {
    if n >= 10 {
      DecimalRoundTrip(n / 10);
      var s := NatToDecimal(n);
      assert s[..|s| - 1] == NatToDecimal(n / 10);
    }
  }

  /**
   * The stored file name: `Date.now() + "-" + Math.round(Math.random() * 1e9)`
   * followed by the original name's extension. The clock and the random
   * number are parameters.
   */
  function StoredFilename(now: nat, random: nat, originalName: string): (name: string)
    ensures '/' !in name
  {
    NatToDecimal(now) + "-" + NatToDecimal(random) + ExtName(originalName)
  }

  /** The position of the first `c` in `t`, or `|t|` when there is none. */
  function FirstIndex(c: char, t: string): (k: nat)
    ensures k <= |t|
  {
    if t == [] || t[0] == c then 0 else 1 + FirstIndex(c, t[1..])
  }

  /** In a part without `c` followed by a part that is empty or starts with `c`, the first `c` ends the first part. */
  lemma {:induction false} FirstIndexAfterPlain(c: char, a: string, b: string)
    requires c !in a
    requires b == [] || b[0] == c
    ensures FirstIndex(c, a + b) == |a|
    decreases |a|
  {
    if a == [] {
      assert a + b == b;
    } else {
      assert (a + b)[0] == a[0];
      assert (a + b)[1..] == a[1..] + b;
      FirstIndexAfterPlain(c, a[1..], b);
    }
  }

  /**
   * Two texts that each split into a part without `c` followed by a part
   * that is empty or starts with `c` split at the same place.
   */
  lemma SplitAtFirst(c: char, a: string, b: string, x: string, y: string)
    requires c !in a && c !in x
    requires b == [] || b[0] == c
    requires y == [] || y[0] == c
    requires a + b == x + y
    ensures a == x && b == y
  {
    var t := a + b;
    FirstIndexAfterPlain(c, a, b);
    FirstIndexAfterPlain(c, x, y);
    assert a == t[..|a|] && x == t[..|x|];
    assert b == t[|a|..] && y == t[|x|..];
  }

  /** Decimal digits contain neither '-' nor '.'. */
  lemma DigitsArePlain(n: nat)
    ensures '-' !in NatToDecimal(n) && '.' !in NatToDecimal(n)
  {
    var d := NatToDecimal(n);
    forall j | 0 <= j < |d|
      ensures d[j] != '-' && d[j] != '.'
    {
    }
  }

  /**
   * The stored name determines the clock reading, the random number and the
   * extension it was made from: the name reads back as `<now>-<random><ext>`.
   */
  lemma StoredNameDeterminesParts(now: nat, random: nat, originalName: string,
                                  now': nat, random': nat, originalName': string)
    requires StoredFilename(now, random, originalName) == StoredFilename(now', random', originalName')
    ensures now == now' && random == random'
    ensures ExtName(originalName) == ExtName(originalName')
  {
    var d, r, e := NatToDecimal(now), NatToDecimal(random), ExtName(originalName);
    var d', r', e' := NatToDecimal(now'), NatToDecimal(random'), ExtName(originalName');
    DigitsArePlain(now);
    DigitsArePlain(random);
    DigitsArePlain(now');
    DigitsArePlain(random');
    var p, p' := d + "-" + r, d' + "-" + r';
    assert '.' !in p && '.' !in p';
    assert p + e == p' + e';
    SplitAtFirst('.', p, e, p', e');
    assert p == d + ("-" + r) && p' == d' + ("-" + r');
    SplitAtFirst('-', d, "-" + r, d', "-" + r');
    assert r == ("-" + r)[1..] && r' == ("-" + r')[1..];
    DecimalRoundTrip(now);
    DecimalRoundTrip(now');
    DecimalRoundTrip(random);
    DecimalRoundTrip(random');
  }

  /** The stored name has the original name's extension, so it passes the same extension test. */
  lemma StoredNameKeepsExtension(now: nat, random: nat, originalName: string)
    ensures ExtName(StoredFilename(now, random, originalName)) == ExtName(originalName)
  {
    var p := NatToDecimal(now) + "-" + NatToDecimal(random);
    var e := ExtName(originalName);
    assert forall j :: 0 <= j < |p| ==> p[j] != '.' && p[j] != '/';
    assert p + e == StoredFilename(now, random, originalName);
    ExtNameAfterPlainPrefix(p, e);
  }

  /** A prefix without '.' or '/' in front of an extension does not change it. */
  lemma ExtNameAfterPlainPrefix(p: string, e: string)
    requires p != [] && forall j :: 0 <= j < |p| ==> p[j] != '.' && p[j] != '/'
    requires e == [] || (e[0] == '.' && '.' !in e[1..])
    requires '/' !in e
    ensures ExtName(p + e) == e
  {
    var s := p + e;
    assert '/' !in s by {
      forall j | 0 <= j < |s|
        ensures s[j] != '/'
      {
        if j >= |p| {
          assert s[j] == e[j - |p|];
        }
      }
    }
    BaseNameOfPlain(s);
    if e == [] {
      assert s == p;
      LastIndexOfUnique(s, '.', -1);
    } else {
      forall j | |p| < j < |s|
        ensures s[j] != '.'
      {
        assert s[j] == e[1..][j - |p| - 1];
      }
      LastIndexOfUnique(s, '.', |p|);
      assert s[0] == p[0];
      assert s[|p|..] == e;
    }
  }
}
