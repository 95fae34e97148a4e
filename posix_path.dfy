/**
 * `os.path.splitext` on POSIX: the split of a path into root and extension
 * at the last '.' of its last component, where the leading dots of that
 * component never start an extension.
 */
module PosixPath {

  /** Index of the last occurrence of c in s, or -1 when there is none (`str.rfind`). */
  function RFind(s: string, c: char): (i: int)
    ensures -1 <= i < |s|
    ensures 0 <= i ==> s[i] == c
  {
    if s == [] then -1
    else if s[|s| - 1] == c then |s| - 1
    else RFind(s[..|s| - 1], c)
  }

  /** No c occurs after the index RFind returns. */
  lemma {:induction false} RFindIsLast(s: string, c: char)
    ensures forall j | RFind(s, c) < j < |s| :: s[j] != c
  {
    if s != [] && s[|s| - 1] != c {
      var q := s[..|s| - 1];
      RFindIsLast(q, c);
      assert forall j | RFind(s, c) < j < |s| - 1 :: s[j] == q[j];
    }
  }

  predicate AllDots(s: string) {
    forall i | 0 <= i < |s| :: s[i] == '.'
  }

  /**
   * The (root, extension) pair of p: split at the last '.' when it lies after
   * the last '/' and some character other than '.' precedes it within the
   * last component; otherwise the extension is empty.
   */
  function SplitExt(p: string): (r: (string, string))
    ensures r.0 + r.1 == p
    ensures r.1 == [] || (r.1[0] == '.' && '.' !in r.1[1..])
    ensures '/' !in r.1
  {
    var sep := RFind(p, '/');
    var dot := RFind(p, '.');
    if dot > sep && !AllDots(p[sep + 1..dot]) then
      LastDotSuffix(p, sep, dot);
      (p[..dot], p[dot..])
    else
      (p, [])
  }

  /** The text from the last '.' on, when that '.' follows the last '/'. */
  lemma LastDotSuffix(p: string, sep: int, dot: int)
    requires sep == RFind(p, '/') && dot == RFind(p, '.') && sep < dot
    ensures p[dot..][0] == '.' && '.' !in p[dot..][1..] && '/' !in p[dot..]
  {
    var ext := p[dot..];
    forall j | 0 <= j < |ext| ensures ext[j] != '/' && (j > 0 ==> ext[j] != '.') {
      assert ext[j] == p[dot + j];
    }
    assert ext[1..] == p[dot + 1..];
  }

  function Extension(p: string): string {
    SplitExt(p).1
  }

  // ---------------------------------------------------------------------
  // An independent description of the same extension: take the last path
  // component, drop its leading dots, and keep what starts at the last dot.

  /** Everything after the last '/' of p. */
  function Basename(p: string): (b: string)
    ensures '/' !in b
  {
    if p == [] || p[|p| - 1] == '/' then []
    else Basename(p[..|p| - 1]) + [p[|p| - 1]]
  }

  function DropLeadingDots(s: string): (t: string)
    ensures |t| <= |s|
    ensures t == [] || t[0] != '.'
  {
    if s != [] && s[0] == '.' then DropLeadingDots(s[1..]) else s
  }

  /** What DropLeadingDots keeps is a suffix of its input. */
  lemma {:induction false} DropLeadingDotsIsSuffix(s: string)
    ensures DropLeadingDots(s) == s[|s| - |DropLeadingDots(s)|..]
  {
    if s != [] && s[0] == '.' {
      DropLeadingDotsIsSuffix(s[1..]);
    }
  }

  /** The suffix of s that starts at its last '.', or empty when s has no '.'. */
  function FromLastDot(s: string): string {
    if s == [] then []
    else if s[|s| - 1] == '.' then ['.']
    else
      var t := FromLastDot(s[..|s| - 1]);
      if t == [] then [] else t + [s[|s| - 1]]
  }

  function ExtensionByComponent(p: string): string {
    FromLastDot(DropLeadingDots(Basename(p)))
  }

  lemma {:induction false} BasenameIsAfterLastSlash(p: string)
    ensures Basename(p) == p[RFind(p, '/') + 1..]
  {
    if p != [] && p[|p| - 1] != '/' {
      var q := p[..|p| - 1];
      BasenameIsAfterLastSlash(q);
      var i := RFind(q, '/');
      assert RFind(p, '/') == i;
      SliceOfInit(p, i + 1);
    }
  }

  /** A suffix of s is the same suffix of s without its last element, then that element. */
  lemma SliceOfInit(s: string, k: nat)
    requires k < |s|
    ensures s[k..] == s[..|s| - 1][k..] + [s[|s| - 1]]
  {
  }

  /** rfind within a suffix s[k..] is rfind within s, shifted. */
  lemma {:induction false} RFindInSuffix(s: string, c: char, k: nat)
    requires k <= |s|
    ensures RFind(s[k..], c) == if RFind(s, c) >= k then RFind(s, c) - k else -1
  {
    if s != [] && k < |s| && s[|s| - 1] != c {
      var q := s[..|s| - 1];
      RFindInSuffix(q, c, k);
      assert s[k..][..|s[k..]| - 1] == q[k..];
    } else if k == |s| && RFind(s, c) >= k {
      assert false;
    }
  }

  lemma {:induction false} FromLastDotIsRFind(s: string)
    ensures FromLastDot(s) == if RFind(s, '.') >= 0 then s[RFind(s, '.')..] else []
  {
    if s != [] && s[|s| - 1] != '.' {
      var q := s[..|s| - 1];
      FromLastDotIsRFind(q);
      if RFind(q, '.') >= 0 {
        assert s[RFind(s, '.')..] == q[RFind(q, '.')..] + [s[|s| - 1]];
      }
    }
  }

  /** The leading dots DropLeadingDots removes are exactly a maximal run of '.'. */
  lemma {:induction false} DropLeadingDotsIsRun(s: string)
    ensures AllDots(s[..|s| - |DropLeadingDots(s)|])
  {
    if s != [] && s[0] == '.' {
      DropLeadingDotsIsRun(s[1..]);
      var n := |s| - |DropLeadingDots(s)|;
      assert s[..n] == [s[0]] + s[1..][..n - 1];
    }
  }

  lemma SliceOfSuffix(s: string, i: nat, j: nat)
    requires i <= j <= |s|
    ensures s[i..][..j - i] == s[i..j] && s[i..][j - i..] == s[j..]
  {
  }

  /** Within one path component b: drop its leading dots, then cut at the last dot. */
  lemma {:induction false} ComponentExtension(b: string)
    ensures
      FromLastDot(DropLeadingDots(b)) == ComponentRule(b)
  {
    var ib := RFind(b, '.');
    var t := DropLeadingDots(b);
    var n := |b| - |t|;
    DropLeadingDotsIsSuffix(b);
    DropLeadingDotsIsRun(b);
    RFindInSuffix(b, '.', n);
    FromLastDotIsRFind(t);
    if ib >= 0 && !AllDots(b[..ib]) {
      ExtensionAfterLeadingDots(b, n, ib);
      SliceOfSuffix(b, n, ib);
    } else if ib >= 0 {
      NoExtensionWhenOnlyDots(b, n, ib);
    }
  }

  lemma AllDotsPrefix(b: string, n: nat)
    requires n <= |b| && AllDots(b[..n])
    ensures forall i | 0 <= i < n :: b[i] == '.'
  {
    forall i | 0 <= i < n ensures b[i] == '.' {
      assert b[..n][i] == b[i];
    }
  }

  lemma ExtensionAfterLeadingDots(b: string, n: nat, ib: nat)
    requires n <= |b| && ib < |b| && AllDots(b[..n]) && !AllDots(b[..ib])
    ensures n < ib
  {
    var j :| 0 <= j < ib && b[..ib][j] != '.';
    assert b[j] != '.';
    AllDotsPrefix(b, n);
  }

  lemma NoExtensionWhenOnlyDots(b: string, n: nat, ib: nat)
    requires n <= |b| && ib < |b| && b[ib] == '.' && AllDots(b[..ib])
    requires AllDots(b[..n]) && (n == |b| || b[n] != '.')
    ensures ib < n
  {
    AllDotsPrefix(b, ib);
  }

  /** SplitExt's choice restated within the last component b: cut at b's last '.' unless only dots precede it. */
  function ComponentRule(b: string): string {
    var ib := RFind(b, '.');
    if ib >= 0 && !AllDots(b[..ib]) then b[ib..] else []
  }

  lemma {:induction false} SplitExtByLastComponent(p: string)
    ensures Extension(p) == ComponentRule(p[RFind(p, '/') + 1..])
  {
    var sep := RFind(p, '/');
    var dot := RFind(p, '.');
    RFindInSuffix(p, '.', sep + 1);
    if dot > sep {
      DotInLastComponent(p, sep, dot);
    }
  }

  /** When the last '.' follows the last '/', it is the last '.' of the last component too. */
  lemma DotInLastComponent(p: string, sep: int, dot: int)
    requires sep == RFind(p, '/') && dot == RFind(p, '.') && sep < dot
    requires RFind(p[sep + 1..], '.') == dot - sep - 1
    ensures Extension(p) == ComponentRule(p[sep + 1..])
  {
    var b, ib := p[sep + 1..], dot - sep - 1;
    SliceOfSuffix(p, sep + 1, dot);
    assert b[..ib] == p[sep + 1..dot] && b[ib..] == p[dot..];
    assert Extension(p) == if AllDots(p[sep + 1..dot]) then [] else p[dot..];
  }

  lemma ByComponentIsAfterLastSlash(p: string)
    ensures ExtensionByComponent(p) == FromLastDot(DropLeadingDots(p[RFind(p, '/') + 1..]))
  {
    BasenameIsAfterLastSlash(p);
  }

  /** The stdlib algorithm and the component description give the same extension. */
  lemma {:induction false} ExtensionIsByComponent(p: string)
    ensures Extension(p) == ExtensionByComponent(p)
  {
    ByComponentIsAfterLastSlash(p);
    ComponentExtension(p[RFind(p, '/') + 1..]);
    SplitExtByLastComponent(p);
  }

  /** A last component made only of leading dots and dot-free text has no extension. */
  lemma LeadingDotsGiveNoExtension(p: string, dots: string, text: string)
    requires Basename(p) == dots + text
    requires AllDots(dots) && '.' !in text
    ensures Extension(p) == []
  {
    ExtensionIsByComponent(p);
    DropDots(dots, text);
    NoDotNoSuffix(text);
  }

  lemma {:induction false} DropDots(dots: string, text: string)
    requires AllDots(dots) && '.' !in text
    ensures DropLeadingDots(dots + text) == text
  {
    if dots != [] {
      assert (dots + text)[1..] == dots[1..] + text;
      DropDots(dots[1..], text);
    } else {
      assert dots + text == text;
    }
  }

  lemma NoDotNoSuffix(s: string)
    requires '.' !in s
    ensures FromLastDot(s) == []
  {
    FromLastDotIsRFind(s);
  }

  /** RFind is pinned down by where c last occurs. */
  lemma RFindIs(s: string, c: char, i: int)
    requires -1 <= i < |s| && (0 <= i ==> s[i] == c)
    requires forall j | i < j < |s| :: s[j] != c
    ensures RFind(s, c) == i
  {
  }

  // Worked cases of os.path.splitext.

  lemma SplitExtOfPlainName()
    ensures SplitExt("resume.pdf") == ("resume", ".pdf")
  {
    RFindIs("resume.pdf", '/', -1);
    RFindIs("resume.pdf", '.', 6);
    assert "resume.pdf"[0..6][0] != '.';
    assert "resume.pdf"[..6] == "resume" && "resume.pdf"[6..] == ".pdf";
  }

  lemma SplitExtKeepsOnlyLastSuffix()
    ensures SplitExt("archive.tar.gz") == ("archive.tar", ".gz")
  {
    RFindIs("archive.tar.gz", '/', -1);
    RFindIs("archive.tar.gz", '.', 11);
    assert "archive.tar.gz"[0..11][0] != '.';
    assert "archive.tar.gz"[..11] == "archive.tar" && "archive.tar.gz"[11..] == ".gz";
  }

  lemma SplitExtOfDotFiles()
    ensures SplitExt(".pdf") == (".pdf", "")
    ensures SplitExt("...pdf") == ("...pdf", "")
  {
    RFindIs(".pdf", '/', -1);
    RFindIs(".pdf", '.', 0);
    RFindIs("...pdf", '/', -1);
    RFindIs("...pdf", '.', 2);
    assert AllDots("...pdf"[0..2]);
  }

  lemma SplitExtIgnoresDotsInDirectories()
    ensures SplitExt("cv.d/resume") == ("cv.d/resume", "")
  {
    RFindIs("cv.d/resume", '/', 4);
    RFindIs("cv.d/resume", '.', 2);
  }

  lemma SplitExtAfterLeadingDots()
    ensures SplitExt("..resume.docx") == ("..resume", ".docx")
  {
    RFindIs("..resume.docx", '/', -1);
    RFindIs("..resume.docx", '.', 8);
    assert "..resume.docx"[0..8][2] != '.';
    assert "..resume.docx"[..8] == "..resume" && "..resume.docx"[8..] == ".docx";
  }
}
