/**
 * Where a resume is stored: the object key `ddmmyyyy/<name>_<with>_<underscores><ext>`
 * and the `s3://bucket/key` URL recorded in the ledger.
 */
module ResumeKey {
  import opened Wrappers
  import opened Digits
  import opened Dates
  import opened PosixPath

  /** `s.replace(' ', '_')`. */
  function ReplaceSpaces(s: string): (r: string)
    ensures |r| == |s|
    ensures forall i | 0 <= i < |s| :: r[i] == (if s[i] == ' ' then '_' else s[i])
  {
    if s == [] then []
    else [if s[0] == ' ' then '_' else s[0]] + ReplaceSpaces(s[1..])
  }

  lemma NoSpaceAfterReplace(s: string)
    ensures ' ' !in ReplaceSpaces(s)
  {
    var r := ReplaceSpaces(s);
    forall i | 0 <= i < |r| ensures r[i] != ' ' {
    }
  }

  /** Two names are equal but for swapping ' ' and '_' at some positions. */
  predicate SameUpToSpaceOrUnderscore(a: string, b: string) {
    |a| == |b| &&
    forall i | 0 <= i < |a| :: a[i] == b[i] || (a[i] in " _" && b[i] in " _")
  }

  /** Sanitised names collide exactly when the names differ only in spaces versus underscores. */
  lemma ReplaceSpacesCollision(a: string, b: string)
    ensures ReplaceSpaces(a) == ReplaceSpaces(b) <==> SameUpToSpaceOrUnderscore(a, b)
  {
    var ra, rb := ReplaceSpaces(a), ReplaceSpaces(b);
    if ra == rb {
      forall i | 0 <= i < |a| ensures a[i] == b[i] || (a[i] in " _" && b[i] in " _") {
        assert ra[i] == rb[i];
      }
    }
    if SameUpToSpaceOrUnderscore(a, b) {
      forall i | 0 <= i < |a| ensures ra[i] == rb[i] {
      }
      assert ra == rb;
    }
  }

  /**
   * The stored file's name: the applicant name, one character per
   * character and no space left, followed by the upload's extension.
   */
  function ResumeFileName(name: string, filename: string): (r: string)
    ensures |r| == |name| + |Extension(filename)|
    ensures ' ' !in r[..|name|] && r[|name|..] == Extension(filename)
  {
    NoSpaceAfterReplace(name);
    ReplaceSpaces(name) + Extension(filename)
  }

  /** The object key: the date folder, a '/', and the resume file name. */
  function ObjectKey(date: Date, name: string, filename: string): (key: string)
    requires Valid(date)
    ensures |key| == 9 + |name| + |Extension(filename)|
    ensures AllDigits(key[..8]) && key[8] == '/'
  {
    Ddmmyyyy(date) + "/" + ResumeFileName(name, filename)
  }

  /** `s3://<bucket>/<key>`: the scheme, the bucket, '/', and the key, which the URL determines. */
  function ResumeUrl(bucket: string, key: string): (url: string)
    ensures |url| == 6 + |bucket| + |key|
    ensures url[..5] == "s3://" && url[5..5 + |bucket|] == bucket && url[5 + |bucket|] == '/'
    ensures url[6 + |bucket|..] == key
  {
    "s3://" + bucket + "/" + key
  }

  /**
   * The key is the date folder, '/', the name with every ' ' made '_' and
   * nothing else changed, then the extension, which is a suffix of the filename.
   */
  lemma ObjectKeyLayout(date: Date, name: string, filename: string)
    requires Valid(date)
    ensures var key := ObjectKey(date, name, filename);
      var ext := Extension(filename);
      && |key| == 9 + |name| + |ext|
      && ParseDdmmyyyy(key[..8]) == Some(date)
      && key[8] == '/'
      && (forall i | 0 <= i < |name| :: key[9 + i] == (if name[i] == ' ' then '_' else name[i]))
      && key[9 + |name|..] == ext
      && filename[|filename| - |ext|..] == ext
  {
    var key := ObjectKey(date, name, filename);
    ParseOfDdmmyyyy(date);
    assert key[..8] == Ddmmyyyy(date);
    var split := SplitExt(filename);
    assert filename[|filename| - |split.1|..] == split.1;
  }

  /**
   * Two submissions write the same object exactly when they fall on the same
   * date and produce the same resume file name.
   */
  lemma ObjectKeyCollision(d1: Date, n1: string, f1: string, d2: Date, n2: string, f2: string)
    requires Valid(d1) && Valid(d2)
    ensures ObjectKey(d1, n1, f1) == ObjectKey(d2, n2, f2) <==>
            d1 == d2 && ResumeFileName(n1, f1) == ResumeFileName(n2, f2)
  {
    var k1, k2 := ObjectKey(d1, n1, f1), ObjectKey(d2, n2, f2);
    if k1 == k2 {
      assert k1[..8] == Ddmmyyyy(d1) && k2[..8] == Ddmmyyyy(d2);
      DdmmyyyyInjective(d1, d2);
      assert k1[9..] == ResumeFileName(n1, f1) && k2[9..] == ResumeFileName(n2, f2);
    }
  }

  /** Applicants whose names differ only by ' ' versus '_' overwrite each other on the same day. */
  lemma SpaceAndUnderscoreNamesCollide(date: Date, a: string, b: string, fa: string, fb: string)
    requires Valid(date) && SameUpToSpaceOrUnderscore(a, b) && Extension(fa) == Extension(fb)
    ensures ObjectKey(date, a, fa) == ObjectKey(date, b, fb)
  {
    ReplaceSpacesCollision(a, b);
  }

  /** Within one bucket, the URL names exactly one key. */
  lemma ResumeUrlInjective(bucket: string, k1: string, k2: string)
    requires ResumeUrl(bucket, k1) == ResumeUrl(bucket, k2)
    ensures k1 == k2
  {
  }

  /** "Jane Doe" uploading resume.pdf on 1 May 2024 is stored under 01052024/Jane_Doe.pdf. */
  lemma JaneDoeKey(date: Date, name: string, filename: string)
    requires date == Date(2024, 5, 1) && name == "Jane Doe" && filename == "resume.pdf"
    ensures Valid(date) && ObjectKey(date, name, filename) == "01052024" + "/" + "Jane_Doe.pdf"
  {
    JaneDoeFileName(name, filename);
    FirstOfMay2024(date);
  }

  lemma JaneDoeFileName(name: string, filename: string)
    requires name == "Jane Doe" && filename == "resume.pdf"
    ensures ResumeFileName(name, filename) == "Jane_Doe.pdf"
  {
    SplitExtOfPlainName();
    JaneDoeSanitised();
    JaneDoePdf();
  }

  lemma JaneDoePdf()
    ensures "Jane_Doe" + ".pdf" == "Jane_Doe.pdf"
  {
  }

  lemma JaneDoeSanitised()
    ensures ReplaceSpaces("Jane Doe") == "Jane_Doe"
  {
    var r := ReplaceSpaces("Jane Doe");
    assert |r| == 8;
    forall i | 0 <= i < 8 ensures r[i] == "Jane_Doe"[i] {
    }
  }
}
