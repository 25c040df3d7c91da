/**
 * POSIX `os.path.splitext`, which `Parser.extract` uses to decide whether its
 * input already has the `.wav` extension: the extension starts at the last `.`
 * of the final path component, unless everything before that dot in the
 * component is a dot too (so `.bashrc` and `..wav` have no extension).
 */
module PathSplit {

  /** The index of the last `c` among the first `n` characters of `s`, or -1. */
  function LastBefore(s: string, c: char, n: nat): (i: int)
    requires n <= |s|
    ensures -1 <= i < n
  {
    if n == 0 then -1
    else if s[n - 1] == c then n - 1
    else LastBefore(s, c, n - 1)
  }

  /** `s.rfind(c)`: the index of the last occurrence of `c` in `s`, or -1. */
  function RFind(s: string, c: char): (i: int)
    ensures -1 <= i < |s|
  {
    LastBefore(s, c, |s|)
  }

  lemma {:induction false} LastBeforeIsLast(s: string, c: char, n: nat)
    requires n <= |s|
    ensures var i := LastBefore(s, c, n);
      && (i >= 0 ==> s[i] == c)
      && forall j :: i < j < n ==> s[j] != c
  {
    if n > 0 && s[n - 1] != c {
      LastBeforeIsLast(s, c, n - 1);
    }
  }

  /** RFind finds the last `c`: there is a `c` at its answer and none after it. */
  lemma RFindIsLast(s: string, c: char)
    ensures var i := RFind(s, c);
      && (i >= 0 ==> s[i] == c)
      && forall j :: i < j < |s| ==> s[j] != c
  {
    LastBeforeIsLast(s, c, |s|);
  }

  /** The facts RFindIsLast states determine RFind's answer. */
  lemma RFindUnique(s: string, c: char, i: int)
    requires -1 <= i < |s|
    requires i >= 0 ==> s[i] == c
    requires forall j :: i < j < |s| ==> s[j] != c
    ensures RFind(s, c) == i
  {
    RFindIsLast(s, c);
  }

  /** Appending text that does not contain `c` does not move the last `c`. */
  lemma RFindAppend(s: string, t: string, c: char)
    requires forall j :: 0 <= j < |t| ==> t[j] != c
    ensures RFind(s + t, c) == RFind(s, c)
  {
    RFindIsLast(s, c);
    var k := RFind(s, c);
    var st := s + t;
    forall j | k < j < |st|
      ensures st[j] != c
    {
      if j < |s| {
        assert st[j] == s[j];
      } else {
        assert st[j] == t[j - |s|];
      }
    }
    RFindUnique(st, c, k);
  }

  /** Some character of `p[lo..hi]` is not a dot (the leading-dot scan of `splitext`). */
  predicate NonDotIn(p: string, lo: nat, hi: nat)
    requires lo <= hi <= |p|
    decreases hi - lo
  {
    lo < hi && (p[lo] != '.' || NonDotIn(p, lo + 1, hi))
  }

  lemma {:induction false} NonDotInMeans(p: string, lo: nat, hi: nat)
    requires lo <= hi <= |p|
    ensures NonDotIn(p, lo, hi) <==> exists i :: lo <= i < hi && p[i] != '.'
    decreases hi - lo
  {
    if lo < hi {
      NonDotInMeans(p, lo + 1, hi);
    }
  }

  /** The scan only looks at `p[lo..hi]`: extending `p` past `hi` does not change it. */
  lemma {:induction false} NonDotInPrefix(p: string, t: string, lo: nat, hi: nat)
    requires lo <= hi <= |p|
    ensures NonDotIn(p + t, lo, hi) == NonDotIn(p, lo, hi)
    decreases hi - lo
  {
    if lo < hi {
      assert (p + t)[lo] == p[lo];
      NonDotInPrefix(p, t, lo + 1, hi);
    }
  }

  /** The last component of `p` (after the last `/`) holds a character other than a dot. */
  predicate StemHasNonDot(p: string)
  {
    NonDotIn(p, RFind(p, '/') + 1, |p|)
  }

  /** `os.path.splitext(p)` on POSIX, as a pair `(root, ext)`. */
  function SplitExt(p: string): (string, string)
  {
    var sep := RFind(p, '/');
    var dot := RFind(p, '.');
    if dot > sep && NonDotIn(p, sep + 1, dot) then (p[..dot], p[dot..]) else (p, [])
  }

  /**
   * `root + ext == p`; `ext` is empty or a dot followed by neither a dot nor a
   * slash; and `ext` is non-empty exactly when the last component has a dot
   * with a non-dot character somewhere before it.
   */
  lemma SplitExtParts(p: string)
    ensures var (root, ext) := SplitExt(p);
      && root + ext == p
      && (ext == [] || (ext[0] == '.' && forall i :: 1 <= i < |ext| ==> ext[i] != '.' && ext[i] != '/'))
      && (ext != [] <==> exists i :: RFind(p, '/') < i < RFind(p, '.') && p[i] != '.')
  {
    var sep := RFind(p, '/');
    var dot := RFind(p, '.');
    RFindIsLast(p, '/');
    RFindIsLast(p, '.');
    if dot > sep {
      NonDotInMeans(p, sep + 1, dot);
    }
    if dot > sep && NonDotIn(p, sep + 1, dot) {
      var e := p[dot..];
      assert p[..dot] + e == p;
      forall i | 1 <= i < |e|
        ensures e[i] != '.' && e[i] != '/'
      {
        assert e[i] == p[dot + i];
      }
    }
  }

  /** The test on line 25 of the parser: the extension is exactly `.wav`, case included. */
  predicate IsWav(filename: string)
  {
    SplitExt(filename).1 == ".wav"
  }

  /**
   * `<base>.wav` has the extension `.wav` exactly when the last component of
   * `<base>` holds a character other than a dot.
   */
  lemma WavSuffix(base: string)
    ensures IsWav(base + ".wav") <==> StemHasNonDot(base)
  {
    var p := base + ".wav";
    RFindAppend(base, ".wav", '/');
    var sep := RFind(base, '/');
    assert p[|base|] == '.';
    RFindUnique(p, '.', |base|);
    NonDotInPrefix(base, ".wav", sep + 1, |base|);
    if StemHasNonDot(base) {
      assert p[|base|..] == ".wav";
    }
  }

  /**
   * The whole `.wav` test: a name counts as `.wav` exactly when it ends in
   * `.wav` and the part of its last component before that suffix holds a
   * character other than a dot.
   */
  lemma IsWavExactly(f: string)
    ensures IsWav(f) <==> |f| >= 4 && f[|f| - 4..] == ".wav" && StemHasNonDot(f[..|f| - 4])
  {
    var (root, ext) := SplitExt(f);
    SplitExtParts(f);
    if ext == ".wav" {
      assert f == root + ".wav";
      assert f[|f| - 4..] == ".wav";
    }
    if |f| >= 4 && f[|f| - 4..] == ".wav" {
      var base := f[..|f| - 4];
      assert base + ".wav" == f;
      WavSuffix(base);
    }
  }

  /** An upper-case `.WAV` is not canonical. */
  lemma UpperCaseIsNotWav(base: string)
    ensures !IsWav(base + ".WAV")
  {
    var p := base + ".WAV";
    var r := SplitExt(p);
    SplitExtParts(p);
    assert r.1 == p[|r.0|..];
    assert |r.1| == 4 ==> r.1[1] == p[|p| - 3] == 'W';
  }
}
