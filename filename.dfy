/**
 * The output-name rule (cmds/dumpindextoexcel.js, `internals.validateAndCleanFileName`).
 *
 * `path.normalize` and `path.resolve` are not part of this model: the rule is
 * applied to the path they produce, a POSIX path. `path.extname` is modelled by
 * `ExtName` below, following Node's POSIX rule.
 */
module FileName {

  /** The only extension accepted, compared case-insensitively. */
  const XlsxExtension: string := ".xlsx"

  /** The exit code for a rejected output name. */
  const BadExtensionCode: int := 5

  /** The outcome: the name to write to, or a rejection with its exit code and the offending extension. */
  datatype CleanResult = Cleaned(path: string) | Rejected(code: int, extension: string)

  /** The index of the last occurrence of `c` in `s[..end]`, or -1. */
  function LastIndexBefore(s: string, c: char, end: nat): (r: int)
    requires end <= |s|
    ensures -1 <= r < end
    ensures r >= 0 ==> s[r] == c
    ensures forall k :: r < k < end ==> s[k] != c
    decreases end
  {
    if end == 0 then -1
    else if s[end - 1] == c then end - 1
    else LastIndexBefore(s, c, end - 1)
  }

  /** The length of the path without its trailing separators. */
  function TrimmedLength(p: string, end: nat): (n: nat)
    requires end <= |p|
    ensures n <= end
    ensures n == 0 || p[n - 1] != '/'
    decreases end
  {
    if end > 0 && p[end - 1] == '/' then TrimmedLength(p, end - 1) else end
  }

  /** The last path segment, after trailing separators are dropped. */
  function Basename(p: string): string
  {
    var n := TrimmedLength(p, |p|);
    p[LastIndexBefore(p, '/', n) + 1..n]
  }

  /** The last segment contains no separator. */
  lemma BasenameHasNoSeparator(p: string)
    ensures '/' !in Basename(p)
  {
  }

  /**
   * Node's `path.extname` on a POSIX path: from the last '.' of the last segment
   * to its end, except that a segment with no '.', a segment whose only '.' is
   * its first character (".profile", "."), and the segment ".." have none.
   */
  function ExtName(p: string): (ext: string)
    ensures ext == [] || (ext[0] == '.' && '.' !in ext[1..] && '/' !in ext)
  {
    BasenameHasNoSeparator(p);
    var base := Basename(p);
    var dot := LastIndexBefore(base, '.', |base|);
    if dot <= 0 || base == ".." then [] else base[dot..]
  }

  /** ASCII lower-casing, what `toLowerCase` does to the letters that matter here. */
  function ToLower(s: string): (r: string)
    ensures |r| == |s|
    ensures forall k :: 0 <= k < |s| ==> r[k] == if 'A' <= s[k] <= 'Z' then s[k] - 'A' + 'a' else s[k]
  {
    seq(|s|, k requires 0 <= k < |s| => if 'A' <= s[k] <= 'Z' then (s[k] - 'A' + 'a') as char else s[k])
  }

  /** An extension the rule accepts: ".xlsx" once lower-cased. */
  predicate IsXlsxExtension(ext: string)
  {
    ToLower(ext) == XlsxExtension
  }

  /**
   * The rule on an already resolved path: no extension gets ".xlsx" appended, an
   * extension other than ".xlsx" in any letter case is rejected with code 5, and
   * an ".xlsx" extension keeps the path as it is.
   */
  function ValidateAndCleanFileName(resolved: string): (r: CleanResult)
    ensures r.Rejected? <==> ExtName(resolved) != [] && !IsXlsxExtension(ExtName(resolved))
    ensures r == Cleaned(resolved + XlsxExtension) <==> ExtName(resolved) == []
    ensures r == Cleaned(resolved) <==> IsXlsxExtension(ExtName(resolved))
    ensures r.Rejected? ==> r.code == BadExtensionCode && r.extension == ExtName(resolved)
  {
    var ext := ExtName(resolved);
    if ext != [] && !IsXlsxExtension(ext) then Rejected(BadExtensionCode, ext)
    else if ext == [] then Cleaned(resolved + XlsxExtension)
    else Cleaned(resolved)
  }

  /** The extensions accepted are exactly ".xlsx" with each letter in either case. */
  lemma XlsxInAnyCase(ext: string)
    ensures IsXlsxExtension(ext) <==>
      && |ext| == 5 && ext[0] == '.'
      && (ext[1] == 'x' || ext[1] == 'X')
      && (ext[2] == 'l' || ext[2] == 'L')
      && (ext[3] == 's' || ext[3] == 'S')
      && (ext[4] == 'x' || ext[4] == 'X')
  {
    if |ext| == 5 {
      var lower := ToLower(ext);
      assert lower == XlsxExtension <==>
        lower[0] == '.' && lower[1] == 'x' && lower[2] == 'l' && lower[3] == 's' && lower[4] == 'x';
    }
  }

  /**
   * What `ExtName` reads from the last segment: a non-empty extension is a tail
   * of it, and there is none exactly when the segment has no '.' after its first
   * character or is "..".
   */
  lemma ExtNameOfBasename(p: string)
    ensures var base := Basename(p);
      ExtName(p) != [] ==> |ExtName(p)| <= |base| && base[|base| - |ExtName(p)|..] == ExtName(p)
    ensures var base := Basename(p);
      ExtName(p) == [] <==> (forall k :: 1 <= k < |base| ==> base[k] != '.') || base == ".."
  {
    var base := Basename(p);
    var dot := LastIndexBefore(base, '.', |base|);
    if dot > 0 && base != ".." {
      assert base[dot] == '.';
    }
  }

  /** The last occurrence before `end` depends only on the characters before `end`. */
  lemma LastIndexBeforeAgrees(s: string, t: string, c: char, end: nat)
    requires end <= |s| && end <= |t|
    requires forall k :: 0 <= k < end ==> s[k] == t[k]
    ensures LastIndexBefore(s, c, end) == LastIndexBefore(t, c, end)
  {
  }

  /** Skipping a tail that does not contain `c`. */
  lemma LastIndexBeforeSkips(s: string, c: char, mid: nat, end: nat)
    requires mid <= end <= |s|
    requires forall k :: mid <= k < end ==> s[k] != c
    ensures LastIndexBefore(s, c, end) == LastIndexBefore(s, c, mid)
  {
  }

  /** A path that does not end in a separator keeps its whole length. */
  lemma NothingTrimmed(p: string)
    requires p != [] && p[|p| - 1] != '/'
    ensures TrimmedLength(p, |p|) == |p|
  {
  }

  /** The last segment of a path that does not end in a separator runs to its end. */
  lemma BasenameRunsToEnd(p: string)
    requires p != [] && p[|p| - 1] != '/'
    ensures Basename(p) == p[LastIndexBefore(p, '/', |p|) + 1..|p|]
  {
    NothingTrimmed(p);
  }

  /** Appending a suffix free of separators does not move the last separator. */
  lemma LastSeparatorOfAppended(p: string, suffix: string)
    requires '/' !in suffix
    ensures LastIndexBefore(p + suffix, '/', |p + suffix|) == LastIndexBefore(p, '/', |p|)
  {
    var q := p + suffix;
    forall k | |p| <= k < |q|
      ensures q[k] != '/'
    {
      assert q[k] == suffix[k - |p|];
    }
    LastIndexBeforeSkips(q, '/', |p|, |q|);
    LastIndexBeforeAgrees(p, q, '/', |p|);
  }

  /** A tail of `p + s` that starts inside `p`. */
  lemma TailOfAppended(p: string, s: string, k: nat)
    requires k <= |p|
    ensures (p + s)[k..|p + s|] == p[k..|p|] + s
  {
  }

  /** Appending a suffix free of separators to a path that does not end in one extends its last segment. */
  lemma BasenameOfAppended(p: string, suffix: string)
    requires p != [] && p[|p| - 1] != '/' && '/' !in suffix
    ensures Basename(p + suffix) == Basename(p) + suffix
  {
    var q := p + suffix;
    assert q[|q| - 1] != '/' by {
      if suffix != [] {
        assert q[|q| - 1] == suffix[|suffix| - 1];
      }
    }
    BasenameRunsToEnd(p);
    BasenameRunsToEnd(q);
    LastSeparatorOfAppended(p, suffix);
    TailOfAppended(p, suffix, LastIndexBefore(p, '/', |p|) + 1);
  }

  /** Appending ".xlsx" to a path whose last segment is not empty gives it the extension ".xlsx". */
  lemma AppendedExtension(p: string)
    requires p != [] && p[|p| - 1] != '/'
    ensures ExtName(p + XlsxExtension) == XlsxExtension
  {
    BasenameOfAppended(p, XlsxExtension);
    var base := Basename(p) + XlsxExtension;
    assert |Basename(p)| > 0 by {
      assert TrimmedLength(p, |p|) == |p|;
    }
    assert base[|base| - 5] == '.';
    assert LastIndexBefore(base, '.', |base|) == |base| - 5;
    assert base[|base| - 5..] == XlsxExtension;
  }

  /**
   * Every accepted name ends in an ".xlsx" extension (in some letter case), as
   * `path.extname` reads it. The one resolved path that ends in a separator is
   * the root "/", which becomes "/.xlsx": a name that starts with its only dot,
   * which `path.extname` reads as having no extension.
   */
  lemma CleanedNameHasXlsxExtension(resolved: string)
    requires ValidateAndCleanFileName(resolved).Cleaned?
    requires resolved != [] && resolved[|resolved| - 1] != '/'
    ensures IsXlsxExtension(ExtName(ValidateAndCleanFileName(resolved).path))
  {
    if ExtName(resolved) == [] {
      assert ValidateAndCleanFileName(resolved).path == resolved + XlsxExtension;
      AppendedExtension(resolved);
      XlsxExtensionAccepted();
    } else {
      assert ValidateAndCleanFileName(resolved).path == resolved;
    }
  }

  /** ".xlsx" itself is accepted. */
  lemma XlsxExtensionAccepted()
    ensures IsXlsxExtension(XlsxExtension)
  {
    XlsxInAnyCase(XlsxExtension);
  }

}
