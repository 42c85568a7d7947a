/**
 * The POSIX path operations the pairing engine uses: `os.path.basename`,
 * `os.path.join` (two components at a time) and `os.path.splitext`.
 */
module Paths {
  import opened Strings

  /** `os.path.basename`: everything after the last '/'. */
  function Basename(p: string): (name: string)
    ensures '/' !in name
    ensures EndsWith(p, name)
  {
    p[LastIndex(p, '/') + 1..]
  }

  /**
   * `os.path.join(a, b)`: an absolute `b` replaces `a`; otherwise a '/' is
   * inserted unless `a` is empty or already ends with one.
   */
  function PathJoin(a: string, b: string): string
  {
    if |b| > 0 && b[0] == '/' then b
    else if a == [] || a[|a| - 1] == '/' then a + b
    else a + "/" + b
  }

  /** Every character of `p[lo..hi]` is a '.'. */
  predicate OnlyDots(p: string, lo: int, hi: int)
    requires 0 <= lo <= hi <= |p|
  {
    forall i :: lo <= i < hi ==> p[i] == '.'
  }

  /** What `os.path.splitext` may return as an extension. */
  predicate IsExtension(e: string)
  {
    && (e != [] ==> e[0] == '.')
    && (forall j :: 0 < j < |e| ==> e[j] != '.')
    && (forall j :: 0 <= j < |e| ==> e[j] != '/')
  }

  /**
   * `os.path.splitext`: the extension starts at the last '.' of the last
   * path component, unless only dots precede it in that component (so
   * ".bashrc" has no extension).
   */
  function SplitExt(p: string): (parts: (string, string))
    ensures parts.0 + parts.1 == p
    ensures IsExtension(parts.1)
  {
    var sep := LastIndex(p, '/');
    var dot := LastIndex(p, '.');
    if dot > sep && !OnlyDots(p, sep + 1, dot) then
      TailAfterLast(p, sep, dot);
      (p[..dot], p[dot..])
    else (p, [])
  }

  /** The basename is the whole path or starts right after a '/', so it is the whole last component. */
  lemma BasenameIsLastComponent(p: string)
    ensures var name := Basename(p);
            |name| == |p| || p[|p| - |name| - 1] == '/'
  {
  }

  /**
   * An extension starts after the last '/' at a '.' not preceded only by
   * dots in that component; without one, every '.' of the last component is
   * preceded only by dots.
   */
  lemma SplitExtAtLastDot(p: string)
    ensures var parts := SplitExt(p);
            && (parts.1 != [] ==> LastIndex(p, '/') < |parts.0| && !OnlyDots(p, LastIndex(p, '/') + 1, |parts.0|))
            && (parts.1 == [] ==>
                  forall j :: LastIndex(p, '/') < j < |p| && p[j] == '.' ==> OnlyDots(p, LastIndex(p, '/') + 1, j))
  {
  }

  /** What follows the last '.' (itself after the last '/') holds neither character. */
  lemma TailAfterLast(p: string, sep: int, dot: int)
    requires -1 <= sep < dot < |p| && p[dot] == '.'
    requires forall j :: sep < j < |p| ==> p[j] != '/'
    requires forall j :: dot < j < |p| ==> p[j] != '.'
    ensures IsExtension(p[dot..])
  {
  }

  /** `os.path.splitext(p)[0]` */
  function Stem(p: string): string
  {
    SplitExt(p).0
  }

  /** A name joined onto a directory is the basename of the result. */
  lemma BasenameOfJoin(dir: string, name: string)
    requires name != [] && '/' !in name
    ensures Basename(PathJoin(dir, name)) == name
  {
    var p := PathJoin(dir, name);
    var start := |p| - |name|;
    assert p[start..] == name;
    assert start == 0 || p[start - 1] == '/';
  }

  /**
   * Removing an extension that begins with the only '.' after a
   * component that is not all dots gives that component back.
   */
  lemma StemDropsExtension(base: string, ext: string)
    requires '/' !in base && !OnlyDots(base, 0, |base|)
    requires ext != [] && IsExtension(ext)
    ensures Stem(base + ext) == base
  {
    var p := base + ext;
    assert p[|base|] == '.';
    assert LastIndex(p, '.') == |base|;
    assert LastIndex(p, '/') == -1;
    assert p[0..|base|] == base;
  }
}
