/** POSIX path splitting and joining, as Python's `os.path.split` and
    two-argument `os.path.join` do them. */
module Paths {

  predicate AllSlashes(s: string) {
    forall i :: 0 <= i < |s| ==> s[i] == '/'
  }

  predicate NoSlash(s: string) {
    forall i :: 0 <= i < |s| ==> s[i] != '/'
  }

  /** One past the position of the last '/', or 0 when there is none
      (`p.rfind('/') + 1`). */
  function AfterLastSlash(p: string): (i: nat)
    ensures i <= |p|
    ensures i > 0 ==> p[i - 1] == '/'
    ensures NoSlash(p[i..])
  {
    if p == [] then 0
    else if p[|p| - 1] == '/' then |p|
    else AfterLastSlash(p[..|p| - 1])
  }

  /** `s.rstrip('/')`. */
  function StripTrailingSlashes(s: string): (r: string)
    ensures r <= s
    ensures r == [] || r[|r| - 1] != '/'
    ensures AllSlashes(s[|r|..])
  {
    if s != [] && s[|s| - 1] == '/' then StripTrailingSlashes(s[..|s| - 1]) else s
  }

  /** `os.path.split(p)`: the directory part and the last component; the
      directory keeps no trailing slashes unless it consists of slashes only. */
  function Split(p: string): (string, string) {
    var i := AfterLastSlash(p);
    var head := p[..i];
    var tail := p[i..];
    if head != [] && !AllSlashes(head) then (StripTrailingSlashes(head), tail)
    else (head, tail)
  }

  /** `os.path.join(a, b)`. */
  function Join(a: string, b: string): string {
    if b != [] && b[0] == '/' then b
    else if a == [] || a[|a| - 1] == '/' then a + b
    else a + "/" + b
  }

  /** The directory parts Split produces: empty, all slashes, or without a
      trailing slash. */
  predicate IsDirPart(d: string) {
    d == [] || AllSlashes(d) || d[|d| - 1] != '/'
  }

  /** What Split returns is a directory part and a name without a slash. */
  lemma SplitParts(p: string)
    ensures IsDirPart(Split(p).0) && NoSlash(Split(p).1)
  {
  }

  /** Joining a directory part with a name and splitting again gives both
      back: a file named in a directory lies in that directory. */
  lemma SplitJoin(d: string, n: string)
    requires IsDirPart(d) && NoSlash(n)
    ensures Split(Join(d, n)) == (d, n)
  {
    var p := Join(d, n);
    if d == [] {
      assert p == n;
      NoSlashAfter(n);
    } else if d[|d| - 1] == '/' {
      assert p == d + n;
      AfterLastSlashOfConcat(d, n);
      assert p[..|d|] == d && p[|d|..] == n;
    } else {
      assert p == (d + "/") + n;
      AfterLastSlashOfConcat(d + "/", n);
      assert p[..|d| + 1] == d + "/" && p[|d| + 1..] == n;
      var head := d + "/";
      assert !AllSlashes(head) by { assert head[|d| - 1] != '/'; }
      assert StripTrailingSlashes(head) == StripTrailingSlashes(d);
    }
  }

  lemma {:induction false} NoSlashAfter(n: string)
    requires NoSlash(n)
    ensures AfterLastSlash(n) == 0
  {
    if n != [] {
      NoSlashAfter(n[..|n| - 1]);
    }
  }

  lemma {:induction false} AfterLastSlashOfConcat(d: string, n: string)
    requires d != [] && d[|d| - 1] == '/' && NoSlash(n)
    ensures AfterLastSlash(d + n) == |d|
    decreases |n|
  {
    if n != [] {
      assert (d + n)[..|d + n| - 1] == d + n[..|n| - 1];
      AfterLastSlashOfConcat(d, n[..|n| - 1]);
    } else {
      assert d + n == d;
    }
  }
}
