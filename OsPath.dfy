/**
 * The two POSIX path helpers the packager relies on, `os.path.basename` and
 * `os.path.splitext`, following CPython's posixpath/genericpath definitions:
 * both cut at the LAST separator, and a file name made only of leading dots
 * has no extension.
 */
module OsPath {

  /** `s.rfind(c)`: the last index of `c` in `s`, or -1. */
  function RFind(s: string, c: char): (r: int)
    ensures -1 <= r < |s|
    ensures r >= 0 ==> s[r] == c
    ensures forall j :: r < j < |s| ==> s[j] != c
  {
    if s == [] then -1
    else if s[|s| - 1] == c then |s| - 1
    else RFind(s[..|s| - 1], c)
  }

  /** `os.path.basename(p)`: everything after the last '/'. */
  function Basename(p: string): string
  {
    p[RFind(p, '/') + 1..]
  }

  /** The basename holds no '/', and the path is its directory part followed by it. */
  lemma {:induction false} BasenameSpec(p: string)
    ensures '/' !in Basename(p)
    ensures p == p[..RFind(p, '/') + 1] + Basename(p)
    ensures RFind(p, '/') >= 0 ==> p[..RFind(p, '/') + 1][RFind(p, '/')] == '/'
  {
    var b := Basename(p);
    forall j | 0 <= j < |b| ensures b[j] != '/' {
      assert b[j] == p[RFind(p, '/') + 1 + j];
    }
  }

  /** The basename of a file name under a directory (empty, or ending in '/') is that name. */
  lemma {:induction false} BasenameOfJoin(dir: string, name: string)
    requires dir == [] || dir[|dir| - 1] == '/'
    requires '/' !in name
    ensures Basename(dir + name) == name
  {
    var p := dir + name;
    var r := RFind(p, '/');
    forall j | |dir| <= j < |p| ensures p[j] != '/' {
      assert p[j] == name[j - |dir|];
    }
    if dir != [] {
      assert p[|dir| - 1] == '/';
      assert r == |dir| - 1;
    }
    assert p[r + 1..] == name;
  }

  /** `os.path.splitext(p)`: `(root, ext)`, with `ext` from the last '.' of the last path
      component, unless everything before that dot in the component is a dot too. */
  function SplitExt(p: string): (string, string)
  {
    var sepIndex := RFind(p, '/');
    var dotIndex := RFind(p, '.');
    if dotIndex > sepIndex && exists j :: sepIndex + 1 <= j < dotIndex && p[j] != '.' then
      (p[..dotIndex], p[dotIndex..])
    else
      (p, "")
  }

  /** `root + ext == p`; the extension is empty or a '.' followed by neither '.' nor '/'. */
  lemma {:induction false} SplitExtSpec(p: string)
    ensures SplitExt(p).0 + SplitExt(p).1 == p
    ensures var ext := SplitExt(p).1;
      ext == [] || (ext[0] == '.' && '.' !in ext[1..] && '/' !in ext)
  {
    var sepIndex := RFind(p, '/');
    var dotIndex := RFind(p, '.');
    var ext := SplitExt(p).1;
    if ext != [] {
      forall j | 1 <= j < |ext| ensures ext[j] != '.' && ext[j] != '/' {
        assert ext[j] == p[dotIndex + j];
      }
      assert ext[1..][..] == ext[1..];
      assert forall j :: 0 <= j < |ext[1..]| ==> ext[1..][j] == ext[j + 1];
    }
  }

  /** A name with something besides dots, followed by '.' and an extension, splits into the two. */
  lemma {:induction false} SplitExtOfJoin(name: string, ext: string)
    requires '/' !in name && '/' !in ext && '.' !in ext
    requires exists j :: 0 <= j < |name| && name[j] != '.'
    ensures SplitExt(name + "." + ext) == (name, "." + ext)
  {
    var p := name + "." + ext;
    assert p[|name|] == '.';
    forall j | |name| < j < |p| ensures p[j] != '.' {
      assert p[j] == ext[j - |name| - 1];
    }
    assert RFind(p, '.') == |name|;
    forall j | 0 <= j < |p| ensures p[j] != '/' {
      if j < |name| { assert p[j] == name[j]; } else if j > |name| { assert p[j] == ext[j - |name| - 1]; }
    }
    assert RFind(p, '/') == -1;
    var j :| 0 <= j < |name| && name[j] != '.';
    assert p[j] == name[j];
    assert p[..|name|] == name;
    assert p[|name|..] == "." + ext;
  }

  /** A name made of leading dots and no other dot (".fonts", "..x") has no extension. */
  lemma {:induction false} SplitExtLeadingDots(p: string)
    requires '/' !in p
    requires forall j :: 0 <= j < RFind(p, '.') ==> p[j] == '.'
    ensures SplitExt(p) == (p, "")
  {
    assert RFind(p, '/') == -1;
  }
}
