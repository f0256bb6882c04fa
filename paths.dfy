/** The path helpers the drivers use: `pathlib.PurePath.name`, `.suffix` and `.stem`,
    `os.path.splitext` and `os.path.join`, on POSIX paths written as strings. */
module Paths {
  import opened Strings

  /** Python's `s.rfind(c)`: the last index holding `c`, or -1. */
  function LastIndexOf(s: string, c: char): (i: int)
    ensures -1 <= i < |s|
    ensures i >= 0 ==> s[i] == c
    ensures forall j :: i < j < |s| ==> s[j] != c
  {
    if s == [] then -1
    else if s[|s| - 1] == c then |s| - 1
    else LastIndexOf(s[..|s| - 1], c)
  }

  /** `PurePath(p).name`: the last component, after the last `/`. */
  function FileName(p: string): (n: string)
    ensures '/' !in n
    ensures EndsWith(p, n)
  {
    var i := LastIndexOf(p, '/');
    AbsentAfter(p, i, '/');
    p[i + 1..]
  }

  /** The last component is the whole path, or a `/` stands right before it. */
  lemma FileNameAfterSlash(p: string)
    ensures var n := FileName(p); |n| == |p| || p[|p| - |n| - 1] == '/'
  {
  }

  /** A character that occurs at no index after `i` does not occur in the rest after `i`. */
  lemma AbsentAfter(s: string, i: int, c: char)
    requires -1 <= i < |s|
    requires forall j :: i < j < |s| ==> s[j] != c
    ensures c !in s[i + 1..]
  {
    var rest := s[i + 1..];
    forall j | 0 <= j < |rest| ensures rest[j] != c {
      assert rest[j] == s[i + 1 + j];
    }
  }

  /** The index of the dot that starts `PurePath(p).suffix`, if the name has a suffix: the last
      dot of the name, provided it is neither the name's first nor its last character. */
  function SuffixDot(name: string): int
  {
    var i := LastIndexOf(name, '.');
    if 0 < i < |name| - 1 then i else -1
  }

  /** `PurePath(p).suffix`. */
  function Suffix(p: string): string
  {
    var name := FileName(p);
    var i := SuffixDot(name);
    if i >= 0 then name[i..] else ""
  }

  /** `PurePath(p).stem`. */
  function Stem(p: string): string
  {
    var name := FileName(p);
    var i := SuffixDot(name);
    if i >= 0 then name[..i] else name
  }

  /** A stem never contains a slash. */
  lemma StemHasNoSlash(p: string)
    ensures '/' !in Stem(p)
  {
    var name := FileName(p);
    var i := SuffixDot(name);
    if i >= 0 {
      assert forall j :: 0 <= j < i ==> name[..i][j] == name[j];
    }
  }

  /** Stem and suffix split the file name without losing anything. */
  lemma StemSuffixSplitName(p: string)
    ensures Stem(p) + Suffix(p) == FileName(p)
  {
  }

  /** Appending an extension `ext` (a dot followed by at least one character, none of them a dot
      or a slash) to a path with a non-empty last component gives a path whose stem is that
      component and whose suffix is `ext`. */
  lemma StemOfAppendedExtension(s: string, ext: string)
    requires FileName(s) != []
    requires |ext| >= 2 && ext[0] == '.' && '/' !in ext
    requires forall k :: 0 < k < |ext| ==> ext[k] != '.'
    ensures Stem(s + ext) == FileName(s)
    ensures Suffix(s + ext) == ext
  {
    FileNameAppend(s, ext);
    var n := FileName(s);
    var name := n + ext;
    assert name[|n|] == '.';
    assert forall j :: |n| < j < |name| ==> name[j] == ext[j - |n|];
    LastIndexOfAt(name, '.', |n|);
  }

  /** A slash-free name is its own last component. */
  lemma FileNameOfPlainName(s: string)
    requires '/' !in s
    ensures FileName(s) == s
  {
    assert LastIndexOf(s, '/') == -1;
  }

  /** The stem and suffix of a non-empty slash-free name followed by an extension. */
  lemma StemOfPlainName(s: string, ext: string)
    requires s != [] && '/' !in s
    requires |ext| >= 2 && ext[0] == '.' && '/' !in ext
    requires forall k :: 0 < k < |ext| ==> ext[k] != '.'
    ensures Stem(s + ext) == s
    ensures Suffix(s + ext) == ext
  {
    FileNameOfPlainName(s);
    StemOfAppendedExtension(s, ext);
  }

  /** Appending slash-free text extends the last component. */
  lemma FileNameAppend(s: string, t: string)
    requires '/' !in t
    ensures FileName(s + t) == FileName(s) + t
  {
    var p := s + t;
    assert forall j :: |s| <= j < |p| ==> p[j] != '/' by {
      forall j | |s| <= j < |p| ensures p[j] != '/' { assert p[j] == t[j - |s|]; }
    }
    assert p[..|s|] == s;
    LastIndexOfPrefix(p, s, '/');
    var k := LastIndexOf(s, '/');
    assert p[k + 1..] == s[k + 1..] + t;
  }

  /** Extending a string by characters other than `c` does not move its last `c`. */
  lemma LastIndexOfPrefix(p: string, s: string, c: char)
    requires |s| <= |p| && p[..|s|] == s
    requires forall j :: |s| <= j < |p| ==> p[j] != c
    ensures LastIndexOf(p, c) == LastIndexOf(s, c)
    decreases |p|
  {
    if |p| > |s| {
      assert p[..|p| - 1][..|s|] == s;
      LastIndexOfPrefix(p[..|p| - 1], s, c);
    } else {
      assert p == s;
    }
  }

  /** When `s[i] == c` and no later character is `c`, the last `c` is at `i`. */
  lemma LastIndexOfAt(s: string, c: char, i: int)
    requires 0 <= i < |s| && s[i] == c
    requires forall j :: i < j < |s| ==> s[j] != c
    ensures LastIndexOf(s, c) == i
  {
  }

  /** A directory prefix (empty, or ending in a slash) has an empty last component. */
  lemma FileNameOfDirectory(p: string)
    requires p == [] || p[|p| - 1] == '/'
    ensures FileName(p) == []
  {
  }

  /** Joining a directory and a relative slash-free name, `os.path.join(d, n)`, gives a path
      whose last component is `n`. */
  lemma FileNameOfJoin(dir: string, name: string)
    requires name != [] && '/' !in name
    ensures FileName(PathJoin(dir, name)) == name
  {
    var prefix := if dir == [] || dir[|dir| - 1] == '/' then dir else dir + "/";
    assert PathJoin(dir, name) == prefix + name;
    FileNameOfDirectory(prefix);
    FileNameAppend(prefix, name);
  }

  /** Joining a relative name and then extending it is joining the extended name. */
  lemma JoinAppend(dir: string, name: string, ext: string)
    requires name != [] && name[0] != '/'
    ensures PathJoin(dir, name + ext) == PathJoin(dir, name) + ext
  {
    assert (name + ext)[0] == name[0];
    if dir == [] || dir[|dir| - 1] == '/' {
      assert dir + (name + ext) == (dir + name) + ext;
    } else {
      assert dir + "/" + (name + ext) == (dir + "/" + name) + ext;
    }
  }

  /** `os.path.splitext(p)`: split at the last dot of the last component, unless that component
      consists of dots only up to that point (a leading-dot name such as `.md` has no extension). */
  function SplitExt(p: string): (r: (string, string))
    ensures r.0 + r.1 == p
  {
    var sep := LastIndexOf(p, '/');
    var dot := LastIndexOf(p, '.');
    if dot > sep && exists k :: sep < k < dot && p[k] != '.' then (p[..dot], p[dot..]) else (p, "")
  }

  /** `os.path.splitext(name)` of a bare name made of a base with some non-dot character, a dot,
      and a dot-free extension gives back exactly that base and `.` plus the extension. */
  lemma SplitExtOfName(base: string, ext: string)
    requires '/' !in base && '.' !in ext && '/' !in ext
    requires exists k :: 0 <= k < |base| && base[k] != '.'
    ensures SplitExt(base + "." + ext) == (base, "." + ext)
  {
    var p := base + "." + ext;
    assert forall j :: 0 <= j < |p| ==> p[j] != '/' by {
      forall j | 0 <= j < |p| ensures p[j] != '/' {
        if j < |base| { assert p[j] == base[j]; } else if j > |base| { assert p[j] == ext[j - |base| - 1]; }
      }
    }
    assert LastIndexOf(p, '/') == -1;
    assert forall j :: |base| < j < |p| ==> p[j] == ext[j - |base| - 1];
    LastIndexOfAt(p, '.', |base|);
    var k :| 0 <= k < |base| && base[k] != '.';
    assert p[k] == base[k];
    assert p[..|base|] == base;
    assert p[|base|..] == "." + ext;
  }

  /** `os.path.join(a, b)` for two components. */
  function PathJoin(a: string, b: string): (r: string)
    ensures EndsWith(r, b)
  {
    if b != [] && b[0] == '/' then b
    else if a == [] || a[|a| - 1] == '/' then a + b
    else a + "/" + b
  }
}
