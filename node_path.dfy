/** `path.basename` and `path.extname` of Node's POSIX `path` module, which the upload
    filter, the uploads route and the receipts route use on file names and paths. */
module NodePath {
  import opened Text

  /** The last index of `c` in `s`, or -1 when `c` does not occur. */
  function LastIndexOf(s: string, c: char): (r: int)
    ensures -1 <= r < |s|
    ensures r >= 0 ==> s[r] == c
    ensures forall k :: r < k < |s| ==> s[k] != c
  {
    if s == [] then -1
    else if s[|s| - 1] == c then |s| - 1
    else LastIndexOf(s[..|s| - 1], c)
  }

  /** `p` without its trailing slashes. */
  function StripTrailingSlashes(p: string): (r: string)
    ensures |r| <= |p| && r == p[..|r|]
    ensures r == [] || r[|r| - 1] != '/'
    ensures forall k :: |r| <= k < |p| ==> p[k] == '/'
  {
    if p != [] && p[|p| - 1] == '/' then StripTrailingSlashes(p[..|p| - 1]) else p
  }

  /** `path.basename(p)`: the last segment of `p`, trailing slashes ignored. */
  function BaseName(p: string): (r: string)
    ensures '/' !in r
  {
    var q := StripTrailingSlashes(p);
    q[LastIndexOf(q, '/') + 1..]
  }

  /** A name without slashes is its own base name, and so is the last segment of a path. */
  lemma BaseNameOfName(dir: string, name: string)
    requires name != [] && '/' !in name
    ensures BaseName(name) == name
    ensures BaseName(dir + "/" + name) == name
  {
    StripUntrimmed(name);
    StripUntrimmed(dir + "/" + name);
    var p := dir + "/" + name;
    assert p[|dir|] == '/';
    assert forall k :: |dir| < k < |p| ==> p[k] == name[k - |dir| - 1];
    assert p[|dir| + 1..] == name;
  }

  lemma StripUntrimmed(p: string)
    requires p != [] && p[|p| - 1] != '/'
    ensures StripTrailingSlashes(p) == p
  {
  }

  /** `path.extname(p)`: from the last '.' of the base name to its end, or "" when the base
      name has no '.', when its only '.' is its first character, or when it is "..". */
  function ExtName(p: string): (r: string)
    ensures r == [] || (r[0] == '.' && '.' !in r[1..])
  {
    var b := BaseName(p);
    var j := LastIndexOf(b, '.');
    if j <= 0 || b == ".." then "" else b[j..]
  }

  /** A name `stem + ext` whose stem does not start with '.' and whose extension is a '.'
      followed by characters other than '.' and '/' has that extension. */
  lemma ExtNameOf(stem: string, ext: string)
    requires stem != [] && stem[0] != '.' && '/' !in stem
    requires ext != [] && ext[0] == '.' && '.' !in ext[1..] && '/' !in ext
    ensures ExtName(stem + ext) == ext
  {
    var b := stem + ext;
    assert '/' !in b by {
      assert forall k :: 0 <= k < |b| ==> b[k] == (if k < |stem| then stem[k] else ext[k - |stem|]);
    }
    BaseNameOfName("", b);
    forall k | |stem| < k < |b|
      ensures b[k] != '.'
    {
      assert b[k] == ext[1..][k - |stem| - 1];
    }
    LastIndexOfAt(b, '.', |stem|);
    assert b[|stem|..] == ext;
    assert b[0] != '.';
  }

  /** The occurrence after which `c` does not occur is the one `LastIndexOf` finds. */
  lemma {:induction false} LastIndexOfAt(s: string, c: char, j: int)
    requires 0 <= j < |s| && s[j] == c
    requires forall k :: j < k < |s| ==> s[k] != c
    ensures LastIndexOf(s, c) == j
  {
    if j < |s| - 1 {
      LastIndexOfAt(s[..|s| - 1], c, j);
    }
  }
}
