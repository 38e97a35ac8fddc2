/** The path operations the scripts use: `os.path.join`, `os.path.basename`
    and pathlib's `/`, `.name`, `.stem` and `.suffix`, on POSIX paths. */
module PyPath {
  import opened Common

  /** `os.path.join(dir, name)`, also `Path(dir) / name`: an absolute `name`
      replaces `dir`; otherwise one `/` separates them unless `dir` is empty
      or already ends in `/`. */
  function Join(dir: string, name: string): string
  {
    if |name| > 0 && name[0] == '/' then name
    else if dir == [] || dir[|dir| - 1] == '/' then dir + name
    else dir + "/" + name
  }

  /** A joined path ends with the name; a relative name keeps the directory
      in front, with exactly one `/` added when the directory does not end in
      one; an absolute name replaces the directory. */
  lemma JoinShape(dir: string, name: string)
    ensures |name| <= |Join(dir, name)| && Join(dir, name)[|Join(dir, name)| - |name|..] == name
    ensures |name| > 0 && name[0] == '/' ==> Join(dir, name) == name
    ensures (name == [] || name[0] != '/') ==> |dir| <= |Join(dir, name)| && Join(dir, name)[..|dir|] == dir
    ensures (name == [] || name[0] != '/') && dir != [] && dir[|dir| - 1] != '/' ==>
      |Join(dir, name)| == |dir| + 1 + |name| && Join(dir, name)[|dir|] == '/'
    ensures (name == [] || name[0] != '/') && (dir == [] || dir[|dir| - 1] == '/') ==>
      |Join(dir, name)| == |dir| + |name|
  {
  }

  /** `os.path.basename(p)`, also `Path(p).name`: the longest `/`-free tail of `p`. */
  function Name(p: string): (r: string)
    ensures '/' !in r && |r| <= |p|
  {
    if |p| == 0 || p[|p| - 1] == '/' then ""
    else Name(p[..|p| - 1]) + [p[|p| - 1]]
  }

  /** The base name is the tail of the path after its last `/`, or the whole
      path when it has none. */
  lemma {:induction false} NameIsTail(p: string)
    ensures p == p[..|p| - |Name(p)|] + Name(p)
    ensures |Name(p)| < |p| ==> p[|p| - |Name(p)| - 1] == '/'
  {
    if |p| > 0 && p[|p| - 1] != '/' {
      var q := p[..|p| - 1];
      NameIsTail(q);
      assert q[..|q| - |Name(q)|] == p[..|p| - |Name(p)|];
    }
  }

  /** `s.rfind(c)`: the index of the last `c` in `s`, `None` where Python returns -1. */
  function RFind(s: string, c: char): (r: Option<nat>)
    ensures r.None? <==> c !in s
    ensures r.Some? ==> r.value < |s| && s[r.value] == c && c !in s[r.value + 1..]
  {
    if |s| == 0 then None
    else if s[|s| - 1] == c then Some(|s| - 1)
    else match RFind(s[..|s| - 1], c)
      case None => None
      case Some(i) =>
        assert s[i + 1..] == s[..|s| - 1][i + 1..] + [s[|s| - 1]];
        Some(i)
  }

  /** Where pathlib's suffix starts in a file name: at its last dot, unless that
      dot is the first or the last character. */
  function SuffixStart(name: string): (r: Option<nat>)
    ensures r.Some? ==> 0 < r.value < |name| - 1 && name[r.value] == '.' && '.' !in name[r.value + 1..]
    ensures r.None? <==> |name| < 2 || name[|name| - 1] == '.' || '.' !in name[1..]
  {
    match RFind(name, '.')
    case Some(i) => if 0 < i < |name| - 1 then Some(i) else None
    case None => None
  }

  /** `Path(p).suffix`: empty, or a dot, at least one more character and no further dot. */
  function Suffix(p: string): (r: string)
    ensures r == [] || (|r| >= 2 && r[0] == '.' && '.' !in r[1..])
    ensures '/' !in r
    ensures r != [] <==> SuffixStart(Name(p)).Some?
    ensures SuffixStart(Name(p)).Some? ==> r == Name(p)[SuffixStart(Name(p)).value..]
  {
    var n := Name(p);
    match SuffixStart(n)
    case Some(i) => assert n[i..][1..] == n[i + 1..]; n[i..]
    case None => ""
  }

  /** `Path(p).stem`: the file name without its suffix. */
  function Stem(p: string): (r: string)
    ensures '/' !in r
    ensures Suffix(p) != [] ==> |r| >= 1
    ensures SuffixStart(Name(p)).Some? ==> r == Name(p)[..SuffixStart(Name(p)).value]
    ensures SuffixStart(Name(p)).None? ==> r == Name(p)
  {
    var n := Name(p);
    match SuffixStart(n)
    case Some(i) => n[..i]
    case None => n
  }

  /** Stem and suffix split the file name: `p.stem + p.suffix == p.name`. */
  lemma StemSuffix(p: string)
    ensures Stem(p) + Suffix(p) == Name(p)
  {
    var n := Name(p);
    match SuffixStart(n)
    case Some(i) => assert n == n[..i] + n[i..];
    case None =>
  }

  /** The base name of `dir + name`, where `dir` is empty or ends in `/` and
      `name` is `/`-free, is `name`. */
  lemma {:induction false} NameAfterSeparator(dir: string, name: string)
    requires dir == [] || dir[|dir| - 1] == '/'
    requires '/' !in name
    ensures Name(dir + name) == name
  {
    if name != [] {
      var last := |name| - 1;
      assert (dir + name)[..|dir + name| - 1] == dir + name[..last];
      NameAfterSeparator(dir, name[..last]);
      assert name == name[..last] + [name[last]];
    }
  }

  /** Joining a `/`-free name to a directory, then taking the base name, gives the name back. */
  lemma NameJoin(dir: string, name: string)
    requires '/' !in name
    ensures Name(Join(dir, name)) == name
  {
    if dir == [] || dir[|dir| - 1] == '/' {
      NameAfterSeparator(dir, name);
    } else {
      NameAfterSeparator(dir + "/", name);
      assert dir + "/" + name == (dir + "/") + name;
    }
  }
}
