/** File-name arithmetic of `os.path` and `pathlib` on POSIX ('/'-separated) paths.
    pathlib normalises the text of a path (collapsing repeated separators, dropping
    '.' components and trailing separators); that normalisation is not modelled, so
    paths are taken to be in pathlib's normal form already. */
module Paths {
  import opened Wrappers
  import opened Text

  /** `os.path.basename(p)`, which is also `Path(p).name` for a normalised path:
      the text after the last '/'. */
  function Basename(p: string): (r: string)
    ensures '/' !in r
    ensures EndsWith(p, r)
    ensures '/' !in p ==> r == p
  {
    match LastIndex(p, '/')
    case None => p
    case Some(i) => p[i + 1..]
  }

  /** The directory part of p, up to and including its last '/' ("" if it has none). */
  function DirPrefix(p: string): (r: string)
    ensures r + Basename(p) == p
    ensures r == "" || r[|r| - 1] == '/'
  {
    match LastIndex(p, '/')
    case None => ""
    case Some(i) => p[..i + 1]
  }

  /** `str(Path(dir) / name)` for a single component name. */
  function Join(dir: string, name: string): (r: string)
    ensures EndsWith(r, name)
  {
    if dir == "" then name
    else if dir[|dir| - 1] == '/' then dir + name
    else dir + "/" + name
  }

  /** What follows the last '/' is the final component. */
  lemma BasenameAfterSlash(a: string, name: string)
    requires '/' !in name
    ensures Basename(a + "/" + name) == name
  {
    var r := a + "/" + name;
    assert r[|a|] == '/';
    assert r[|a| + 1..] == name;
    assert LastIndex(r, '/') == Some(|a|);
  }

  /** The last component of a joined path is the component that was joined. */
  lemma BasenameJoin(dir: string, name: string)
    requires '/' !in name
    ensures Basename(Join(dir, name)) == name
  {
    if dir == "" {
    } else if dir[|dir| - 1] == '/' {
      var a := dir[..|dir| - 1];
      assert dir == a + "/";
      assert Join(dir, name) == a + "/" + name;
      BasenameAfterSlash(a, name);
    } else {
      BasenameAfterSlash(dir, name);
    }
  }

  /** Joining onto the same folder never merges two names. */
  lemma JoinCancel(dir: string, x: string, y: string)
    requires Join(dir, x) == Join(dir, y)
    ensures x == y
  {
    var p := Join(dir, x);
    assert |x| == |y|;
    assert x == p[|p| - |x|..] == y;
  }

  /** Where `pathlib` puts the suffix of a file name: at the last '.', counted only
      when it is neither the first nor the last character of the name. */
  function SuffixStart(name: string): (r: Option<nat>)
    ensures r.Some? ==> 0 < r.value < |name| - 1 && name[r.value] == '.'
    ensures r.Some? ==> '.' !in name[r.value + 1..]
  {
    match LastIndex(name, '.')
    case None => None
    case Some(i) => if 0 < i < |name| - 1 then Some(i) else None
  }

  /** The suffix of a single file name. */
  function NameSuffix(name: string): (r: string)
    ensures r == "" || (|r| >= 2 && r[0] == '.' && '.' !in r[1..])
    ensures EndsWith(name, r)
  {
    match SuffixStart(name)
    case None => ""
    case Some(i) => name[i..]
  }

  /** The stem of a single file name: what precedes its suffix. */
  function NameStem(name: string): (r: string)
    ensures r + NameSuffix(name) == name
    ensures NameSuffix(name) != "" ==> |r| >= 1
  {
    match SuffixStart(name)
    case None => name
    case Some(i) =>
      assert name == name[..i] + name[i..];
      name[..i]
  }

  /** No part of a name holds a character the name lacks. */
  lemma NamePartsLack(name: string, c: char)
    requires c !in name
    ensures c !in NameStem(name) && c !in NameSuffix(name)
  {
    var stem, suffix := NameStem(name), NameSuffix(name);
    assert forall j :: 0 <= j < |stem| ==> stem[j] == name[j];
    assert forall j :: 0 <= j < |suffix| ==> suffix[j] == name[|stem| + j];
  }

  /** `Path(p).suffix`. */
  function Suffix(p: string): (r: string)
    ensures r == "" || (|r| >= 2 && r[0] == '.' && '.' !in r[1..] && '/' !in r)
  {
    NamePartsLack(Basename(p), '/');
    NameSuffix(Basename(p))
  }

  /** `Path(p).stem`: the name without its suffix; never empty when a suffix exists. */
  function Stem(p: string): (r: string)
    ensures r + Suffix(p) == Basename(p)
    ensures Suffix(p) != "" ==> |r| >= 1
    ensures '/' !in r
  {
    NamePartsLack(Basename(p), '/');
    NameStem(Basename(p))
  }

  /** A '.' that is neither first nor last in the final component, with no '.'
      after it, starts the suffix. */
  lemma SuffixAt(p: string, k: nat)
    requires 0 < k < |Basename(p)| - 1 && Basename(p)[k] == '.' && '.' !in Basename(p)[k + 1..]
    ensures Suffix(p) == Basename(p)[k..]
  {
    LastIndexAt(Basename(p), '.', k);
  }

  /** A name made of a non-empty stem and an extension that is a '.' followed by
      at least one character other than '.' has that extension as its suffix. */
  lemma SuffixOfName(stem: string, ext: string)
    requires |stem| >= 1 && '/' !in stem
    requires |ext| >= 2 && ext[0] == '.' && '.' !in ext[1..] && '/' !in ext
    ensures Basename(stem + ext) == stem + ext
    ensures Suffix(stem + ext) == ext
    ensures Stem(stem + ext) == stem
  {
    var name := stem + ext;
    assert '/' !in name by {
      assert forall i :: 0 <= i < |name| ==> name[i] == if i < |stem| then stem[i] else ext[i - |stem|];
    }
    assert name[|stem|] == '.';
    assert name[|stem| + 1..] == ext[1..];
    assert LastIndex(name, '.') == Some(|stem|);
    assert name[|stem|..] == ext;
  }

  /** True when some character of s is not a '.' (the scan `splitext` makes over
      the characters before the last dot). */
  predicate HasNonDot(s: string) {
    |s| > 0 && (s[0] != '.' || HasNonDot(s[1..]))
  }

  /** `os.path.splitext(p)`: the extension begins at the last '.' of the final
      component, provided a character other than '.' precedes it in that component
      (leading dots never start an extension); a trailing '.' is an extension. */
  function SplitExt(p: string): (r: (string, string))
    ensures r.0 + r.1 == p
    ensures r.1 == "" || (r.1[0] == '.' && '.' !in r.1[1..] && '/' !in r.1)
  {
    var start := match LastIndex(p, '/') case None => 0 case Some(i) => i + 1;
    assert '/' !in p[start..];
    match LastIndex(p, '.')
    case None => (p, "")
    case Some(d) =>
      if start <= d && HasNonDot(p[start..d]) then
        assert p[d..] == p[start..][d - start..];
        (p[..d], p[d..])
      else (p, "")
  }
}
