/** File paths as plain strings, with the parts of pathlib the action relies on:
    `name`, `suffix`, `parent` and the `/` join. */
module Paths {

  type Path = string

  /** Index of the last `c` in `s`, or -1 when there is none. */
  function LastIndexOf(s: string, c: char): (r: int)
    ensures -1 <= r < |s|
  {
    if |s| == 0 then -1
    else if s[|s| - 1] == c then |s| - 1
    else LastIndexOf(s[..|s| - 1], c)
  }

  /** The index found holds `c`, and no later index does. */
  lemma {:induction false} LastIndexOfIsLast(s: string, c: char)
    ensures LastIndexOf(s, c) >= 0 ==> s[LastIndexOf(s, c)] == c
    ensures forall i | LastIndexOf(s, c) < i < |s| :: s[i] != c
  {
    if |s| > 0 && s[|s| - 1] != c {
      LastIndexOfIsLast(s[..|s| - 1], c);
    }
  }

  /** The last `c` of `a + [c] + b` is the one after `a` when `b` holds none. */
  lemma {:induction false} LastIndexOfAt(a: string, c: char, b: string)
    requires c !in b
    ensures LastIndexOf(a + [c] + b, c) == |a|
    decreases |b|
  {
    var s := a + [c] + b;
    if b != [] {
      assert s[|s| - 1] == b[|b| - 1];
      assert s[..|s| - 1] == a + [c] + b[..|b| - 1];
      LastIndexOfAt(a, c, b[..|b| - 1]);
    }
  }

  /** The last component of the path (`Path.name`). */
  function Name(p: Path): string
  {
    p[LastIndexOf(p, '/') + 1..]
  }

  /** The name is the tail after the last separator: it holds no separator, and a
      separator comes right before it unless it is the whole path. */
  lemma NameIsTail(p: Path)
    ensures var r := Name(p);
      '/' !in r && |r| <= |p| && r == p[|p| - |r|..] && (|r| < |p| ==> p[|p| - |r| - 1] == '/')
  {
    LastIndexOfIsLast(p, '/');
  }

  /** `Path.suffix`: from the last dot of the name, provided the dot is neither the first
      nor the last character of the name; otherwise empty. */
  function Suffix(p: Path): string
  {
    var n := Name(p);
    var i := LastIndexOf(n, '.');
    if 0 < i < |n| - 1 then n[i..] else ""
  }

  /** A suffix that is not empty is a dot and at least one more character, at the end of
      the name and after something, with no other dot in it. */
  lemma SuffixIsLastDot(p: Path)
    ensures var r := Suffix(p); var n := Name(p);
      r != "" ==> 2 <= |r| < |n| && r[0] == '.' && r == n[|n| - |r|..] &&
                  forall k | 1 <= k < |r| :: r[k] != '.'
  {
    LastIndexOfIsLast(Name(p), '.');
  }

  /** `Path.parent`: everything before the last separator; "." for a bare name. */
  function Parent(p: Path): Path
  {
    var i := LastIndexOf(p, '/');
    if i < 0 then "." else if i == 0 then "/" else p[..i]
  }

  /** A path is split by its last separator into what comes before and its name. */
  lemma SplitAtLast(p: Path)
    ensures LastIndexOf(p, '/') < 0 <==> '/' !in p
    ensures LastIndexOf(p, '/') >= 0 ==>
      p[LastIndexOf(p, '/')] == '/' && p == p[..LastIndexOf(p, '/')] + "/" + Name(p)
  {
    var i := LastIndexOf(p, '/');
    LastIndexOfIsLast(p, '/');
    if i >= 0 {
      assert p == p[..i] + [p[i]] + p[i + 1..];
    } else {
      assert forall k | 0 <= k < |p| :: p[k] != '/';
    }
  }

  /** The parent is "." for a bare name, and otherwise what comes before the separator in
      front of the name. */
  lemma ParentAndName(p: Path)
    ensures '/' !in p ==> Parent(p) == "."
    ensures '/' in p && Parent(p) != "/" ==> p == Parent(p) + "/" + Name(p)
    ensures '/' in p && Parent(p) == "/" ==> p[0] == '/'
  {
    SplitAtLast(p);
  }

  /** `dir / rel`: an absolute `rel` replaces `dir`; joining onto "." gives `rel` itself. */
  function Join(dir: Path, rel: string): Path
  {
    if |rel| > 0 && rel[0] == '/' then rel
    else if dir == "." then rel
    else if |dir| > 0 && dir[|dir| - 1] == '/' then dir + rel
    else dir + "/" + rel
  }

  /** The join ends in `rel`; an absolute `rel` is the whole join; otherwise, unless `dir`
      is ".", the join starts with `dir` and a separator comes right before `rel`. */
  lemma JoinShape(dir: Path, rel: string)
    ensures EndsWith(Join(dir, rel), rel)
    ensures |rel| > 0 && rel[0] == '/' ==> Join(dir, rel) == rel
    ensures var r := Join(dir, rel);
      !(|rel| > 0 && rel[0] == '/') && dir != "." ==>
        |dir| <= |r| - |rel| && r[..|dir|] == dir && |r| - |rel| > 0 && r[|r| - |rel| - 1] == '/'
  {
  }

  /** Joining a bare name onto a directory without a trailing separator, then taking the
      parent and the name, gives the two parts back. */
  lemma JoinSplits(dir: Path, name: string)
    requires |name| > 0 && '/' !in name
    requires dir != "" && dir != "." && dir[|dir| - 1] != '/'
    ensures Parent(Join(dir, name)) == dir && Name(Join(dir, name)) == name
  {
    var j := Join(dir, name);
    assert j == dir + "/" + name;
    NameOfJoin(dir, name);
    LastIndexOfAt(dir, '/', name);
    assert j[..|dir|] == dir;
  }

  /** `suffix in [".yaml", ".yml"]`: the test the action uses for definition files. */
  predicate IsYaml(p: Path)
  {
    Suffix(p) == ".yaml" || Suffix(p) == ".yml"
  }

  predicate EndsWith(s: string, tail: string)
  {
    |tail| <= |s| && s[|s| - |tail|..] == tail
  }

  /** The glob patterns "*.yaml" and "*.yml" match on the name. */
  predicate MatchesYamlGlob(p: Path)
  {
    EndsWith(Name(p), ".yaml") || EndsWith(Name(p), ".yml")
  }

  /** `p` lies somewhere below directory `dir` (what `dir.rglob` enumerates). */
  predicate IsBelow(p: Path, dir: Path)
  {
    if dir == "." then |p| > 0 && p[0] != '/'
    else 0 < |dir| < |p| && p[..|dir|] == dir && (p[|dir|] == '/' || dir[|dir| - 1] == '/')
  }

  /** A name with no separator survives `Join` as the last component. */
  lemma NameOfJoin(dir: Path, rel: string)
    requires |rel| > 0 && '/' !in rel
    ensures Name(Join(dir, rel)) == rel
  {
    var j := Join(dir, rel);
    LastIndexOfIsLast(j, '/');
    if dir != "." {
      var k := |j| - |rel|;
      assert j[k..] == rel;
      assert j[k - 1] == '/';
      assert LastIndexOf(j, '/') == k - 1;
    }
  }

  /** The last dot of `handler.py`. */
  lemma HandlerDot()
    ensures LastIndexOf("handler.py", '.') == 7
  {
    assert "handler.py" == "handler" + ['.'] + "py";
    LastIndexOfAt("handler", '.', "py");
  }

  /** The file a transformer's inline code is written to is never a definition file. */
  lemma HandlerIsNotYaml(dir: Path)
    ensures Name(Join(dir, "handler.py")) == "handler.py"
    ensures !IsYaml(Join(dir, "handler.py"))
  {
    var j := Join(dir, "handler.py");
    NameOfJoin(dir, "handler.py");
    assert Suffix(j) == ".py" by {
      HandlerDot();
      assert "handler.py"[7..] == ".py";
    }
    assert |".py"| != |".yaml"| && |".py"| != |".yml"|;
  }

  lemma YamlIsNotHandler(dir: Path, q: Path)
    requires IsYaml(q)
    ensures q != Join(dir, "handler.py")
  {
    HandlerIsNotYaml(dir);
  }

  /** Nor do the definition globs pick it up. */
  lemma HandlerIsNotMatched(dir: Path)
    ensures !MatchesYamlGlob(Join(dir, "handler.py"))
  {
    NameOfJoin(dir, "handler.py");
    var n := Name(Join(dir, "handler.py"));
    assert n[5..][0] == 'e' && ".yaml"[0] == '.';
    assert n[6..][0] == 'r' && ".yml"[0] == '.';
  }
}
