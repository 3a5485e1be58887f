/**
 * The name tests applied while `_main` expands a directory (docgrep.py:126-131):
 * which files found by the directory walk are searched, and which subdirectories
 * the walk descends into. The walk itself (`os.walk`) is not part of this model;
 * each step's `root`, `children` and `directories` are inputs.
 */
module Walk {
  import opened Strings

  /** `name.startswith('.')`: a name whose first character is a dot is hidden. The empty name is not. */
  predicate IsHidden(name: string)
    ensures IsHidden(name) <==> |name| > 0 && name[0] == '.'
  {
    StartsWith(name, ".")
  }

  /**
   * `f.endswith('.py') and not f.startswith('.')`: the last three characters are `.py`
   * and the first is not a dot. `.py` itself is therefore not searched.
   */
  predicate IsSourceFile(name: string)
    ensures IsSourceFile(name) <==>
            |name| >= 4 && name[|name| - 3] == '.' && name[|name| - 2] == 'p' && name[|name| - 1] == 'y' && name[0] != '.'
  {
    assert EndsWith(name, ".py") <==>
           |name| >= 3 && name[|name| - 3] == '.' && name[|name| - 2] == 'p' && name[|name| - 1] == 'y' by {
      if |name| >= 3 && name[|name| - 3] == '.' && name[|name| - 2] == 'p' && name[|name| - 1] == 'y' {
        assert name[|name| - 3..] == ".py";
      }
    }
    EndsWith(name, ".py") && !IsHidden(name)
  }

  /**
   * `os.path.join(root, name)` with POSIX rules: an absolute name replaces the root,
   * and a separator is added unless the root is empty or already ends with one.
   */
  function JoinPath(root: string, name: string): (path: string)
    ensures EndsWith(path, name)
    ensures StartsWith(name, "/") ==> path == name
    ensures !StartsWith(name, "/") ==> StartsWith(path, root)
    ensures !StartsWith(name, "/") ==> |path| == |root| + |name| + (if root == [] || EndsWith(root, "/") then 0 else 1)
    ensures !StartsWith(name, "/") && root != [] ==> EndsWith(path[..|path| - |name|], "/")
  {
    if StartsWith(name, "/") then
      name
    else if root == [] || EndsWith(root, "/") then
      assert (root + name)[..|root|] == root;
      root + name
    else
      assert (root + "/" + name)[..|root|] == root;
      root + "/" + name
  }

  /** a is b with some elements deleted: the elements of a appear in b in the same order. */
  ghost predicate Subsequence(a: seq<string>, b: seq<string>)
    decreases |b|
  {
    a == [] || (b != [] && ((a[0] == b[0] && Subsequence(a[1..], b[1..])) || Subsequence(a, b[1..])))
  }

  /** The source-file names among children, in order, each occurrence once. */
  ghost function SourceFiles(children: seq<string>): (names: seq<string>)
    ensures Subsequence(names, children)
    ensures forall f :: multiset(names)[f] == if IsSourceFile(f) then multiset(children)[f] else 0
  {
    if children == [] then []
    else
      var rest := SourceFiles(children[1..]);
      assert children == [children[0]] + children[1..];
      if IsSourceFile(children[0]) then
        assert ([children[0]] + rest)[1..] == rest;
        [children[0]] + rest
      else
        rest
  }

  /** Each name joined to root, position by position. */
  ghost function Joined(root: string, names: seq<string>): (paths: seq<string>)
    ensures |paths| == |names| && forall j :: 0 <= j < |names| ==> paths[j] == JoinPath(root, names[j])
  {
    seq(|names|, j requires 0 <= j < |names| => JoinPath(root, names[j]))
  }

  lemma JoinedCons(root: string, name: string, names: seq<string>)
    ensures Joined(root, [name] + names) == [JoinPath(root, name)] + Joined(root, names)
  {
    assert Joined(root, [name] + names)[1..] == Joined(root, names);
  }

  /**
   * The paths added to the worklist for one directory of the walk: the children that are
   * source files, in the walk's order and once per child, each joined to the directory.
   */
  function ChildFiles(root: string, children: seq<string>): (paths: seq<string>)
    ensures |paths| <= |children|
    ensures paths == Joined(root, SourceFiles(children))
    ensures forall f :: f in children && IsSourceFile(f) ==> JoinPath(root, f) in paths
  {
    if children == [] then
      []
    else
      var rest := ChildFiles(root, children[1..]);
      assert forall f :: f in children[1..] ==> f in children;
      if IsSourceFile(children[0]) then
        JoinedCons(root, children[0], SourceFiles(children[1..]));
        [JoinPath(root, children[0])] + rest
      else
        rest
  }

  /** Every path added comes from a child that is a source file. */
  lemma ChildFilesOnlySourceFiles(root: string, children: seq<string>)
    ensures forall p :: p in ChildFiles(root, children) ==>
              exists f :: f in children && IsSourceFile(f) && p == JoinPath(root, f)
  {
    var names := SourceFiles(children);
    forall p | p in ChildFiles(root, children)
      ensures exists f :: f in children && IsSourceFile(f) && p == JoinPath(root, f)
    {
      var j :| 0 <= j < |names| && ChildFiles(root, children)[j] == p;
      var f := names[j];
      assert multiset(names)[f] > 0;
      assert IsSourceFile(f) && multiset(children)[f] > 0;
      assert f in children;
    }
  }

  /** The subdirectories the walk goes on into: the ones that are not hidden, in order, each once. */
  function Subdirectories(directories: seq<string>): (kept: seq<string>)
    ensures |kept| <= |directories|
    ensures forall d :: d in kept <==> d in directories && !IsHidden(d)
    ensures Subsequence(kept, directories)
    ensures forall d :: multiset(kept)[d] == if IsHidden(d) then 0 else multiset(directories)[d]
  {
    if directories == [] then
      []
    else
      var rest := Subdirectories(directories[1..]);
      assert directories == [directories[0]] + directories[1..];
      if IsHidden(directories[0]) then rest
      else
        assert ([directories[0]] + rest)[1..] == rest;
        [directories[0]] + rest
  }

  /** `a.py` is searched; the hidden `.b.py` and the non-Python `c.txt` are not. */
  lemma NameTestsScenario()
    ensures IsSourceFile("a.py") && !IsSourceFile(".b.py") && !IsSourceFile("c.txt")
    ensures JoinPath("pkg", "a.py") == "pkg/a.py"
  {
    assert "pkg"[2] == 'g';
  }

  /** A directory `pkg` holding `a.py`, `.b.py` and `c.txt`: only `pkg/a.py` is searched. */
  lemma ChildFilesScenario()
    ensures ChildFiles("pkg", ["a.py", ".b.py", "c.txt"]) == ["pkg/a.py"]
  {
    NameTestsScenario();
    var cs := ["a.py", ".b.py", "c.txt"];
    assert ChildFiles("pkg", cs[2..]) == [] by { assert cs[2..][1..] == []; }
    assert ChildFiles("pkg", cs[1..]) == [] by { assert cs[1..][1..] == cs[2..]; }
  }

  /** One step of the pruning: the first directory is kept unless it is hidden. */
  lemma SubdirectoriesCons(d: string, ds: seq<string>)
    ensures Subdirectories([d] + ds) == (if IsHidden(d) then [] else [d]) + Subdirectories(ds)
  {
    assert ([d] + ds)[1..] == ds;
  }

  /** Hidden subdirectories such as `.git` are pruned from the walk; others are kept. */
  lemma SubdirectoriesScenario()
    ensures Subdirectories([".git", "src", ".tox", "tests"]) == ["src", "tests"]
  {
    assert IsHidden(".git") && IsHidden(".tox") && !IsHidden("src") && !IsHidden("tests");
    SubdirectoriesCons("tests", []);
    SubdirectoriesCons(".tox", ["tests"]);
    SubdirectoriesCons("src", [".tox", "tests"]);
    SubdirectoriesCons(".git", ["src", ".tox", "tests"]);
  }
}
