/** The lexical slash-separated path operations of Go's `path/filepath`
    (Unix flavour) that the site navigation uses: Clean, Dir and Join.
    filepath.Rel is not modelled here; callers take it as a parameter. */
module Paths {
  import opened Strs

  /** One step of Clean's element processing: `.` and empty elements
      vanish, `..` removes the element before it, and a `..` with nothing
      to remove is kept only in a relative path. */
  function Push(rooted: bool, stack: seq<string>, e: string): seq<string> {
    if e == [] || e == "." then stack
    else if e == ".." then
      if stack != [] && stack[|stack| - 1] != ".." then stack[..|stack| - 1]
      else if rooted then stack
      else stack + [e]
    else stack + [e]
  }

  function Resolve(rooted: bool, stack: seq<string>, es: seq<string>): seq<string>
    decreases |es|
  {
    if es == [] then stack else Resolve(rooted, Push(rooted, stack, es[0]), es[1..])
  }

  /** The elements a cleaned path is made of: none empty, none `.`, and
      `..` only as a leading run of a relative path. */
  predicate Normal(rooted: bool, stack: seq<string>) {
    && (forall i :: 0 <= i < |stack| ==> stack[i] != [] && stack[i] != "." && '/' !in stack[i])
    && (forall i :: 0 <= i < |stack| && stack[i] == ".." ==> !rooted && forall j :: 0 <= j < i ==> stack[j] == "..")
  }

  lemma {:induction false} ResolveNormal(rooted: bool, stack: seq<string>, es: seq<string>)
    requires Normal(rooted, stack)
    requires forall i :: 0 <= i < |es| ==> '/' !in es[i]
    ensures Normal(rooted, Resolve(rooted, stack, es))
    decreases |es|
  {
    if es != [] {
      var next := Push(rooted, stack, es[0]);
      assert Normal(rooted, next);
      ResolveNormal(rooted, next, es[1..]);
    }
  }

  /** filepath.Clean: the shortest lexically equivalent path. */
  function Clean(path: string): (r: string)
    ensures r != []
  {
    if path == [] then "."
    else
      var rooted := path[0] == '/';
      var stack := Resolve(rooted, [], Split(path, '/'));
      ResolveNormal(rooted, [], Split(path, '/'));
      if rooted then "/" + Strs.Join(stack, '/')
      else if stack == [] then "."
      else JoinStart(stack, '/'); Strs.Join(stack, '/')
  }

  /** Clean keeps a path rooted exactly when it was rooted. */
  lemma CleanRooted(path: string)
    requires path != []
    ensures HasPrefix(Clean(path), "/") <==> path[0] == '/'
  {
    var rooted := path[0] == '/';
    var stack := Resolve(rooted, [], Split(path, '/'));
    ResolveNormal(rooted, [], Split(path, '/'));
    if !rooted && stack != [] {
      assert stack[0] != [] && '/' !in stack[0];
      JoinStart(stack, '/');
    }
  }

  /** A joined list starts with its first element. */
  lemma JoinStart(es: seq<string>, sep: char)
    requires es != []
    ensures HasPrefix(Strs.Join(es, sep), es[0])
  {
  }

  /** The index of the last slash of s, if any. */
  function LastSlash(s: string): (r: int)
    ensures -1 <= r < |s|
    ensures r >= 0 ==> s[r] == '/'
    ensures forall i :: r < i < |s| ==> s[i] != '/'
  {
    if s == [] then -1
    else if s[|s| - 1] == '/' then |s| - 1
    else LastSlash(s[..|s| - 1])
  }

  /** filepath.Dir: everything up to the last slash, cleaned. */
  function Dir(path: string): (r: string)
    ensures r != []
  {
    Clean(path[..LastSlash(path) + 1])
  }

  /** filepath.Join of two elements: empty elements are ignored and the
      result is cleaned. */
  function Join(a: string, b: string): (r: string)
    ensures r == [] <==> a == [] && b == []
  {
    if a == [] && b == [] then []
    else if a == [] then Clean(b)
    else if b == [] then Clean(a)
    else Clean(a + "/" + b)
  }

  /** The directory of a file in the site root is the root. */
  lemma DirOfTopLevelFile(name: string)
    requires name != [] && '/' !in name && name != "." && name != ".."
    ensures Dir("/" + name) == "/"
  {
    var path := "/" + name;
    assert LastSlash(path) == 0 by {
      assert path[0] == '/';
      assert forall i :: 0 < i < |path| ==> path[i] == name[i - 1] && path[i] != '/';
    }
    assert path[..1] == "/";
    assert Split("/", '/') == [[], []];
    assert Resolve(true, [], [[], []]) == [];
  }

  /** Joining the root and a file name gives the rooted file name. */
  lemma JoinRootedName(name: string)
    requires name != [] && '/' !in name && name != "." && name != ".."
    ensures Join("/", name) == "/" + name
  {
    var path := "/" + "/" + name;
    SingleElement(name);
    assert path[1..] == "/" + name;
    assert Split(path, '/') == [[], [], name];
    assert Resolve(true, [name], []) == [name];
    assert Resolve(true, [], [name]) == [name];
    assert Resolve(true, [], [[], name]) == [name];
    assert Resolve(true, [], [[], [], name]) == [name];
  }

  lemma SingleElement(name: string)
    requires '/' !in name
    ensures Split(name, '/') == [name]
    decreases |name|
  {
    if name != [] {
      SingleElement(name[1..]);
      assert [name[0]] + name[1..] == name;
    }
  }

  /** A trailing separator adds one empty piece to a split. */
  lemma {:induction false} SplitTrailingSep(s: string, sep: char)
    ensures Split(s + [sep], sep) == Split(s, sep) + [""]
    decreases |s|
  {
    if s == [] {
      assert Split([sep], sep) == [""] + Split([], sep);
    } else {
      assert (s + [sep])[1..] == s[1..] + [sep];
      SplitTrailingSep(s[1..], sep);
    }
  }

  /** Resolving one more element is one more Push. */
  lemma {:induction false} ResolveSnoc(rooted: bool, stack: seq<string>, es: seq<string>, e: string)
    ensures Resolve(rooted, stack, es + [e]) == Push(rooted, Resolve(rooted, stack, es), e)
    decreases |es|
  {
    if es != [] {
      assert (es + [e])[0] == es[0] && (es + [e])[1..] == es[1..] + [e];
      ResolveSnoc(rooted, Push(rooted, stack, es[0]), es[1..], e);
    } else {
      assert Resolve(rooted, stack, [e]) == Resolve(rooted, Push(rooted, stack, e), []);
    }
  }

  /** Clean ignores a trailing slash. */
  lemma CleanTrailingSlash(s: string)
    requires s != []
    ensures Clean(s + "/") == Clean(s)
  {
    var rooted := s[0] == '/';
    assert (s + "/")[0] == s[0];
    SplitTrailingSep(s, '/');
    ResolveSnoc(rooted, [], Split(s, '/'), "");
  }

  /** The directory of `dir + "/" + name`, for a clean `dir` and a
      slash-free `name`, is `dir` itself. */
  lemma DirOfCleanParent(dir: string, name: string)
    requires Clean(dir) == dir && '/' !in name
    ensures LastSlash(dir + "/" + name) == |dir|
    ensures Dir(dir + "/" + name) == dir
  {
    LastSlashBeforeName(dir, name);
    var p := dir + "/" + name;
    assert p[..|dir| + 1] == dir + "/";
    CleanTrailingSlash(dir);
  }

  /** The last slash of `dir + "/" + name` is the one before `name`. */
  lemma {:induction false} LastSlashBeforeName(dir: string, name: string)
    requires '/' !in name
    ensures LastSlash(dir + "/" + name) == |dir|
    decreases |name|
  {
    var p := dir + "/" + name;
    if name == [] {
      assert p == dir + "/" && p[|p| - 1] == '/';
    } else {
      var init := name[..|name| - 1];
      assert name[|name| - 1] in name;
      assert p[|p| - 1] == name[|name| - 1];
      assert p[..|p| - 1] == dir + "/" + init;
      assert '/' !in init by {
        assert forall c :: c in init ==> c in name;
      }
      LastSlashBeforeName(dir, init);
    }
  }
}
