/** The rewriting of Markdown link destinations that happens while a page's
    Markdown is converted to HTML (navtransformer.go): links to other
    Markdown files become links to the HTML pages made from them. The
    document tree of the Markdown parser is reduced to the array of the
    destinations of its links, in document order. */
module NavTransformer {
  import opened Strs
  import Paths

  /** relative (navtransformer.go:31-52). An absolute destination is made
      relative to the page's directory by `rel`, which stands for
      filepath.Rel. Otherwise one leading "./" is dropped; what is then
      "./" is returned as it is; "." or nothing means the page itself,
      named by its Markdown file; anything else is kept. */
  function Relative(dir: string, filename: string, dest: string, rel: (string, string) -> string): (r: string)
    ensures HasPrefix(dest, "/") ==> r == rel(dir, dest)
    ensures !HasPrefix(dest, "/") && IsSelfLink(dest) ==> r == SourceName(filename)
    ensures !HasPrefix(dest, "/") && !IsSelfLink(dest) ==>
      r == TrimPrefix(dest, "./") && HasSuffix(dest, r)
  {
    if HasPrefix(dest, "/") then rel(dir, dest)
    else
      var d := if HasPrefix(dest, "./") then dest[2..] else dest;
      if HasPrefix(dest, "./") && d == "./" then d
      else if d == "." || d == "" then
        TrimSuffix(TrimPrefix(filename, "/"), ".html") + ".md"
      else d
  }

  /** The destinations that name the current page: ".", "" and those two
      after one "./". */
  predicate IsSelfLink(dest: string) {
    dest == "." || dest == "" || dest == "./." || dest == "./"
  }

  /** The Markdown file an HTML page file name was made from. */
  function SourceName(filename: string): (r: string)
    ensures HasSuffix(r, ".md")
  {
    TrimSuffix(TrimPrefix(filename, "/"), ".html") + ".md"
  }

  /** What the link walk (navtransformer.go:15-29) makes of one
      destination: a link starting with "http" is left alone, any other
      becomes the relative destination with ".md" replaced by ".html". */
  function Rewrite(dir: string, filename: string, dest: string, rel: (string, string) -> string): (r: string)
    ensures HasPrefix(dest, "http") ==> r == dest
    ensures !HasPrefix(dest, "http") ==> HasSuffix(r, ".html")
  {
    if HasPrefix(dest, "http") then dest
    else
      var t := TrimSuffix(Relative(dir, filename, dest, rel), ".md") + ".html";
      assert t[|t| - 5..] == ".html";
      t
  }

  /** Every destination of a document, rewritten. */
  function RewriteAll(dir: string, filename: string, dests: seq<string>, rel: (string, string) -> string): (r: seq<string>)
    ensures |r| == |dests|
    ensures forall i :: 0 <= i < |dests| ==> r[i] == Rewrite(dir, filename, dests[i], rel)
    decreases |dests|
  {
    if dests == [] then [] else [Rewrite(dir, filename, dests[0], rel)] + RewriteAll(dir, filename, dests[1..], rel)
  }

  // -----------------------------------------------------------------------
  // The file name of the current page.

  /** The file name the source computes: `currentPath` without as many
      leading characters as its directory has. Go panics when the
      directory is longer than the path. */
  function FileNameAsWritten(currentPath: string): (r: string)
    requires |Paths.Dir(currentPath)| <= |currentPath|
    ensures currentPath == currentPath[..|Paths.Dir(currentPath)|] + r
  {
    currentPath[|Paths.Dir(currentPath)|..]
  }

  /** The file name the walk uses: what follows the last slash. */
  function FileName(currentPath: string): (r: string)
    ensures '/' !in r && HasSuffix(currentPath, r)
    ensures currentPath == currentPath[..|currentPath| - |r|] + r
    ensures |r| < |currentPath| ==> currentPath[|currentPath| - |r| - 1] == '/'
  {
    var k := Paths.LastSlash(currentPath) + 1;
    var r := currentPath[k..];
    assert '/' !in r by {
      forall i | 0 <= i < |r|
        ensures r[i] != '/'
      {
        assert r[i] == currentPath[k + i];
      }
    }
    assert currentPath == currentPath[..k] + r;
    r
  }

  /** For a page in the site root the two file names lead to the same
      links: the source's keeps the page's name as it is. */
  lemma FileNamesAgreeAtRoot(name: string)
    requires name != [] && '/' !in name && name != "." && name != ".."
    ensures |Paths.Dir("/" + name)| <= |"/" + name|
    ensures FileNameAsWritten("/" + name) == FileName("/" + name) == name
  {
    Paths.DirOfTopLevelFile(name);
    var path := "/" + name;
    assert Paths.LastSlash(path) == 0 by {
      assert path[0] == '/';
      assert forall i :: 0 < i < |path| ==> path[i] == name[i - 1] && path[i] != '/';
    }
  }

  /** Wherever the directory part of the page's path is already clean, the
      source's file name is the corrected one with the slash before it,
      which the self-link case strips, so both names rewrite every link of
      the document alike. */
  lemma FileNamesAgreeUnderCleanDir(dir: string, name: string, dests: seq<string>, rel: (string, string) -> string)
    requires Paths.Clean(dir) == dir && '/' !in name
    ensures var p := dir + "/" + name;
      && Paths.Dir(p) == dir
      && |Paths.Dir(p)| <= |p|
      && FileNameAsWritten(p) == "/" + name
      && FileName(p) == name
      && RewriteAll(dir, FileNameAsWritten(p), dests, rel) == RewriteAll(dir, FileName(p), dests, rel)
  {
    var p := dir + "/" + name;
    Paths.DirOfCleanParent(dir, name);
    assert p[|dir|..] == "/" + name;
    assert p[Paths.LastSlash(p) + 1..] == name;
    assert TrimPrefix("/" + name, "/") == name;
    assert TrimPrefix(name, "/") == name by {
      if name != [] { assert name[0] in name; }
    }
    var a := RewriteAll(dir, "/" + name, dests, rel);
    var b := RewriteAll(dir, name, dests, rel);
    forall i | 0 <= i < |dests|
      ensures a[i] == b[i]
    {
      SameSourceSameRewrite(dir, "/" + name, name, dests[i], rel);
    }
  }

  /** Two file names with the same text after an optional leading slash
      rewrite a link alike. */
  lemma SameSourceSameRewrite(dir: string, f: string, g: string, dest: string, rel: (string, string) -> string)
    requires TrimPrefix(f, "/") == TrimPrefix(g, "/")
    ensures Rewrite(dir, f, dest, rel) == Rewrite(dir, g, dest, rel)
  {
    assert SourceName(f) == SourceName(g);
  }

  /** A doubled slash before the file name defeats the source's cut as
      well: the directory is the one before the two slashes, the cut keeps
      both slashes, and a link to "." is sent to "/" + the page's name, a
      page in the site root, instead of to the page's name. */
  lemma DoubledSlashMisdirects(dir: string, name: string, rel: (string, string) -> string)
    requires Paths.Clean(dir) == dir && '/' !in name && HasSuffix(name, ".html")
    ensures var p := dir + "//" + name;
      && Paths.Dir(p) == dir
      && |Paths.Dir(p)| <= |p|
      && FileNameAsWritten(p) == "//" + name
      && Rewrite(dir, FileNameAsWritten(p), ".", rel) == "/" + name
      && FileName(p) == name
      && Rewrite(dir, FileName(p), ".", rel) == name
  {
    DoubledSlashNames(dir, name);
    var f := "//" + name;
    assert TrimPrefix(f, "/") == "/" + name by {
      assert f[..1] == "/" && f[1..] == "/" + name;
    }
    assert HasSuffix("/" + name, ".html") by {
      assert ("/" + name)[|name| + 1 - 5..] == name[|name| - 5..];
    }
    SelfLinkRewrite(dir, f, rel);
    assert TrimPrefix(name, "/") == name by {
      if name != [] { assert name[0] in name; }
    }
    SelfLinkRewrite(dir, name, rel);
  }

  /** Where the directory and the file name of a path are parted by two
      slashes. */
  lemma DoubledSlashNames(dir: string, name: string)
    requires Paths.Clean(dir) == dir && '/' !in name
    ensures var p := dir + "//" + name;
      && Paths.Dir(p) == dir
      && |Paths.Dir(p)| <= |p|
      && FileNameAsWritten(p) == "//" + name
      && FileName(p) == name
  {
    var p := dir + "//" + name;
    assert p == (dir + "/") + "/" + name;
    Paths.LastSlashBeforeName(dir + "/", name);
    assert p[..|dir| + 2] == (dir + "/") + "/";
    Paths.CleanTrailingSlash(dir + "/");
    Paths.CleanTrailingSlash(dir);
    assert p[|dir|..] == "//" + name;
    assert p[|dir| + 2..] == name;
  }

  /** A link to "." on a page file whose name, after one leading slash is
      dropped, ends in ".html" is rewritten to that name. */
  lemma SelfLinkRewrite(dir: string, f: string, rel: (string, string) -> string)
    requires HasSuffix(TrimPrefix(f, "/"), ".html")
    ensures Rewrite(dir, f, ".", rel) == TrimPrefix(f, "/")
  {
    var g := TrimPrefix(f, "/");
    var stem := TrimSuffix(g, ".html");
    SelfLinkPlain(".");
    assert g == stem + ".html";
    assert Relative(dir, f, ".", rel) == stem + ".md";
    assert TrimSuffix(stem + ".md", ".md") == stem by {
      assert (stem + ".md")[|stem|..] == ".md";
    }
  }

  /** The smallest case of the above: "/a//b.html" sends "." to "/b.html". */
  lemma DoubledSlashExample(rel: (string, string) -> string)
    ensures Paths.Dir("/a" + "//" + "b.html") == "/a"
    ensures Rewrite("/a", FileNameAsWritten("/a" + "//" + "b.html"), ".", rel) == "/" + "b.html"
    ensures Rewrite("/a", FileName("/a" + "//" + "b.html"), ".", rel) == "b.html"
  {
    var name := "b.html";
    CleanA();
    assert '/' !in name by {
      assert forall i :: 0 <= i < |name| ==> name[i] != '/';
    }
    assert name[|name| - 5..] == ".html";
    DoubledSlashMisdirects("/a", name, rel);
  }

  lemma CleanA()
    ensures Paths.Clean("/a") == "/a"
  {
    Paths.SingleElement("a");
    assert "/a"[1..] == "a";
    assert Split("/a", '/') == ["", "a"];
    assert Paths.Resolve(true, [], ["", "a"]) == ["a"];
  }

  /** On a path without a slash the directory is ".", so the source drops
      the first character of the file name, and a link to "." leads to a
      page that does not exist: on "index.html" it leads to "ndex.html".
      The corrected file name leads back to the page itself. */
  lemma FileNameAsWrittenDropsLetter(name: string, rel: (string, string) -> string)
    requires '/' !in name && HasSuffix(name, ".html") && |name| > |".html"| + 1
    ensures Paths.Dir(name) == "."
    ensures FileNameAsWritten(name) == name[1..]
    ensures Rewrite(Paths.Dir(name), FileNameAsWritten(name), ".", rel) == name[1..]
    ensures Rewrite(Paths.Dir(name), FileName(name), ".", rel) == name
  {
    var n := |name|;
    assert Paths.Dir(name) == "." && FileName(name) == name by {
      assert forall i :: 0 <= i < n ==> name[i] != '/';
      assert Paths.LastSlash(name) == -1;
      assert name[..0] == [];
    }
    assert Rewrite(".", name, ".", rel) == name by {
      var stem := name[..n - 5];
      assert stem + ".html" == name;
      assert stem[0] == name[0];
      HtmlSelfLink(".", stem, rel);
    }
    assert Rewrite(".", name[1..], ".", rel) == name[1..] by {
      var short := name[1..n - 5];
      assert short + ".html" == name[1..];
      assert short[0] == name[1];
      HtmlSelfLink(".", short, rel);
    }
  }

  /** The smallest case of the above: the home page "index.html". */
  lemma IndexLosesLetter(rel: (string, string) -> string)
    ensures Paths.Dir("index.html") == "."
    ensures FileNameAsWritten("index.html") == "ndex.html"
    ensures Rewrite(".", "ndex.html", ".", rel) == "ndex.html"
  {
    var name := "index.html";
    assert '/' !in name by {
      assert forall i :: 0 <= i < |name| ==> name[i] != '/';
    }
    assert name[|name| - 5..] == ".html";
    FileNameAsWrittenDropsLetter(name, rel);
    assert name[1..] == "ndex.html";
  }

  /** On a page file "<stem>.html", a link to "." is rewritten to the page
      file itself. */
  lemma HtmlSelfLink(dir: string, stem: string, rel: (string, string) -> string)
    requires stem != [] && stem[0] != '/'
    ensures Rewrite(dir, stem + ".html", ".", rel) == stem + ".html"
  {
    var f := stem + ".html";
    SelfLinkPlain(".");
    assert TrimPrefix(f, "/") == f by {
      assert f[0] == stem[0];
    }
    assert TrimSuffix(f, ".html") == stem by {
      assert f[|stem|..] == ".html";
    }
    assert Relative(dir, f, ".", rel) == stem + ".md";
    assert TrimSuffix(stem + ".md", ".md") == stem by {
      assert (stem + ".md")[|stem|..] == ".md";
    }
  }

  // -----------------------------------------------------------------------
  // What the rewriting means.

  /** A link to the page itself leads back to the page: on any page whose
      path ends in ".html", each self link is rewritten to the page's own
      file name. */
  lemma {:induction false} SelfLinkLeadsHome(currentPath: string, dest: string, rel: (string, string) -> string)
    requires HasSuffix(currentPath, ".html") && IsSelfLink(dest)
    ensures Rewrite(Paths.Dir(currentPath), FileName(currentPath), dest, rel) == FileName(currentPath)
  {
    var dir := Paths.Dir(currentPath);
    var name := FileName(currentPath);
    NameKeepsSuffix(currentPath);
    SelfLinkPlain(dest);
    var base := TrimSuffix(name, ".html");
    assert TrimPrefix(name, "/") == name by {
      if name != [] { assert name[0] in name; }
    }
    assert Relative(dir, name, dest, rel) == base + ".md";
    assert TrimSuffix(base + ".md", ".md") == base by {
      assert (base + ".md")[|base|..] == ".md";
    }
  }

  /** A self link is neither absolute nor a web address. */
  lemma SelfLinkPlain(dest: string)
    requires IsSelfLink(dest)
    ensures !HasPrefix(dest, "/") && !HasPrefix(dest, "http")
  {
    assert dest == [] || dest[..1] == ".";
  }

  /** The file name of an HTML page ends in ".html" too. */
  lemma NameKeepsSuffix(currentPath: string)
    requires HasSuffix(currentPath, ".html")
    ensures HasSuffix(FileName(currentPath), ".html")
  {
    NoSlashInSuffix(currentPath, ".html");
    SuffixOfTail(currentPath, Paths.LastSlash(currentPath) + 1, ".html");
  }

  /** A tail that starts before a suffix keeps the suffix. */
  lemma SuffixOfTail(s: string, k: nat, suffix: string)
    requires HasSuffix(s, suffix) && k <= |s| - |suffix|
    ensures HasSuffix(s[k..], suffix)
  {
    assert s[k..][|s| - k - |suffix|..] == s[|s| - |suffix|..];
  }

  /** The last slash comes before any slash-free suffix. */
  lemma {:induction false} NoSlashInSuffix(s: string, suffix: string)
    requires HasSuffix(s, suffix) && '/' !in suffix
    ensures Paths.LastSlash(s) < |s| - |suffix|
    decreases |suffix|
  {
    if suffix != [] {
      var n, m := |s|, |suffix|;
      assert s[n - 1] == suffix[m - 1] && suffix[m - 1] in suffix;
      var init := suffix[..m - 1];
      assert s[..n - 1][n - m..] == init;
      assert '/' !in init by {
        assert forall c :: c in init ==> c in suffix;
      }
      NoSlashInSuffix(s[..n - 1], init);
    }
  }

  /** A relative link to a Markdown file becomes a link to the HTML page
      of that file. */
  lemma MarkdownLinkToPage(dir: string, filename: string, base: string, rel: (string, string) -> string)
    requires !HasPrefix(base, "/") && !HasPrefix(base, "./") && !HasPrefix(base, "http")
    ensures Rewrite(dir, filename, base + ".md", rel) == base + ".html"
  {
    var dest := base + ".md";
    MarkdownDestPlain(base);
    assert Relative(dir, filename, dest, rel) == dest;
    assert TrimSuffix(dest, ".md") == base by {
      assert dest[|base|..] == ".md";
    }
  }

  /** Putting ".md" after a name makes it neither absolute, nor "./"-led,
      nor a web address, nor a self link. */
  lemma MarkdownDestPlain(base: string)
    requires !HasPrefix(base, "/") && !HasPrefix(base, "./") && !HasPrefix(base, "http")
    ensures !HasPrefix(base + ".md", "/")
    ensures !HasPrefix(base + ".md", "./")
    ensures !HasPrefix(base + ".md", "http")
    ensures !IsSelfLink(base + ".md")
  {
    var dest := base + ".md";
    PrefixSplit(base, ".md", "/");
    PrefixSplit(base, ".md", "./");
    PrefixSplit(base, ".md", "http");
    if |base| < 4 {
      assert "http"[|base|] != '.';
    }
    if base == [] {
      assert (base + ".md")[1] == 'm';
    } else if |base| == 1 {
      assert "./"[1] != ".md"[0];
    }
    assert dest[|dest| - 1] == 'd';
  }

  /** A prefix of `base + tail` is a prefix of `base` or runs into `tail`. */
  lemma PrefixSplit(base: string, tail: string, p: string)
    ensures HasPrefix(base + tail, p) && |p| <= |base| ==> HasPrefix(base, p)
    ensures HasPrefix(base + tail, p) && |base| < |p| ==> p[|base|] == tail[0]
  {
    if HasPrefix(base + tail, p) && |base| < |p| {
      assert p[|base|] == (base + tail)[|base|];
    }
    if HasPrefix(base + tail, p) && |p| <= |base| {
      assert p == (base + tail)[..|p|] == base[..|p|];
    }
  }

  /** A relative link that names no Markdown file keeps its target and
      gains ".html". */
  lemma OtherLinkGainsHtml(dir: string, filename: string, dest: string, rel: (string, string) -> string)
    requires !HasPrefix(dest, "/") && !HasPrefix(dest, "./") && !HasPrefix(dest, "http")
    requires !IsSelfLink(dest) && !HasSuffix(dest, ".md")
    ensures Rewrite(dir, filename, dest, rel) == dest + ".html"
  {
  }

  /** An absolute link is made relative to the page's directory first. */
  lemma AbsoluteLinkMadeRelative(currentPath: string, dest: string, rel: (string, string) -> string)
    requires HasPrefix(dest, "/")
    ensures Rewrite(Paths.Dir(currentPath), FileName(currentPath), dest, rel)
      == TrimSuffix(rel(Paths.Dir(currentPath), dest), ".md") + ".html"
  {
    assert dest[0] == '/';
  }

  /** Dropping a leading "./" changes nothing else. */
  lemma DotSlashDropped(dir: string, filename: string, dest: string, rel: (string, string) -> string)
    requires !HasPrefix(dest, "/") && !IsSelfLink("./" + dest) && !HasPrefix(dest, "./")
    ensures Relative(dir, filename, "./" + dest, rel) == Relative(dir, filename, dest, rel)
  {
    var d := "./" + dest;
    assert !HasPrefix(d, "/");
    assert HasPrefix(d, "./") && d[2..] == dest;
  }

  // -----------------------------------------------------------------------
  // The walk over the document.

  /** Transform (navtransformer.go:15-29): every link destination of the
      document is rewritten in place, in document order, against the page's
      directory and file name. */
  method Transform(currentPath: string, links: array<string>, rel: (string, string) -> string)
    modifies links
    ensures links[..] == RewriteAll(Paths.Dir(currentPath), FileName(currentPath), old(links[..]), rel)
  {
    var dir := Paths.Dir(currentPath);
    var filename := FileName(currentPath);
    RewriteLinks(dir, filename, links, rel);
  }

  /** The walk itself (navtransformer.go:17-28): the links are visited in
      document order and each destination is replaced by its rewriting. */
  method RewriteLinks(dir: string, filename: string, links: array<string>, rel: (string, string) -> string)
    modifies links
    ensures links[..] == RewriteAll(dir, filename, old(links[..]), rel)
  {
    ghost var before := links[..];
    ghost var after := RewriteAll(dir, filename, before, rel);
    var i := 0;
    while i < links.Length
      invariant 0 <= i <= links.Length
      invariant links[..i] == after[..i]
      invariant links[i..] == before[i..]
    {
      ReplaceStep(before, links[..], after, i);
      links[i] := Rewrite(dir, filename, links[i], rel);
      i := i + 1;
    }
    assert links[..] == links[..i] && after == after[..i];
  }

  /** One step of a left-to-right replacement: when the first i elements
      are already replaced and the rest are untouched, replacing element i
      extends the replaced part by one. */
  lemma ReplaceStep<T>(before: seq<T>, cur: seq<T>, after: seq<T>, i: nat)
    requires |cur| == |before| == |after| && i < |cur|
    requires cur[..i] == after[..i] && cur[i..] == before[i..]
    ensures cur[i] == before[i]
    ensures cur[i := after[i]][..i + 1] == after[..i + 1]
    ensures cur[i := after[i]][i + 1..] == before[i + 1..]
  {
    assert cur[i] == cur[i..][0] == before[i..][0];
    assert cur[i := after[i]][..i + 1] == cur[..i] + [after[i]];
    assert after[..i + 1] == after[..i] + [after[i]];
    assert cur[i := after[i]][i + 1..] == cur[i..][1..] == before[i..][1..];
  }
}
