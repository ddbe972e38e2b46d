/** Site navigation (nav.go): registering the page tree, breadcrumbs,
    section navigation, indentation of rendered HTML and relative links.
    filepath.Rel is the parameter `rel`; HTML escaping and the goldmark
    rendering are not part of this model. */
module Nav {
  import opened Common
  import opened Strs
  import opened Paths
  import opened Site

  /** relativeURL (nav.go:210-218): a rooted destination is made relative
      to dir by filepath.Rel; any other destination is returned as is. */
  function RelativeURL(dir: string, dest: string, rel: (string, string) -> string): (r: string)
    ensures !HasPrefix(dest, "/") ==> r == dest
    ensures HasPrefix(dest, "/") ==> r == rel(dir, dest)
  {
    if HasPrefix(dest, "/") then rel(dir, dest) else dest
  }

  // -----------------------------------------------------------------------
  // buildPageMap and BuildPageInSectionMap (nav.go:68-85).

  /** buildPageMap: p and every page under it get section s and are
      registered under their URLs, depth first. */
  method BuildPageMap(site: SiteTree, p: nat, s: nat)
    requires site.Valid() && p < |site.pages| && s < |site.sections|
    modifies site
    ensures site.Valid() && site.pages == old(site.pages) && site.sections == old(site.sections)
    ensures site.Snapshot() == Apply(old(site.Snapshot()), PageWrites(site.pages, p, s))
    decreases |site.pages| - p
  {
    ghost var start := site.Snapshot();
    site.pageSection := site.pageSection[p := s];
    site.pageMap := site.pageMap[site.pages[p].url := p];
    ghost var first := [SetSection(p, s), SetPageMap(site.pages[p].url, p)];
    TwoWrites(start, SetSection(p, s), SetPageMap(site.pages[p].url, p));
    var cs := site.pages[p].children;
    assert first + PageListWrites(site.pages, cs[..0], p, s) == first;
    for i := 0 to |cs|
      invariant site.Valid() && site.pages == old(site.pages) && site.sections == old(site.sections)
      invariant site.Snapshot() == Apply(start, first + PageListWrites(site.pages, cs[..i], p, s))
    {
      ghost var before := site.Snapshot();
      BuildPageMap(site, cs[i], s);
      PageStep(site.pages, start, first, p, i, s, before, site.Snapshot());
    }
    assert cs[..|cs|] == cs;
  }

  /** One round of buildPageMap's loop extends the trace by the child's
      own trace. */
  lemma PageStep(pages: seq<Page>, start: Links, first: seq<Write>, p: nat, i: nat, s: nat,
                 before: Links, after: Links)
    requires PagesOrdered(pages) && p < |pages| && i < |pages[p].children|
    requires before == Apply(start, first + PageListWrites(pages, pages[p].children[..i], p, s))
    requires after == Apply(before, PageWrites(pages, pages[p].children[i], s))
    ensures after == Apply(start, first + PageListWrites(pages, pages[p].children[..i + 1], p, s))
  {
    var cs := pages[p].children;
    var prior := PageListWrites(pages, cs[..i], p, s);
    var step := PageWrites(pages, cs[i], s);
    assert PageListWrites(pages, cs[..i + 1], p, s) == prior + step by {
      assert cs[..i + 1] == cs[..i] + [cs[i]];
      PageListWritesAppend(pages, cs[..i], p, cs[i], s);
    }
    TraceGrows(start, first, prior, step, before, after);
  }

  /** Two writes in a row are their trace. */
  lemma TwoWrites(l: Links, a: Write, b: Write)
    ensures Apply(l, [a, b]) == Apply1(Apply1(l, a), b)
  {
    assert [a, b][1..] == [b];
    OneWrite(Apply1(l, a), b);
  }

  /** BuildPageInSectionMap: registers t's page tree, then links every
      child section to t and recurses into it, in order. The two halves
      of the Go function are RegisterSectionPage and LinkChildSections. */
  method BuildPageInSectionMap(site: SiteTree, t: nat)
    requires site.Valid() && t < |site.sections|
    modifies site
    ensures site.Valid() && site.pages == old(site.pages) && site.sections == old(site.sections)
    ensures site.Snapshot() == Apply(old(site.Snapshot()), SectionWrites(site.pages, site.sections, t))
    decreases |site.sections| - t, 1
  {
    ghost var start := site.Snapshot();
    RegisterSectionPage(site, t);
    ghost var mid := site.Snapshot();
    LinkChildSections(site, t);
    ApplyConcat(start, OwnPageWrites(site.pages, site.sections, t),
                ChildSectionWrites(site.pages, site.sections, site.sections[t].children, t));
  }

  /** `if s.Page != nil { pageMap[s.Page.URL] = s.Page; buildPageMap(s.Page, s) }`. */
  method RegisterSectionPage(site: SiteTree, t: nat)
    requires site.Valid() && t < |site.sections|
    modifies site
    ensures site.Valid() && site.pages == old(site.pages) && site.sections == old(site.sections)
    ensures site.Snapshot() == Apply(old(site.Snapshot()), OwnPageWrites(site.pages, site.sections, t))
  {
    ghost var start := site.Snapshot();
    if site.sections[t].page.Some? {
      var q := site.sections[t].page.value;
      site.pageMap := site.pageMap[site.pages[q].url := q];
      OneWrite(start, SetPageMap(site.pages[q].url, q));
      BuildPageMap(site, q, t);
      ApplyConcat(start, [SetPageMap(site.pages[q].url, q)], PageWrites(site.pages, q, t));
    }
  }

  /** `for _, child := range s.Children { child.parent = s; BuildPageInSectionMap(child) }`. */
  method LinkChildSections(site: SiteTree, t: nat)
    requires site.Valid() && t < |site.sections|
    modifies site
    ensures site.Valid() && site.pages == old(site.pages) && site.sections == old(site.sections)
    ensures site.Snapshot() == Apply(old(site.Snapshot()),
      ChildSectionWrites(site.pages, site.sections, site.sections[t].children, t))
    decreases |site.sections| - t, 0
  {
    ghost var start := site.Snapshot();
    var cs := site.sections[t].children;
    assert cs[..0] == [];
    for i := 0 to |cs|
      invariant site.Valid() && site.pages == old(site.pages) && site.sections == old(site.sections)
      invariant site.Snapshot() == Apply(start, ChildSectionWrites(site.pages, site.sections, cs[..i], t))
    {
      ghost var before := site.Snapshot();
      var c := cs[i];
      assert t < c < |site.sections|;
      site.parent := site.parent[c := t];
      BuildPageInSectionMap(site, c);
      ChildStep(site.pages, site.sections, start, t, i, before, site.Snapshot());
    }
    assert cs[..|cs|] == cs;
  }

  /** One round of BuildPageInSectionMap's loop extends the trace by the
      parent write and the child's own trace. */
  lemma ChildStep(pages: seq<Page>, sections: seq<Section>, start: Links, t: nat, i: nat,
                  before: Links, after: Links)
    requires Arena(pages, sections) && t < |sections| && i < |sections[t].children|
    requires before == Apply(start, ChildSectionWrites(pages, sections, sections[t].children[..i], t))
    requires after == Apply(Apply1(before, SetParent(sections[t].children[i], t)),
                            SectionWrites(pages, sections, sections[t].children[i]))
    ensures after == Apply(start, ChildSectionWrites(pages, sections, sections[t].children[..i + 1], t))
  {
    var cs := sections[t].children;
    var c := cs[i];
    var step := [SetParent(c, t)] + SectionWrites(pages, sections, c);
    var prior := ChildSectionWrites(pages, sections, cs[..i], t);
    assert after == Apply(before, step) by {
      ApplyConcat(before, [SetParent(c, t)], SectionWrites(pages, sections, c));
      OneWrite(before, SetParent(c, t));
    }
    assert ChildSectionWrites(pages, sections, cs[..i + 1], t) == prior + step by {
      assert cs[..i + 1] == cs[..i] + [c];
      ChildSectionWritesAppend(pages, sections, cs[..i], t, c);
    }
    ApplyConcat(start, prior, step);
  }

  /** Applying a trace and then a further step is applying the longer trace. */
  lemma TraceGrows(start: Links, own: seq<Write>, prior: seq<Write>, step: seq<Write>, before: Links, after: Links)
    requires before == Apply(start, own + prior) && after == Apply(before, step)
    ensures after == Apply(start, own + (prior + step))
  {
    Assoc(own, prior, step);
    ApplyConcat(start, own + prior, step);
  }

  /** A single write is its trace. */
  lemma OneWrite(l: Links, w: Write)
    ensures Apply(l, [w]) == Apply1(l, w)
  {
    assert [w][1..] == [];
  }

  // -----------------------------------------------------------------------
  // GenerateBreadcrumbs (nav.go:87-110).

  /** One list item of the breadcrumbs: the current page's own section
      unlinked, or a link to a section's page. */
  datatype Crumb = Current(title: string) | Linked(href: string, title: string)

  /** The sections the loop visits for page p: none when p.Section is nil. */
  function Trail(parent: map<nat, nat>, pageSection: map<nat, nat>, p: nat): (r: seq<nat>)
    requires ParentsDescend(parent)
  {
    if p in pageSection then Chain(parent, pageSection[p]) else []
  }

  /** The crumb of a section that has a page. Only p's own section whose
      page is p is unlinked, and only its title falls back to the page
      title; a linked crumb shows the section title as it is. */
  function CrumbOf(pages: seq<Page>, sections: seq<Section>, s: nat, p: nat, home: Option<nat>,
                   dir: string, rel: (string, string) -> string): (r: Crumb)
    requires s < |sections| && sections[s].page.Some? && sections[s].page.value < |pages|
    ensures r.Current? <==> home == Some(s) && sections[s].page == Some(p)
    ensures r.Current? ==>
      r.title == if sections[s].title == "" then pages[sections[s].page.value].title else sections[s].title
    ensures r.Linked? ==>
      r.title == sections[s].title && r.href == RelativeURL(dir, pages[sections[s].page.value].url, rel)
  {
    var q := sections[s].page.value;
    var title := if sections[s].title == "" then pages[q].title else sections[s].title;
    if Some(s) == home && q == p then Current(title)
    else Linked(RelativeURL(dir, pages[q].url, rel), sections[s].title)
  }

  /** An untitled section's crumb shows its page's title only when it is the
      current crumb; as a link it shows the empty section title. */
  lemma UntitledSectionCrumb(pages: seq<Page>, sections: seq<Section>, s: nat, p: nat, home: Option<nat>,
                             dir: string, rel: (string, string) -> string)
    requires s < |sections| && sections[s].page.Some? && sections[s].page.value < |pages|
    requires sections[s].title == ""
    ensures var r := CrumbOf(pages, sections, s, p, home, dir, rel);
      && (home == Some(s) && sections[s].page == Some(p) ==> r == Current(pages[p].title))
      && (!(home == Some(s) && sections[s].page == Some(p)) ==>
            r == Linked(RelativeURL(dir, pages[sections[s].page.value].url, rel), ""))
  {
  }

  /** The crumbs for a run of sections, in the order visited; sections
      without a page give none. */
  function CrumbsOf(pages: seq<Page>, sections: seq<Section>, chain: seq<nat>, p: nat, home: Option<nat>,
                    dir: string, rel: (string, string) -> string): seq<Crumb>
    requires SectionsOrdered(sections, |pages|)
    requires forall i :: 0 <= i < |chain| ==> chain[i] < |sections|
  {
    if chain == [] then []
    else
      (if sections[chain[0]].page.Some? then [CrumbOf(pages, sections, chain[0], p, home, dir, rel)] else []) +
      CrumbsOf(pages, sections, chain[1..], p, home, dir, rel)
  }

  lemma {:induction false} CrumbsOfAppend(pages: seq<Page>, sections: seq<Section>, chain: seq<nat>, s: nat, p: nat,
                                          home: Option<nat>, dir: string, rel: (string, string) -> string)
    requires SectionsOrdered(sections, |pages|) && s < |sections|
    requires forall i :: 0 <= i < |chain| ==> chain[i] < |sections|
    ensures CrumbsOf(pages, sections, chain + [s], p, home, dir, rel) ==
            CrumbsOf(pages, sections, chain, p, home, dir, rel) +
            (if sections[s].page.Some? then [CrumbOf(pages, sections, s, p, home, dir, rel)] else [])
    decreases |chain|
  {
    if chain == [] {
      assert [] + [s] == [s];
      assert [s][1..] == [];
    } else {
      var h := if sections[chain[0]].page.Some? then [CrumbOf(pages, sections, chain[0], p, home, dir, rel)] else [];
      var last := if sections[s].page.Some? then [CrumbOf(pages, sections, s, p, home, dir, rel)] else [];
      assert (chain + [s])[0] == chain[0] && (chain + [s])[1..] == chain[1..] + [s];
      assert CrumbsOf(pages, sections, chain + [s], p, home, dir, rel) ==
             h + CrumbsOf(pages, sections, chain[1..] + [s], p, home, dir, rel);
      CrumbsOfAppend(pages, sections, chain[1..], s, p, home, dir, rel);
      Assoc(h, CrumbsOf(pages, sections, chain[1..], p, home, dir, rel), last);
    }
  }

  function Reverse<T>(s: seq<T>): (r: seq<T>)
    ensures |r| == |s| && forall i :: 0 <= i < |s| ==> r[i] == s[|s| - 1 - i]
  {
    if s == [] then [] else Reverse(s[1..]) + [s[0]]
  }

  /** GenerateBreadcrumbs: walks up from p's section collecting crumbs,
      then reverses them in place, so the outermost section comes first. */
  method GenerateBreadcrumbs(site: SiteTree, currentPath: string, p: nat, rel: (string, string) -> string)
    returns (crumbs: seq<Crumb>)
    requires site.Valid()
    ensures ParentsDescend(site.parent)
    ensures crumbs == Reverse(CrumbsOf(site.pages, site.sections, Trail(site.parent, site.pageSection, p), p,
                                       if p in site.pageSection then Some(site.pageSection[p]) else None,
                                       Dir(currentPath), rel))
  {
    var dir := Dir(currentPath);
    var pages, sections, parent := site.pages, site.sections, site.parent;
    var home: Option<nat> := if p in site.pageSection then Some(site.pageSection[p]) else None;
    ghost var chain := Trail(parent, site.pageSection, p);
    if p in site.pageSection {
      ChainInRange(parent, |sections|, site.pageSection[p]);
    }
    var list: seq<Crumb> := [];
    var cur := home;
    ghost var k := 0;
    assert chain[..0] == [];
    while cur.Some?
      invariant 0 <= k <= |chain|
      invariant cur.Some? <==> k < |chain|
      invariant cur.Some? ==> cur.value == chain[k]
      invariant list == CrumbsOf(pages, sections, chain[..k], p, home, dir, rel)
      decreases |chain| - k
    {
      var s := cur.value;
      CrumbStep(pages, sections, chain, k, p, home, dir, rel);
      if sections[s].page.Some? {
        list := list + [CrumbOf(pages, sections, s, p, home, dir, rel)];
      }
      TrailNext(parent, site.pageSection, p, k);
      cur := if s in parent then Some(parent[s]) else None;
      k := k + 1;
    }
    assert chain[..k] == chain;
    var a := new Crumb[|list|](i requires 0 <= i < |list| => list[i]);
    assert a[..] == list;
    ReverseInPlace(a);
    crumbs := a[..];
  }

  /** One round of GenerateBreadcrumbs's walk adds the crumb of the k-th
      section, if it has a page. */
  lemma CrumbStep(pages: seq<Page>, sections: seq<Section>, chain: seq<nat>, k: nat, p: nat, home: Option<nat>,
                  dir: string, rel: (string, string) -> string)
    requires SectionsOrdered(sections, |pages|) && k < |chain|
    requires forall i :: 0 <= i < |chain| ==> chain[i] < |sections|
    ensures CrumbsOf(pages, sections, chain[..k + 1], p, home, dir, rel) ==
            CrumbsOf(pages, sections, chain[..k], p, home, dir, rel) +
            (if sections[chain[k]].page.Some? then [CrumbOf(pages, sections, chain[k], p, home, dir, rel)] else [])
  {
    assert chain[..k + 1] == chain[..k] + [chain[k]];
    CrumbsOfAppend(pages, sections, chain[..k], chain[k], p, home, dir, rel);
  }

  /** The walk moves from the k-th section of the trail to its parent, and
      stops exactly at the end of the trail. */
  lemma TrailNext(parent: map<nat, nat>, pageSection: map<nat, nat>, p: nat, k: nat)
    requires ParentsDescend(parent) && k < |Trail(parent, pageSection, p)|
    ensures var chain := Trail(parent, pageSection, p);
      (chain[k] in parent <==> k + 1 < |chain|) && (k + 1 < |chain| ==> chain[k + 1] == parent[chain[k]])
  {
  }

  /** The swap loop of GenerateBreadcrumbs: reverses the array in place. */
  method ReverseInPlace<T>(a: array<T>)
    modifies a
    ensures a[..] == Reverse(old(a[..]))
  {
    ghost var orig := a[..];
    var i, j := 0, a.Length - 1;
    while i < j
      invariant 0 <= i && i + j == a.Length - 1 && i <= j + 1
      invariant forall m :: 0 <= m < i ==> a[m] == orig[a.Length - 1 - m]
      invariant forall m :: j < m < a.Length ==> a[m] == orig[a.Length - 1 - m]
      invariant forall m :: i <= m <= j ==> a[m] == orig[m]
    {
      a[i], a[j] := a[j], a[i];
      i, j := i + 1, j - 1;
    }
  }

  /** Only the crumb of p's own section can be unlinked, and it is
      unlinked exactly when p is that section's page. */
  lemma {:induction false} CrumbsOnlyHomeCurrent(pages: seq<Page>, sections: seq<Section>, parent: map<nat, nat>,
                                                 h: nat, p: nat, dir: string, rel: (string, string) -> string)
    requires SectionsOrdered(sections, |pages|) && ParentsDescend(parent) && h < |sections|
    requires forall x :: x in parent ==> x < |sections|
    ensures var chain := Chain(parent, h);
      (forall i :: 0 <= i < |chain| ==> chain[i] < |sections|) &&
      var r := CrumbsOf(pages, sections, chain, p, Some(h), dir, rel);
      && (forall i :: 0 < i < |r| ==> r[i].Linked?)
      && (r != [] && r[0].Current? <==> sections[h].page == Some(p))
  {
    var chain := Chain(parent, h);
    assert forall i :: 0 <= i < |chain| ==> chain[i] < |sections| by {
      ChainInRange(parent, |sections|, h);
    }
    var rest := CrumbsOf(pages, sections, chain[1..], p, Some(h), dir, rel);
    var head := if sections[h].page.Some? then [CrumbOf(pages, sections, h, p, Some(h), dir, rel)] else [];
    assert CrumbsOf(pages, sections, chain, p, Some(h), dir, rel) == head + rest;
    AboveHomeLinked(pages, sections, chain, h, p, dir, rel);
    LinkedAfterHead(head, rest);
    if sections[h].page.Some? {
      assert (head + rest)[0] == CrumbOf(pages, sections, h, p, Some(h), dir, rel);
    }
  }

  /** The sections above h on its chain give linked crumbs only. */
  lemma AboveHomeLinked(pages: seq<Page>, sections: seq<Section>, chain: seq<nat>,
                        h: nat, p: nat, dir: string, rel: (string, string) -> string)
    requires SectionsOrdered(sections, |pages|) && h < |sections| && chain != []
    requires forall i :: 0 < i < |chain| ==> chain[i] < h
    ensures forall i :: 0 <= i < |CrumbsOf(pages, sections, chain[1..], p, Some(h), dir, rel)| ==>
      CrumbsOf(pages, sections, chain[1..], p, Some(h), dir, rel)[i].Linked?
  {
    var above := chain[1..];
    forall i | 0 <= i < |above|
      ensures above[i] < |sections| && above[i] != h
    {
      assert above[i] == chain[i + 1];
    }
    NoOtherCurrent(pages, sections, above, p, h, dir, rel);
  }

  /** At most one crumb in front of linked ones: everything after the
      first is linked, and the first is linked too when it comes from
      the rest. */
  lemma LinkedAfterHead(head: seq<Crumb>, rest: seq<Crumb>)
    requires |head| <= 1 && forall i :: 0 <= i < |rest| ==> rest[i].Linked?
    ensures forall i :: 0 < i < |head + rest| ==> (head + rest)[i].Linked?
    ensures head == [] && head + rest != [] ==> (head + rest)[0].Linked?
  {
    forall i | 0 < i < |head + rest|
      ensures (head + rest)[i].Linked?
    {
      assert (head + rest)[i] == rest[i - |head|];
    }
    if head == [] && head + rest != [] {
      assert (head + rest)[0] == rest[0];
    }
  }

  lemma ChainInRange(parent: map<nat, nat>, n: nat, h: nat)
    requires ParentsDescend(parent) && h < n
    ensures forall i :: 0 <= i < |Chain(parent, h)| ==> Chain(parent, h)[i] < n
  {
  }

  /** Sections other than h give linked crumbs only. */
  lemma {:induction false} NoOtherCurrent(pages: seq<Page>, sections: seq<Section>, chain: seq<nat>, p: nat, h: nat,
                                          dir: string, rel: (string, string) -> string)
    requires SectionsOrdered(sections, |pages|)
    requires forall i :: 0 <= i < |chain| ==> chain[i] < |sections| && chain[i] != h
    ensures forall i :: 0 <= i < |CrumbsOf(pages, sections, chain, p, Some(h), dir, rel)| ==>
      CrumbsOf(pages, sections, chain, p, Some(h), dir, rel)[i].Linked?
    decreases |chain|
  {
    if chain != [] {
      var rest := CrumbsOf(pages, sections, chain[1..], p, Some(h), dir, rel);
      var head := if sections[chain[0]].page.Some? then [CrumbOf(pages, sections, chain[0], p, Some(h), dir, rel)] else [];
      NoOtherCurrent(pages, sections, chain[1..], p, h, dir, rel);
      var r := head + rest;
      assert CrumbsOf(pages, sections, chain, p, Some(h), dir, rel) == r;
      forall i | 0 <= i < |r|
        ensures r[i].Linked?
      {
        if i >= |head| {
          assert r[i] == rest[i - |head|];
        } else {
          assert r[i] == CrumbOf(pages, sections, chain[0], p, Some(h), dir, rel);
        }
      }
    }
  }

  /** The sections of a run that have a page, in order. */
  function WithPage(sections: seq<Section>, chain: seq<nat>): (r: seq<nat>)
    requires forall i :: 0 <= i < |chain| ==> chain[i] < |sections|
    ensures forall i :: 0 <= i < |r| ==> r[i] < |sections| && sections[r[i]].page.Some?
  {
    if chain == [] then []
    else (if sections[chain[0]].page.Some? then [chain[0]] else []) + WithPage(sections, chain[1..])
  }

  /** There is one crumb per section of the run that has a page, and it is
      that section's crumb. */
  lemma {:induction false} CrumbsFollowSections(pages: seq<Page>, sections: seq<Section>, chain: seq<nat>, p: nat,
                                                home: Option<nat>, dir: string, rel: (string, string) -> string)
    requires SectionsOrdered(sections, |pages|)
    requires forall i :: 0 <= i < |chain| ==> chain[i] < |sections|
    ensures var r := CrumbsOf(pages, sections, chain, p, home, dir, rel);
      var w := WithPage(sections, chain);
      |r| == |w| && forall i :: 0 <= i < |w| ==> r[i] == CrumbOf(pages, sections, w[i], p, home, dir, rel)
    decreases |chain|
  {
    if chain != [] {
      var rest := CrumbsOf(pages, sections, chain[1..], p, home, dir, rel);
      var w := WithPage(sections, chain[1..]);
      CrumbsFollowSections(pages, sections, chain[1..], p, home, dir, rel);
      if sections[chain[0]].page.Some? {
        var c := CrumbOf(pages, sections, chain[0], p, home, dir, rel);
        assert CrumbsOf(pages, sections, chain, p, home, dir, rel) == [c] + rest;
        assert WithPage(sections, chain) == [chain[0]] + w;
      } else {
        assert CrumbsOf(pages, sections, chain, p, home, dir, rel) == [] + rest == rest;
        assert WithPage(sections, chain) == [] + w == w;
      }
    }
  }

  /** The facts the breadcrumb lemmas need about the site. */
  predicate Linkable(pages: seq<Page>, sections: seq<Section>, parent: map<nat, nat>, pageSection: map<nat, nat>) {
    && SectionsOrdered(sections, |pages|) && ParentsDescend(parent)
    && (forall x :: x in parent ==> x < |sections|)
    && (forall x :: x in pageSection ==> pageSection[x] < |sections|)
  }

  lemma TrailInRange(pages: seq<Page>, sections: seq<Section>, parent: map<nat, nat>, pageSection: map<nat, nat>, p: nat)
    requires Linkable(pages, sections, parent, pageSection)
    ensures forall i :: 0 <= i < |Trail(parent, pageSection, p)| ==> Trail(parent, pageSection, p)[i] < |sections|
  {
    if p in pageSection {
      ChainInRange(parent, |sections|, pageSection[p]);
    }
  }

  /** The breadcrumbs as returned are the crumbs of the page-bearing
      sections from the outermost one down to p's section. */
  lemma BreadcrumbsOrder(pages: seq<Page>, sections: seq<Section>, parent: map<nat, nat>, pageSection: map<nat, nat>,
                         p: nat, dir: string, rel: (string, string) -> string)
    requires Linkable(pages, sections, parent, pageSection)
    ensures var chain := Trail(parent, pageSection, p);
      (forall i :: 0 <= i < |chain| ==> chain[i] < |sections|) &&
      var home := if p in pageSection then Some(pageSection[p]) else None;
      var crumbs := Reverse(CrumbsOf(pages, sections, chain, p, home, dir, rel));
      var w := WithPage(sections, chain);
      && |crumbs| == |w|
      && (forall i :: 0 <= i < |w| ==> crumbs[i] == CrumbOf(pages, sections, w[|w| - 1 - i], p, home, dir, rel))
  {
    var chain := Trail(parent, pageSection, p);
    TrailInRange(pages, sections, parent, pageSection, p);
    var home := if p in pageSection then Some(pageSection[p]) else None;
    CrumbsFollowSections(pages, sections, chain, p, home, dir, rel);
  }

  /** Only the last (innermost) crumb can be unlinked, and it is exactly
      when p is the page of its own section. */
  lemma BreadcrumbsCurrentLast(pages: seq<Page>, sections: seq<Section>, parent: map<nat, nat>, pageSection: map<nat, nat>,
                               p: nat, dir: string, rel: (string, string) -> string)
    requires Linkable(pages, sections, parent, pageSection)
    ensures var chain := Trail(parent, pageSection, p);
      (forall i :: 0 <= i < |chain| ==> chain[i] < |sections|) &&
      var home := if p in pageSection then Some(pageSection[p]) else None;
      var crumbs := Reverse(CrumbsOf(pages, sections, chain, p, home, dir, rel));
      && (forall i :: 0 <= i < |crumbs| - 1 ==> crumbs[i].Linked?)
      && (crumbs != [] && crumbs[|crumbs| - 1].Current? <==>
            p in pageSection && sections[pageSection[p]].page == Some(p))
  {
    TrailInRange(pages, sections, parent, pageSection, p);
    if p in pageSection {
      CrumbsOnlyHomeCurrent(pages, sections, parent, pageSection[p], p, dir, rel);
    }
  }

  // -----------------------------------------------------------------------
  // GenerateSectionNav, appendChildPagesNav and generateChildSectionsNav
  // (nav.go:112-160).

  /** One line of the rendered navigation list. `href` is None for an
      entry rendered without a link. */
  datatype NavLine =
    | ListOpen(listClass: string)
    | SectionHome(title: string, href: Option<string>)
    | Entry(page: nat, title: string, href: Option<string>)
    | NestedOpen
    | NestedClose
    | ChildSection(target: string, title: string)
    | ListClose

  /** The HTMLBuilder the lines are appended to. */
  class NavBuilder {
    var lines: seq<NavLine>

    constructor ()
      ensures lines == []
    {
      lines := [];
    }

    method Add(line: NavLine)
      modifies this
      ensures lines == old(lines) + [line]
    {
      lines := lines + [line];
    }

    /** WriteHTML of an already rendered fragment. */
    method AddAll(more: seq<NavLine>)
      modifies this
      ensures lines == old(lines) + more
    {
      lines := lines + more;
    }
  }

  /** What the navigation is rendered for. */
  datatype NavContext = NavContext(currentPage: nat, linkEverything: bool, currentPath: string,
                                   rel: (string, string) -> string)

  /** A page is shown without a link when it is the current page (unless
      everything is to be linked) or its URL is the current path. */
  predicate Unlinked(ctx: NavContext, q: nat, url: string) {
    (q == ctx.currentPage && !ctx.linkEverything) || url == ctx.currentPath
  }

  function LinkTo(ctx: NavContext, q: nat, url: string): (r: Option<string>)
    ensures r.None? <==> Unlinked(ctx, q, url)
  {
    if Unlinked(ctx, q, url) then None else Some(RelativeURL(Dir(ctx.currentPath), url, ctx.rel))
  }

  /** The lines for page q: its entry, then its children in a nested list
      when it has any. */
  function PageNav(pages: seq<Page>, q: nat, ctx: NavContext): seq<NavLine>
    requires PagesOrdered(pages) && q < |pages|
    decreases |pages| - q, 1, 0
  {
    [Entry(q, pages[q].title, LinkTo(ctx, q, pages[q].url))] +
    (if pages[q].children == [] then []
     else [NestedOpen] + PageListNav(pages, pages[q].children, q, ctx) + [NestedClose])
  }

  function PageListNav(pages: seq<Page>, cs: seq<nat>, lo: int, ctx: NavContext): seq<NavLine>
    requires PagesOrdered(pages) && lo < |pages|
    requires forall i :: 0 <= i < |cs| ==> lo < cs[i] < |pages|
    decreases |pages| - lo, 0, |cs|
  {
    if cs == [] then [] else PageNav(pages, cs[0], ctx) + PageListNav(pages, cs[1..], lo, ctx)
  }

  lemma {:induction false} PageListNavAppend(pages: seq<Page>, cs: seq<nat>, lo: int, c: nat, ctx: NavContext)
    requires PagesOrdered(pages) && lo < |pages| && lo < c < |pages|
    requires forall i :: 0 <= i < |cs| ==> lo < cs[i] < |pages|
    ensures PageListNav(pages, cs + [c], lo, ctx) == PageListNav(pages, cs, lo, ctx) + PageNav(pages, c, ctx)
    decreases |cs|
  {
    if cs == [] {
      assert [] + [c] == [c];
    } else {
      var h := PageNav(pages, cs[0], ctx);
      assert (cs + [c])[0] == cs[0] && (cs + [c])[1..] == cs[1..] + [c];
      assert PageListNav(pages, cs + [c], lo, ctx) == h + PageListNav(pages, cs[1..] + [c], lo, ctx);
      PageListNavAppend(pages, cs[1..], lo, c, ctx);
      Assoc(h, PageListNav(pages, cs[1..], lo, ctx), PageNav(pages, c, ctx));
    }
  }

  /** appendChildPagesNav: appends the lines for each page of cs in turn. */
  method AppendChildPagesNav(pages: seq<Page>, nb: NavBuilder, cs: seq<nat>, ghost lo: int, ctx: NavContext)
    requires PagesOrdered(pages) && lo < |pages|
    requires forall i :: 0 <= i < |cs| ==> lo < cs[i] < |pages|
    modifies nb
    ensures nb.lines == old(nb.lines) + PageListNav(pages, cs, lo, ctx)
    decreases |pages| - lo, 0
  {
    assert cs[..0] == [];
    for i := 0 to |cs|
      invariant nb.lines == old(nb.lines) + PageListNav(pages, cs[..i], lo, ctx)
    {
      AppendPageNav(pages, nb, cs[i], ctx);
      PageListNavAppend(pages, cs[..i], lo, cs[i], ctx);
      assert cs[..i + 1] == cs[..i] + [cs[i]];
    }
    assert cs[..|cs|] == cs;
  }

  /** The body of appendChildPagesNav's loop for one page q. */
  method AppendPageNav(pages: seq<Page>, nb: NavBuilder, q: nat, ctx: NavContext)
    requires PagesOrdered(pages) && q < |pages|
    modifies nb
    ensures nb.lines == old(nb.lines) + PageNav(pages, q, ctx)
    decreases |pages| - q, 1
  {
    var dir := Dir(ctx.currentPath);
    if (q == ctx.currentPage && !ctx.linkEverything) || pages[q].url == ctx.currentPath {
      nb.Add(Entry(q, pages[q].title, None));
    } else {
      nb.Add(Entry(q, pages[q].title, Some(RelativeURL(dir, pages[q].url, ctx.rel))));
    }
    ghost var entry := [Entry(q, pages[q].title, LinkTo(ctx, q, pages[q].url))];
    assert nb.lines == old(nb.lines) + entry;
    if |pages[q].children| > 0 {
      nb.Add(NestedOpen);
      AppendChildPagesNav(pages, nb, pages[q].children, q, ctx);
      nb.Add(NestedClose);
      ghost var inner := PageListNav(pages, pages[q].children, q, ctx);
      assert nb.lines == old(nb.lines) + entry + [NestedOpen] + inner + [NestedClose];
      Regroup(old(nb.lines), entry, [NestedOpen], inner, [NestedClose]);
    } else {
      assert entry + [] == entry;
    }
  }

  lemma Regroup<T>(a: seq<T>, b: seq<T>, c: seq<T>, d: seq<T>, e: seq<T>)
    ensures a + b + c + d + e == a + (b + (c + d + e))
  {
  }

  /** The lines of generateChildSectionsNav: a link to each child section's
      page, titled with the section title. */
  function ChildSectionsNav(pages: seq<Page>, sections: seq<Section>, cs: seq<nat>, dir: string,
                            rel: (string, string) -> string): (r: seq<NavLine>)
    requires SectionsOrdered(sections, |pages|)
    requires forall i :: 0 <= i < |cs| ==> cs[i] < |sections| && sections[cs[i]].page.Some?
    ensures |r| == |cs|
    ensures forall i :: 0 <= i < |cs| ==>
      r[i] == ChildSection(RelativeURL(dir, pages[sections[cs[i]].page.value].url, rel), sections[cs[i]].title)
  {
    if cs == [] then []
    else
      [ChildSection(RelativeURL(dir, pages[sections[cs[0]].page.value].url, rel), sections[cs[0]].title)] +
      ChildSectionsNav(pages, sections, cs[1..], dir, rel)
  }

  /** What GenerateSectionNav may dereference: the page's section, that
      section's page and, unless the class is "sitemap", every child
      section's page. */
  predicate CanNavigate(pages: seq<Page>, sections: seq<Section>, pageSection: map<nat, nat>,
                        currentPage: nat, listClass: string)
  {
    && Arena(pages, sections)
    && currentPage in pageSection && pageSection[currentPage] < |sections|
    && sections[pageSection[currentPage]].page.Some?
    && (listClass != "sitemap" ==>
          var cs := sections[pageSection[currentPage]].children;
          forall i :: 0 <= i < |cs| ==> sections[cs[i]].page.Some?)
  }

  /** The whole list GenerateSectionNav renders. */
  function SectionNav(pages: seq<Page>, sections: seq<Section>, pageSection: map<nat, nat>,
                      listClass: string, ctx: NavContext): seq<NavLine>
    requires CanNavigate(pages, sections, pageSection, ctx.currentPage, listClass)
  {
    var s := pageSection[ctx.currentPage];
    var p := sections[s].page.value;
    [ListOpen(listClass), SectionHome(pages[p].title, LinkTo(ctx, p, pages[p].url))] +
    PageListNav(pages, pages[p].children, p, ctx) +
    (if listClass != "sitemap" then ChildSectionsNav(pages, sections, sections[s].children, Dir(ctx.currentPath), ctx.rel)
     else []) +
    [ListClose]
  }

  /** GenerateSectionNav: the list for the section of currentPage. */
  method GenerateSectionNav(site: SiteTree, currentPage: nat, linkEverything: bool, listClass: string,
                            currentPath: string, rel: (string, string) -> string)
    returns (lines: seq<NavLine>)
    requires site.Valid()
    requires CanNavigate(site.pages, site.sections, site.pageSection, currentPage, listClass)
    ensures lines == SectionNav(site.pages, site.sections, site.pageSection, listClass,
                                NavContext(currentPage, linkEverything, currentPath, rel))
  {
    var ctx := NavContext(currentPage, linkEverything, currentPath, rel);
    var dir := Dir(currentPath);
    var pages := site.pages;
    var s := site.pageSection[currentPage];
    var p := site.sections[s].page.value;
    var nb := new NavBuilder();
    nb.Add(ListOpen(listClass));
    if (currentPage == p && !linkEverything) || pages[p].url == currentPath {
      nb.Add(SectionHome(pages[p].title, None));
    } else {
      nb.Add(SectionHome(pages[p].title, Some(RelativeURL(dir, pages[p].url, rel))));
    }
    ghost var head := [ListOpen(listClass), SectionHome(pages[p].title, LinkTo(ctx, p, pages[p].url))];
    assert nb.lines == head;
    AppendChildPagesNav(pages, nb, pages[p].children, p, ctx);
    ghost var body := head + PageListNav(pages, pages[p].children, p, ctx);
    assert nb.lines == body;
    if listClass != "sitemap" {
      var childLines := GenerateChildSectionsNav(site, currentPath, s, rel);
      nb.AddAll(childLines);
    }
    nb.Add(ListClose);
    lines := nb.lines;
  }

  /** generateChildSectionsNav for section s (currentPage.Section). */
  method GenerateChildSectionsNav(site: SiteTree, currentPath: string, s: nat, rel: (string, string) -> string)
    returns (lines: seq<NavLine>)
    requires site.Valid() && s < |site.sections|
    requires forall i :: 0 <= i < |site.sections[s].children| ==> site.sections[site.sections[s].children[i]].page.Some?
    ensures lines == ChildSectionsNav(site.pages, site.sections, site.sections[s].children, Dir(currentPath), rel)
  {
    var dir := Dir(currentPath);
    var cs := site.sections[s].children;
    lines := [];
    for i := 0 to |cs|
      invariant lines == ChildSectionsNav(site.pages, site.sections, cs[..i], dir, rel)
    {
      var c := cs[i];
      lines := lines + [ChildSection(RelativeURL(dir, site.pages[site.sections[c].page.value].url, rel), site.sections[c].title)];
      ChildSectionsNavAppend(site.pages, site.sections, cs[..i], c, dir, rel);
      assert cs[..i + 1] == cs[..i] + [c];
    }
    assert cs[..|cs|] == cs;
  }

  lemma ChildSectionsNavAppend(pages: seq<Page>, sections: seq<Section>, cs: seq<nat>, c: nat, dir: string,
                               rel: (string, string) -> string)
    requires SectionsOrdered(sections, |pages|)
    requires forall i :: 0 <= i < |cs| ==> cs[i] < |sections| && sections[cs[i]].page.Some?
    requires c < |sections| && sections[c].page.Some?
    ensures ChildSectionsNav(pages, sections, cs + [c], dir, rel) ==
            ChildSectionsNav(pages, sections, cs, dir, rel) + ChildSectionsNav(pages, sections, [c], dir, rel)
  {
  }

  // -----------------------------------------------------------------------
  // What the navigation list says.

  /** The pages of the entry lines, in order. */
  function EntryPages(lines: seq<NavLine>): seq<nat> {
    if lines == [] then []
    else (if lines[0].Entry? then [lines[0].page] else []) + EntryPages(lines[1..])
  }

  /** The child-section lines, in order. */
  function ChildSectionLines(lines: seq<NavLine>): seq<NavLine> {
    if lines == [] then []
    else (if lines[0].ChildSection? then [lines[0]] else []) + ChildSectionLines(lines[1..])
  }

  lemma FiltersConcat(a: seq<NavLine>, b: seq<NavLine>)
    ensures EntryPages(a + b) == EntryPages(a) + EntryPages(b)
    ensures ChildSectionLines(a + b) == ChildSectionLines(a) + ChildSectionLines(b)
    ensures Depth(a + b) == Depth(a) + Depth(b)
  {
    EntryPagesConcat(a, b);
    ChildSectionLinesConcat(a, b);
    DepthConcat(a, b);
  }

  lemma {:induction false} EntryPagesConcat(a: seq<NavLine>, b: seq<NavLine>)
    ensures EntryPages(a + b) == EntryPages(a) + EntryPages(b)
    decreases |a|
  {
    if a == [] {
      assert a + b == b;
    } else {
      var h := if a[0].Entry? then [a[0].page] else [];
      assert (a + b)[0] == a[0] && (a + b)[1..] == a[1..] + b;
      assert EntryPages(a + b) == h + EntryPages(a[1..] + b);
      EntryPagesConcat(a[1..], b);
      Assoc(h, EntryPages(a[1..]), EntryPages(b));
    }
  }

  lemma {:induction false} ChildSectionLinesConcat(a: seq<NavLine>, b: seq<NavLine>)
    ensures ChildSectionLines(a + b) == ChildSectionLines(a) + ChildSectionLines(b)
    decreases |a|
  {
    if a == [] {
      assert a + b == b;
    } else {
      var h := if a[0].ChildSection? then [a[0]] else [];
      assert (a + b)[0] == a[0] && (a + b)[1..] == a[1..] + b;
      assert ChildSectionLines(a + b) == h + ChildSectionLines(a[1..] + b);
      ChildSectionLinesConcat(a[1..], b);
      Assoc(h, ChildSectionLines(a[1..]), ChildSectionLines(b));
    }
  }

  lemma {:induction false} DepthConcat(a: seq<NavLine>, b: seq<NavLine>)
    ensures Depth(a + b) == Depth(a) + Depth(b)
    decreases |a|
  {
    if a == [] {
      assert a + b == b;
    } else {
      assert (a + b)[1..] == a[1..] + b;
      DepthConcat(a[1..], b);
    }
  }

  /** The nesting depth a run of lines leaves behind. */
  function Depth(lines: seq<NavLine>): int {
    if lines == [] then 0
    else (match lines[0] case NestedOpen => 1 case NestedClose => -1 case _ => 0) + Depth(lines[1..])
  }

  /** Every nested list opened is closed, and never closed before it is
      opened. */
  predicate Balanced(lines: seq<NavLine>) {
    Depth(lines) == 0 && forall k :: 0 <= k <= |lines| ==> Depth(lines[..k]) >= 0
  }

  lemma BalancedConcat(a: seq<NavLine>, b: seq<NavLine>)
    requires Balanced(a) && Balanced(b)
    ensures Balanced(a + b)
  {
    FiltersConcat(a, b);
    forall k | 0 <= k <= |a + b|
      ensures Depth((a + b)[..k]) >= 0
    {
      if k <= |a| {
        assert (a + b)[..k] == a[..k];
      } else {
        assert (a + b)[..k] == a + b[..k - |a|];
        FiltersConcat(a, b[..k - |a|]);
      }
    }
  }

  lemma BalancedWrap(a: seq<NavLine>)
    requires Balanced(a)
    ensures Balanced([NestedOpen] + a + [NestedClose])
  {
    var w := [NestedOpen] + a + [NestedClose];
    FiltersConcat([NestedOpen], a);
    FiltersConcat([NestedOpen] + a, [NestedClose]);
    forall k | 0 <= k <= |w|
      ensures Depth(w[..k]) >= 0
    {
      if k == |w| {
        assert w[..k] == w;
      } else if 0 < k {
        assert w[..k] == [NestedOpen] + a[..k - 1];
        FiltersConcat([NestedOpen], a[..k - 1]);
      }
    }
  }

  /** Lines that are neither entries nor nesting marks. */
  predicate Plain(line: NavLine) {
    !line.Entry? && line != NestedOpen && line != NestedClose
  }

  lemma {:induction false} PlainFacts(pages: seq<Page>, lines: seq<NavLine>)
    requires forall i :: 0 <= i < |lines| ==> Plain(lines[i])
    ensures Balanced(lines) && EntryPages(lines) == [] && NestsFollowEntries(pages, lines)
    decreases |lines|
  {
    if lines != [] {
      PlainFacts(pages, lines[1..]);
      forall k | 0 <= k <= |lines|
        ensures Depth(lines[..k]) >= 0
      {
        PlainDepth(lines[..k]);
      }
      PlainDepth(lines);
    }
  }

  lemma {:induction false} PlainEntries(lines: seq<NavLine>)
    requires forall i :: 0 <= i < |lines| ==> Plain(lines[i])
    ensures EntryPages(lines) == []
    decreases |lines|
  {
    if lines != [] {
      PlainEntries(lines[1..]);
    }
  }

  lemma {:induction false} PlainDepth(lines: seq<NavLine>)
    requires forall i :: 0 <= i < |lines| ==> Plain(lines[i])
    ensures Depth(lines) == 0
    decreases |lines|
  {
    if lines != [] {
      PlainDepth(lines[1..]);
    }
  }

  /** An entry for a page that has child pages. */
  predicate OpensNest(pages: seq<Page>, line: NavLine) {
    line.Entry? && line.page < |pages| && pages[line.page].children != []
  }

  /** A nested list is opened exactly right after the entry of a page with
      children. */
  predicate NestsFollowEntries(pages: seq<Page>, lines: seq<NavLine>) {
    && (lines != [] ==> lines[0] != NestedOpen && !OpensNest(pages, lines[|lines| - 1]))
    && (forall i :: 0 < i < |lines| ==> (lines[i] == NestedOpen <==> OpensNest(pages, lines[i - 1])))
  }
  lemma NestsConcat(pages: seq<Page>, a: seq<NavLine>, b: seq<NavLine>)
    requires NestsFollowEntries(pages, a) && NestsFollowEntries(pages, b)
    ensures NestsFollowEntries(pages, a + b)
  {
    if a == [] {
      assert a + b == b;
    } else if b == [] {
      assert a + b == a;
    } else {
      var r := a + b;
      forall i | 0 < i < |r|
        ensures r[i] == NestedOpen <==> OpensNest(pages, r[i - 1])
      {
        if i < |a| {
          assert r[i] == a[i] && r[i - 1] == a[i - 1];
        } else if i == |a| {
          assert r[i] == b[0] && r[i - 1] == a[|a| - 1];
        } else {
          assert r[i] == b[i - |a|] && r[i - 1] == b[i - |a| - 1];
        }
      }
    }
  }

  /** An entry with children followed by its nested list. */
  lemma NestWrap(pages: seq<Page>, e: NavLine, inner: seq<NavLine>)
    requires OpensNest(pages, e) && inner != [] && NestsFollowEntries(pages, inner)
    ensures NestsFollowEntries(pages, [e] + ([NestedOpen] + inner + [NestedClose]))
  {
    var r := [e] + ([NestedOpen] + inner + [NestedClose]);
    forall i | 0 < i < |r|
      ensures r[i] == NestedOpen <==> OpensNest(pages, r[i - 1])
    {
      if i == 1 {
      } else if i == 2 {
        assert r[i] == inner[0];
      } else if i < |r| - 1 {
        assert r[i] == inner[i - 2] && r[i - 1] == inner[i - 3];
      } else {
        assert r[i - 1] == inner[|inner| - 1];
      }
    }
  }

  /** An entry line names a page of the arena, carries that page's title,
      and has a link exactly when the page is not to be shown unlinked. */
  predicate EntryOk(pages: seq<Page>, ctx: NavContext, line: NavLine) {
    line.Entry? ==>
      && line.page < |pages|
      && line.title == pages[line.page].title
      && line.href == LinkTo(ctx, line.page, pages[line.page].url)
  }

  /** The lines appendChildPagesNav writes: entries and nesting marks. */
  predicate PageLine(pages: seq<Page>, ctx: NavContext, line: NavLine) {
    (line.Entry? || line == NestedOpen || line == NestedClose) && EntryOk(pages, ctx, line)
  }

  lemma {:induction false} PageNavEntries(pages: seq<Page>, q: nat, ctx: NavContext)
    requires PagesOrdered(pages) && q < |pages|
    ensures EntryPages(PageNav(pages, q, ctx)) == Preorder(pages, q)
    decreases |pages| - q, 1, 0
  {
    var e := [Entry(q, pages[q].title, LinkTo(ctx, q, pages[q].url))];
    if pages[q].children == [] {
      assert EntryPages(e) == [q] + EntryPages([]);
    } else {
      var inner := PageListNav(pages, pages[q].children, q, ctx);
      PageListNavEntries(pages, pages[q].children, q, ctx);
      assert EntryPages(e) == [q] + EntryPages([]);
      WrapEntries(e, inner);
    }
  }

  /** The nesting marks around a run add no entries. */
  lemma WrapEntries(e: seq<NavLine>, inner: seq<NavLine>)
    ensures EntryPages(e + ([NestedOpen] + inner + [NestedClose])) == EntryPages(e) + EntryPages(inner)
  {
    FiltersConcat(e, [NestedOpen] + inner + [NestedClose]);
    FiltersConcat([NestedOpen] + inner, [NestedClose]);
    FiltersConcat([NestedOpen], inner);
    assert EntryPages([NestedOpen]) == [] + EntryPages([]);
    assert EntryPages([NestedClose]) == [] + EntryPages([]);
    assert [] + EntryPages(inner) + [] == EntryPages(inner);
  }

  lemma {:induction false} PageListNavEntries(pages: seq<Page>, cs: seq<nat>, lo: int, ctx: NavContext)
    requires PagesOrdered(pages) && lo < |pages|
    requires forall i :: 0 <= i < |cs| ==> lo < cs[i] < |pages|
    ensures EntryPages(PageListNav(pages, cs, lo, ctx)) == PreorderList(pages, cs, lo)
    decreases |pages| - lo, 0, |cs|
  {
    if cs != [] {
      PageNavEntries(pages, cs[0], ctx);
      PageListNavEntries(pages, cs[1..], lo, ctx);
      FiltersConcat(PageNav(pages, cs[0], ctx), PageListNav(pages, cs[1..], lo, ctx));
    }
  }

  lemma {:induction false} PageNavLines(pages: seq<Page>, q: nat, ctx: NavContext)
    requires PagesOrdered(pages) && q < |pages|
    ensures forall i :: 0 <= i < |PageNav(pages, q, ctx)| ==> PageLine(pages, ctx, PageNav(pages, q, ctx)[i])
    decreases |pages| - q, 1, 0
  {
    if pages[q].children != [] {
      PageListNavLines(pages, pages[q].children, q, ctx);
    }
  }

  lemma {:induction false} PageListNavLines(pages: seq<Page>, cs: seq<nat>, lo: int, ctx: NavContext)
    requires PagesOrdered(pages) && lo < |pages|
    requires forall i :: 0 <= i < |cs| ==> lo < cs[i] < |pages|
    ensures forall i :: 0 <= i < |PageListNav(pages, cs, lo, ctx)| ==>
      PageLine(pages, ctx, PageListNav(pages, cs, lo, ctx)[i])
    decreases |pages| - lo, 0, |cs|
  {
    if cs != [] {
      PageNavLines(pages, cs[0], ctx);
      PageListNavLines(pages, cs[1..], lo, ctx);
    }
  }

  lemma {:induction false} PageNavBalanced(pages: seq<Page>, q: nat, ctx: NavContext)
    requires PagesOrdered(pages) && q < |pages|
    ensures Balanced(PageNav(pages, q, ctx))
    decreases |pages| - q, 1, 0
  {
    var e := [Entry(q, pages[q].title, LinkTo(ctx, q, pages[q].url))];
    PlainDepth([]);
    assert Depth(e) == 0 + Depth([]);
    assert e[..0] == [] && e[..1] == e;
    if pages[q].children != [] {
      var inner := PageListNav(pages, pages[q].children, q, ctx);
      PageListNavBalanced(pages, pages[q].children, q, ctx);
      BalancedWrap(inner);
      BalancedConcat(e, [NestedOpen] + inner + [NestedClose]);
    }
  }

  lemma {:induction false} PageListNavBalanced(pages: seq<Page>, cs: seq<nat>, lo: int, ctx: NavContext)
    requires PagesOrdered(pages) && lo < |pages|
    requires forall i :: 0 <= i < |cs| ==> lo < cs[i] < |pages|
    ensures Balanced(PageListNav(pages, cs, lo, ctx))
    decreases |pages| - lo, 0, |cs|
  {
    if cs == [] {
      var none: seq<NavLine> := [];
      PlainDepth(none);
      assert none[..0] == none;
    } else {
      PageNavBalanced(pages, cs[0], ctx);
      PageListNavBalanced(pages, cs[1..], lo, ctx);
      BalancedConcat(PageNav(pages, cs[0], ctx), PageListNav(pages, cs[1..], lo, ctx));
    }
  }

  lemma {:induction false} PageNavNests(pages: seq<Page>, q: nat, ctx: NavContext)
    requires PagesOrdered(pages) && q < |pages|
    ensures NestsFollowEntries(pages, PageNav(pages, q, ctx)) && PageNav(pages, q, ctx)[0].Entry?
    decreases |pages| - q, 1, 0
  {
    var e := Entry(q, pages[q].title, LinkTo(ctx, q, pages[q].url));
    if pages[q].children == [] {
      assert PageNav(pages, q, ctx) == [e];
    } else {
      var inner := PageListNav(pages, pages[q].children, q, ctx);
      PageListNavNests(pages, pages[q].children, q, ctx);
      NestWrap(pages, e, inner);
    }
  }

  lemma {:induction false} PageListNavNests(pages: seq<Page>, cs: seq<nat>, lo: int, ctx: NavContext)
    requires PagesOrdered(pages) && lo < |pages|
    requires forall i :: 0 <= i < |cs| ==> lo < cs[i] < |pages|
    ensures NestsFollowEntries(pages, PageListNav(pages, cs, lo, ctx))
    ensures cs != [] ==> PageListNav(pages, cs, lo, ctx) != [] && PageListNav(pages, cs, lo, ctx)[0].Entry?
    decreases |pages| - lo, 0, |cs|
  {
    if cs != [] {
      PageNavNests(pages, cs[0], ctx);
      PageListNavNests(pages, cs[1..], lo, ctx);
      NestsConcat(pages, PageNav(pages, cs[0], ctx), PageListNav(pages, cs[1..], lo, ctx));
    }
  }

  lemma ChildSectionsPlain(pages: seq<Page>, sections: seq<Section>, cs: seq<nat>, dir: string,
                           rel: (string, string) -> string)
    requires SectionsOrdered(sections, |pages|)
    requires forall i :: 0 <= i < |cs| ==> cs[i] < |sections| && sections[cs[i]].page.Some?
    ensures var r := ChildSectionsNav(pages, sections, cs, dir, rel);
      (forall i :: 0 <= i < |r| ==> Plain(r[i])) && ChildSectionLines(r) == r
  {
    var r := ChildSectionsNav(pages, sections, cs, dir, rel);
    AllChildSections(r);
  }

  lemma {:induction false} AllChildSections(r: seq<NavLine>)
    requires forall i :: 0 <= i < |r| ==> r[i].ChildSection?
    ensures ChildSectionLines(r) == r
    decreases |r|
  {
    if r != [] {
      AllChildSections(r[1..]);
    }
  }

  lemma {:induction false} NoChildSections(r: seq<NavLine>)
    requires forall i :: 0 <= i < |r| ==> !r[i].ChildSection?
    ensures ChildSectionLines(r) == []
    decreases |r|
  {
    if r != [] {
      NoChildSections(r[1..]);
    }
  }

  /** The pieces SectionNav is made of, and what each contributes. */
  lemma SectionNavParts(pages: seq<Page>, sections: seq<Section>, pageSection: map<nat, nat>,
                        listClass: string, ctx: NavContext)
    requires CanNavigate(pages, sections, pageSection, ctx.currentPage, listClass)
    ensures var s := pageSection[ctx.currentPage];
      var p := sections[s].page.value;
      var head := [ListOpen(listClass), SectionHome(pages[p].title, LinkTo(ctx, p, pages[p].url))];
      var body := PageListNav(pages, pages[p].children, p, ctx);
      var kids := if listClass != "sitemap" then ChildSectionsNav(pages, sections, sections[s].children, Dir(ctx.currentPath), ctx.rel) else [];
      && SectionNav(pages, sections, pageSection, listClass, ctx) == head + body + kids + [ListClose]
      && (forall i :: 0 <= i < |head| ==> Plain(head[i]))
      && (forall i :: 0 <= i < |kids| ==> Plain(kids[i]))
      && ChildSectionLines(kids) == kids
  {
    var s := pageSection[ctx.currentPage];
    if listClass != "sitemap" {
      ChildSectionsPlain(pages, sections, sections[s].children, Dir(ctx.currentPath), ctx.rel);
    }
  }

  /** The list opens with the class and the section's own page, linked
      unless it is the page shown, and ends with the closing tag. */
  lemma SectionNavShape(pages: seq<Page>, sections: seq<Section>, pageSection: map<nat, nat>,
                        listClass: string, ctx: NavContext)
    requires CanNavigate(pages, sections, pageSection, ctx.currentPage, listClass)
    ensures var lines := SectionNav(pages, sections, pageSection, listClass, ctx);
      var p := sections[pageSection[ctx.currentPage]].page.value;
      && |lines| >= 3
      && lines[0] == ListOpen(listClass)
      && lines[1].SectionHome? && lines[1].title == pages[p].title
      && (lines[1].href.None? <==> Unlinked(ctx, p, pages[p].url))
      && lines[|lines| - 1] == ListClose
  {
    SectionNavParts(pages, sections, pageSection, listClass, ctx);
  }

  lemma FiltersConcat4(a: seq<NavLine>, b: seq<NavLine>, c: seq<NavLine>, d: seq<NavLine>)
    ensures EntryPages(a + b + c + d) == EntryPages(a) + EntryPages(b) + EntryPages(c) + EntryPages(d)
    ensures ChildSectionLines(a + b + c + d) ==
            ChildSectionLines(a) + ChildSectionLines(b) + ChildSectionLines(c) + ChildSectionLines(d)
  {
    FiltersConcat(a, b);
    FiltersConcat(a + b, c);
    FiltersConcat(a + b + c, d);
  }

  /** Entry lines that are well formed stay so when runs are joined. */
  predicate AllEntriesOk(pages: seq<Page>, ctx: NavContext, lines: seq<NavLine>) {
    forall i :: 0 <= i < |lines| ==> EntryOk(pages, ctx, lines[i])
  }

  lemma OkConcat(pages: seq<Page>, ctx: NavContext, a: seq<NavLine>, b: seq<NavLine>)
    requires AllEntriesOk(pages, ctx, a) && AllEntriesOk(pages, ctx, b)
    ensures AllEntriesOk(pages, ctx, a + b)
  {
    forall i | 0 <= i < |a + b|
      ensures EntryOk(pages, ctx, (a + b)[i])
    {
      if i < |a| {
        assert (a + b)[i] == a[i];
      } else {
        assert (a + b)[i] == b[i - |a|];
      }
    }
  }

  /** A list made of plain lines around a run of page lines. */
  lemma PlainAround(pages: seq<Page>, ctx: NavContext, head: seq<NavLine>, body: seq<NavLine>,
                    kids: seq<NavLine>, tail: seq<NavLine>)
    requires forall i :: 0 <= i < |head| ==> Plain(head[i])
    requires forall i :: 0 <= i < |body| ==> PageLine(pages, ctx, body[i])
    requires forall i :: 0 <= i < |kids| ==> Plain(kids[i])
    requires forall i :: 0 <= i < |tail| ==> Plain(tail[i])
    ensures EntryPages(head + body + kids + tail) == EntryPages(body)
    ensures AllEntriesOk(pages, ctx, head + body + kids + tail)
  {
    PlainEntries(head);
    PlainEntries(kids);
    PlainEntries(tail);
    FiltersConcat4(head, body, kids, tail);
    OkConcat(pages, ctx, head, body);
    OkConcat(pages, ctx, head + body, kids);
    OkConcat(pages, ctx, head + body + kids, tail);
  }

  /** The entries are every page under the section's page, each once, in
      depth-first order, each with its own title and linked exactly when
      it is not to be shown unlinked. */
  lemma SectionNavEntries(pages: seq<Page>, sections: seq<Section>, pageSection: map<nat, nat>,
                          listClass: string, ctx: NavContext)
    requires CanNavigate(pages, sections, pageSection, ctx.currentPage, listClass)
    ensures var lines := SectionNav(pages, sections, pageSection, listClass, ctx);
      var p := sections[pageSection[ctx.currentPage]].page.value;
      && EntryPages(lines) == PreorderList(pages, pages[p].children, p)
      && AllEntriesOk(pages, ctx, lines)
  {
    SectionNavParts(pages, sections, pageSection, listClass, ctx);
    var s := pageSection[ctx.currentPage];
    var p := sections[s].page.value;
    var head := [ListOpen(listClass), SectionHome(pages[p].title, LinkTo(ctx, p, pages[p].url))];
    var body := PageListNav(pages, pages[p].children, p, ctx);
    var kids := if listClass != "sitemap" then ChildSectionsNav(pages, sections, sections[s].children, Dir(ctx.currentPath), ctx.rel) else [];
    PageListNavEntries(pages, pages[p].children, p, ctx);
    PageListNavLines(pages, pages[p].children, p, ctx);
    PlainAround(pages, ctx, head, body, kids, [ListClose]);
  }

  /** Nested lists are properly nested and one is opened exactly after the
      entry of each page that has children. */
  lemma SectionNavNesting(pages: seq<Page>, sections: seq<Section>, pageSection: map<nat, nat>,
                          listClass: string, ctx: NavContext)
    requires CanNavigate(pages, sections, pageSection, ctx.currentPage, listClass)
    ensures var lines := SectionNav(pages, sections, pageSection, listClass, ctx);
      Balanced(lines) && NestsFollowEntries(pages, lines)
  {
    SectionNavParts(pages, sections, pageSection, listClass, ctx);
    var s := pageSection[ctx.currentPage];
    var p := sections[s].page.value;
    var head := [ListOpen(listClass), SectionHome(pages[p].title, LinkTo(ctx, p, pages[p].url))];
    var body := PageListNav(pages, pages[p].children, p, ctx);
    var kids := if listClass != "sitemap" then ChildSectionsNav(pages, sections, sections[s].children, Dir(ctx.currentPath), ctx.rel) else [];
    PageListNavBalanced(pages, pages[p].children, p, ctx);
    PageListNavNests(pages, pages[p].children, p, ctx);
    NestingAround(pages, head, body, kids, [ListClose]);
  }

  /** Plain lines around a well-nested run keep it well nested. */
  lemma NestingAround(pages: seq<Page>, head: seq<NavLine>, body: seq<NavLine>, kids: seq<NavLine>,
                      tail: seq<NavLine>)
    requires forall i :: 0 <= i < |head| ==> Plain(head[i])
    requires forall i :: 0 <= i < |kids| ==> Plain(kids[i])
    requires forall i :: 0 <= i < |tail| ==> Plain(tail[i])
    requires Balanced(body) && NestsFollowEntries(pages, body)
    ensures Balanced(head + body + kids + tail) && NestsFollowEntries(pages, head + body + kids + tail)
  {
    PlainFacts(pages, head);
    PlainFacts(pages, kids);
    PlainFacts(pages, tail);
    BalancedConcat(head, body);
    BalancedConcat(head + body, kids);
    BalancedConcat(head + body + kids, tail);
    NestsConcat(pages, head, body);
    NestsConcat(pages, head + body, kids);
    NestsConcat(pages, head + body + kids, tail);
  }

  /** Links to the child sections appear, in order and one per child
      section, exactly when the class is not "sitemap". */
  lemma SectionNavChildSections(pages: seq<Page>, sections: seq<Section>, pageSection: map<nat, nat>,
                                listClass: string, ctx: NavContext)
    requires CanNavigate(pages, sections, pageSection, ctx.currentPage, listClass)
    ensures var lines := SectionNav(pages, sections, pageSection, listClass, ctx);
      var s := pageSection[ctx.currentPage];
      var cs := sections[s].children;
      var kids := ChildSectionLines(lines);
      && (listClass == "sitemap" ==> kids == [])
      && (listClass != "sitemap" ==>
            |kids| == |cs| &&
            forall i :: 0 <= i < |cs| ==>
              kids[i] == ChildSection(RelativeURL(Dir(ctx.currentPath), pages[sections[cs[i]].page.value].url, ctx.rel),
                                      sections[cs[i]].title))
  {
    SectionNavParts(pages, sections, pageSection, listClass, ctx);
    var s := pageSection[ctx.currentPage];
    var p := sections[s].page.value;
    var head := [ListOpen(listClass), SectionHome(pages[p].title, LinkTo(ctx, p, pages[p].url))];
    var body := PageListNav(pages, pages[p].children, p, ctx);
    var kids := if listClass != "sitemap" then ChildSectionsNav(pages, sections, sections[s].children, Dir(ctx.currentPath), ctx.rel) else [];
    PageListNavLines(pages, pages[p].children, p, ctx);
    KidsAround(head, body, kids, [ListClose]);
  }

  /** Around the child-section lines, no line is a child-section line. */
  lemma KidsAround(head: seq<NavLine>, body: seq<NavLine>, kids: seq<NavLine>, tail: seq<NavLine>)
    requires forall i :: 0 <= i < |head| ==> !head[i].ChildSection?
    requires forall i :: 0 <= i < |body| ==> !body[i].ChildSection?
    requires forall i :: 0 <= i < |tail| ==> !tail[i].ChildSection?
    requires ChildSectionLines(kids) == kids
    ensures ChildSectionLines(head + body + kids + tail) == kids
  {
    NoChildSections(head);
    NoChildSections(body);
    NoChildSections(tail);
    FiltersConcat4(head, body, kids, tail);
    assert [] + [] + kids + [] == kids;
  }

  // -----------------------------------------------------------------------
  // AddIndentation (nav.go:195-203).

  /** A line with the indent in front, unless it is empty. */
  function IndentLine(line: string, indent: string): string {
    if line == "" then line else indent + line
  }

  /** AddIndentation: splits at newlines, prefixes every non-empty line
      with `indent` in place, and joins again. When the indent holds no
      newline, the result has as many lines as the input, each non-empty
      one prefixed and each empty one left empty. */
  method AddIndentation(input: string, indent: string) returns (r: string)
    ensures var lines := Split(input, '\n');
      r == Strs.Join(seq(|lines|, i requires 0 <= i < |lines| => IndentLine(lines[i], indent)), '\n')
    ensures '\n' !in indent ==>
      var before := Split(input, '\n');
      var after := Split(r, '\n');
      && |after| == |before|
      && forall i :: 0 <= i < |before| ==> after[i] == IndentLine(before[i], indent)
  {
    var pieces := Split(input, '\n');
    var lines := new string[|pieces|](i requires 0 <= i < |pieces| => pieces[i]);
    for i := 0 to lines.Length
      invariant forall j :: 0 <= j < i ==> lines[j] == IndentLine(pieces[j], indent)
      invariant forall j :: i <= j < lines.Length ==> lines[j] == pieces[j]
    {
      if lines[i] != "" {
        lines[i] := indent + lines[i];
      }
    }
    var out := lines[..];
    assert out == seq(|pieces|, i requires 0 <= i < |pieces| => IndentLine(pieces[i], indent));
    r := Strs.Join(out, '\n');
    if '\n' !in indent {
      forall i | 0 <= i < |out|
        ensures '\n' !in out[i]
      {
        assert '\n' !in pieces[i];
      }
      SplitJoin(out, '\n');
    }
  }
}
