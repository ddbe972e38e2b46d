/** The site tree of nav.go and navsitemap.go. Go's `*Page` and `*Section`
    references become indices into two arenas; a child is always allocated
    after its parent, so every child index is larger than its parent's,
    which is what makes the recursive walks terminate. `Page.Section`,
    `Section.parent` and the caller's page map are the three things the
    navigation code writes; they are kept as maps keyed by index or URL. */
module Site {
  import opened Common

  datatype Page = Page(title: string, url: string, content: string, children: seq<nat>)

  datatype Section = Section(title: string, children: seq<nat>, page: Option<nat>)

  /** Every child page comes after its parent page in the arena. */
  predicate PagesOrdered(pages: seq<Page>) {
    forall i, j :: 0 <= i < |pages| && 0 <= j < |pages[i].children| ==> i < pages[i].children[j] < |pages|
  }

  /** Every child section comes after its parent section, and every
      section's page is in the page arena. */
  predicate SectionsOrdered(sections: seq<Section>, pageCount: nat) {
    && (forall i, j :: 0 <= i < |sections| && 0 <= j < |sections[i].children| ==>
          i < sections[i].children[j] < |sections|)
    && (forall i :: 0 <= i < |sections| && sections[i].page.Some? ==> sections[i].page.value < pageCount)
  }

  predicate Arena(pages: seq<Page>, sections: seq<Section>) {
    PagesOrdered(pages) && SectionsOrdered(sections, |pages|)
  }

  /** The pages and sections with the three link fields the navigation
      code writes. */
  class SiteTree {
    var pages: seq<Page>
    var sections: seq<Section>
    /** Page.Section, for the pages whose field is set. */
    var pageSection: map<nat, nat>
    /** Section.parent, for the sections whose field is set. */
    var parent: map<nat, nat>
    /** The URL-to-page map filled by BuildPageInSectionMap. */
    var pageMap: map<string, nat>

    ghost predicate Valid()
      reads this
    {
      && Arena(pages, sections)
      && (forall s :: s in parent ==> s < |sections| && parent[s] < s)
      && (forall p :: p in pageSection ==> p < |pages| && pageSection[p] < |sections|)
      && (forall u :: u in pageMap ==> pageMap[u] < |pages|)
    }

    constructor (pages: seq<Page>, sections: seq<Section>)
      requires Arena(pages, sections)
      ensures this.pages == pages && this.sections == sections
      ensures pageSection == map[] && parent == map[] && pageMap == map[]
      ensures Valid()
    {
      this.pages, this.sections := pages, sections;
      pageSection, parent, pageMap := map[], map[], map[];
    }

    function Snapshot(): Links
      reads this
    {
      Links(pageMap, pageSection, parent)
    }
  }

  /** Every section's parent comes before it, so following parents ends. */
  predicate ParentsDescend(parent: map<nat, nat>) {
    forall x :: x in parent ==> parent[x] < x
  }

  /** The sections from s up through its parents to one without a parent:
      the path GenerateBreadcrumbs walks, and the depth Section.level counts. */
  function Chain(parent: map<nat, nat>, s: nat): (r: seq<nat>)
    requires ParentsDescend(parent)
    ensures r != [] && r[0] == s && r[|r| - 1] !in parent
    ensures forall i :: 0 <= i < |r| - 1 ==> r[i] in parent && r[i + 1] == parent[r[i]]
    ensures forall i :: 0 < i < |r| ==> r[i] < s
    decreases s
  {
    if s in parent then [s] + Chain(parent, parent[s]) else [s]
  }

  // -----------------------------------------------------------------------
  // Walks in the order of the Go recursion.

  /** p followed by the pages under it, depth first, children in order. */
  function Preorder(pages: seq<Page>, p: nat): (r: seq<nat>)
    requires PagesOrdered(pages) && p < |pages|
    ensures forall i :: 0 <= i < |r| ==> p <= r[i] < |pages|
    decreases |pages| - p, 1, 0
  {
    [p] + PreorderList(pages, pages[p].children, p)
  }

  function PreorderList(pages: seq<Page>, cs: seq<nat>, lo: int): (r: seq<nat>)
    requires PagesOrdered(pages) && lo < |pages|
    requires forall i :: 0 <= i < |cs| ==> lo < cs[i] < |pages|
    ensures forall i :: 0 <= i < |r| ==> lo < r[i] < |pages|
    decreases |pages| - lo, 0, |cs|
  {
    if cs == [] then [] else Preorder(pages, cs[0]) + PreorderList(pages, cs[1..], lo)
  }

  lemma {:induction false} PreorderListAppend(pages: seq<Page>, cs: seq<nat>, lo: int, c: nat)
    requires PagesOrdered(pages) && lo < |pages| && lo < c < |pages|
    requires forall i :: 0 <= i < |cs| ==> lo < cs[i] < |pages|
    ensures PreorderList(pages, cs + [c], lo) == PreorderList(pages, cs, lo) + Preorder(pages, c)
    decreases |cs|
  {
    if cs == [] {
      assert [] + [c] == [c];
    } else {
      var h := Preorder(pages, cs[0]);
      assert (cs + [c])[0] == cs[0] && (cs + [c])[1..] == cs[1..] + [c];
      assert PreorderList(pages, cs + [c], lo) == h + PreorderList(pages, cs[1..] + [c], lo);
      PreorderListAppend(pages, cs[1..], lo, c);
      Assoc(h, PreorderList(pages, cs[1..], lo), Preorder(pages, c));
    }
  }

  /** t followed by the sections under it, depth first. */
  function SectionPreorder(sections: seq<Section>, pageCount: nat, t: nat): (r: seq<nat>)
    requires SectionsOrdered(sections, pageCount) && t < |sections|
    ensures forall i :: 0 <= i < |r| ==> t <= r[i] < |sections|
    decreases |sections| - t, 1, 0
  {
    [t] + SectionPreorderList(sections, pageCount, sections[t].children, t)
  }

  function SectionPreorderList(sections: seq<Section>, pageCount: nat, cs: seq<nat>, lo: int): (r: seq<nat>)
    requires SectionsOrdered(sections, pageCount) && lo < |sections|
    requires forall i :: 0 <= i < |cs| ==> lo < cs[i] < |sections|
    ensures forall i :: 0 <= i < |r| ==> lo < r[i] < |sections|
    decreases |sections| - lo, 0, |cs|
  {
    if cs == [] then [] else
      SectionPreorder(sections, pageCount, cs[0]) + SectionPreorderList(sections, pageCount, cs[1..], lo)
  }

  // -----------------------------------------------------------------------
  // The link writes, as a trace.

  datatype Links = Links(pageMap: map<string, nat>, pageSection: map<nat, nat>, parent: map<nat, nat>)

  /** One assignment: `pageMap[url] = page`, `page.Section = section` or
      `child.parent = parent`. */
  datatype Write =
    | SetPageMap(url: string, page: nat)
    | SetSection(page: nat, section: nat)
    | SetParent(child: nat, parent: nat)

  function Apply1(l: Links, w: Write): Links {
    match w
    case SetPageMap(u, p) => l.(pageMap := l.pageMap[u := p])
    case SetSection(p, s) => l.(pageSection := l.pageSection[p := s])
    case SetParent(c, s) => l.(parent := l.parent[c := s])
  }

  function Apply(l: Links, ws: seq<Write>): Links
    decreases |ws|
  {
    if ws == [] then l else Apply(Apply1(l, ws[0]), ws[1..])
  }

  lemma {:induction false} ApplyConcat(l: Links, a: seq<Write>, b: seq<Write>)
    ensures Apply(l, a + b) == Apply(Apply(l, a), b)
    decreases |a|
  {
    if a == [] {
      assert a + b == b;
    } else {
      assert (a + b)[1..] == a[1..] + b;
      ApplyConcat(Apply1(l, a[0]), a[1..], b);
    }
  }

  /** The location a write assigns, and the value it stores there. */
  datatype Key = UrlKey(url: string) | SectionKey(page: nat) | ParentKey(child: nat)

  function KeyOf(w: Write): Key {
    match w
    case SetPageMap(u, _) => UrlKey(u)
    case SetSection(p, _) => SectionKey(p)
    case SetParent(c, _) => ParentKey(c)
  }

  function ValueOf(w: Write): nat {
    match w
    case SetPageMap(_, p) => p
    case SetSection(_, s) => s
    case SetParent(_, s) => s
  }

  function Get(l: Links, k: Key): Option<nat> {
    match k
    case UrlKey(u) => if u in l.pageMap then Some(l.pageMap[u]) else None
    case SectionKey(p) => if p in l.pageSection then Some(l.pageSection[p]) else None
    case ParentKey(c) => if c in l.parent then Some(l.parent[c]) else None
  }

  /** A write changes its own location and no other. */
  lemma Apply1Get(l: Links, w: Write, k: Key)
    ensures Get(Apply1(l, w), k) == if k == KeyOf(w) then Some(ValueOf(w)) else Get(l, k)
  {
  }

  /** A location no write of the trace assigns keeps its value. */
  lemma {:induction false} ApplyUntouched(l: Links, ws: seq<Write>, k: Key)
    requires forall i :: 0 <= i < |ws| ==> KeyOf(ws[i]) != k
    ensures Get(Apply(l, ws), k) == Get(l, k)
    decreases |ws|
  {
    if ws != [] {
      Apply1Get(l, ws[0], k);
      ApplyUntouched(Apply1(l, ws[0]), ws[1..], k);
    }
  }

  /** A location some write of the trace assigns ends up holding the value
      of one of those writes (the last). */
  lemma {:induction false} ApplyWritten(l: Links, ws: seq<Write>, k: Key) returns (w: Write)
    requires exists i :: 0 <= i < |ws| && KeyOf(ws[i]) == k
    ensures w in ws && KeyOf(w) == k && Get(Apply(l, ws), k) == Some(ValueOf(w))
    decreases |ws|
  {
    var l1 := Apply1(l, ws[0]);
    Apply1Get(l, ws[0], k);
    if exists i :: 0 <= i < |ws[1..]| && KeyOf(ws[1..][i]) == k {
      w := ApplyWritten(l1, ws[1..], k);
    } else {
      forall j | 1 <= j < |ws|
        ensures KeyOf(ws[j]) != k
      {
        assert ws[1..][j - 1] == ws[j];
      }
      ApplyUntouched(l1, ws[1..], k);
      w := ws[0];
    }
  }

  /** buildPageMap(p, s): p.Section = s, pageMap[p.URL] = p, then the
      same for each child's subtree in order (nav.go:79-85). */
  function PageWrites(pages: seq<Page>, p: nat, s: nat): (r: seq<Write>)
    requires PagesOrdered(pages) && p < |pages|
    decreases |pages| - p, 1, 0
  {
    [SetSection(p, s), SetPageMap(pages[p].url, p)] + PageListWrites(pages, pages[p].children, p, s)
  }

  function PageListWrites(pages: seq<Page>, cs: seq<nat>, lo: int, s: nat): (r: seq<Write>)
    requires PagesOrdered(pages) && lo < |pages|
    requires forall i :: 0 <= i < |cs| ==> lo < cs[i] < |pages|
    decreases |pages| - lo, 0, |cs|
  {
    if cs == [] then [] else PageWrites(pages, cs[0], s) + PageListWrites(pages, cs[1..], lo, s)
  }

  lemma {:induction false} PageListWritesAppend(pages: seq<Page>, cs: seq<nat>, lo: int, c: nat, s: nat)
    requires PagesOrdered(pages) && lo < |pages| && lo < c < |pages|
    requires forall i :: 0 <= i < |cs| ==> lo < cs[i] < |pages|
    ensures PageListWrites(pages, cs + [c], lo, s) == PageListWrites(pages, cs, lo, s) + PageWrites(pages, c, s)
    decreases |cs|
  {
    if cs == [] {
      assert [] + [c] == [c];
    } else {
      var h := PageWrites(pages, cs[0], s);
      assert (cs + [c])[0] == cs[0] && (cs + [c])[1..] == cs[1..] + [c];
      assert PageListWrites(pages, cs + [c], lo, s) == h + PageListWrites(pages, cs[1..] + [c], lo, s);
      PageListWritesAppend(pages, cs[1..], lo, c, s);
      Assoc(h, PageListWrites(pages, cs[1..], lo, s), PageWrites(pages, c, s));
    }
  }

  /** BuildPageInSectionMap(t): the page tree of t, if any, with
      pageMap[t.Page.URL] = t.Page first; then for each child section c in
      order, c.parent = t and c's own writes (nav.go:68-77). */
  function SectionWrites(pages: seq<Page>, sections: seq<Section>, t: nat): (r: seq<Write>)
    requires Arena(pages, sections) && t < |sections|
    decreases |sections| - t, 1, 0
  {
    OwnPageWrites(pages, sections, t) + ChildSectionWrites(pages, sections, sections[t].children, t)
  }

  function OwnPageWrites(pages: seq<Page>, sections: seq<Section>, t: nat): (r: seq<Write>)
    requires Arena(pages, sections) && t < |sections|
  {
    match sections[t].page
    case None => []
    case Some(q) => [SetPageMap(pages[q].url, q)] + PageWrites(pages, q, t)
  }

  function ChildSectionWrites(pages: seq<Page>, sections: seq<Section>, cs: seq<nat>, t: nat): (r: seq<Write>)
    requires Arena(pages, sections) && t < |sections|
    requires forall i :: 0 <= i < |cs| ==> t < cs[i] < |sections|
    decreases |sections| - t, 0, |cs|
  {
    if cs == [] then [] else
      [SetParent(cs[0], t)] + SectionWrites(pages, sections, cs[0]) +
      ChildSectionWrites(pages, sections, cs[1..], t)
  }

  lemma {:induction false} ChildSectionWritesAppend(pages: seq<Page>, sections: seq<Section>, cs: seq<nat>, t: nat, c: nat)
    requires Arena(pages, sections) && t < c < |sections|
    requires forall i :: 0 <= i < |cs| ==> t < cs[i] < |sections|
    ensures ChildSectionWrites(pages, sections, cs + [c], t) ==
            ChildSectionWrites(pages, sections, cs, t) + ([SetParent(c, t)] + SectionWrites(pages, sections, c))
    decreases |cs|
  {
    if cs == [] {
      assert [] + [c] == [c];
    } else {
      var h := [SetParent(cs[0], t)] + SectionWrites(pages, sections, cs[0]);
      var last := [SetParent(c, t)] + SectionWrites(pages, sections, c);
      assert (cs + [c])[0] == cs[0] && (cs + [c])[1..] == cs[1..] + [c];
      assert ChildSectionWrites(pages, sections, cs + [c], t) == h + ChildSectionWrites(pages, sections, cs[1..] + [c], t);
      ChildSectionWritesAppend(pages, sections, cs[1..], t, c);
      Assoc(h, ChildSectionWrites(pages, sections, cs[1..], t), last);
    }
  }

  // -----------------------------------------------------------------------
  // What the traces write.

  /** A write buildPageMap(p, s) may perform: set the section of a page of
      p's subtree to s, or register such a page under its own URL. */
  predicate PageWriteOk(pages: seq<Page>, w: Write, s: nat, under: seq<nat>) {
    || (w.SetSection? && w.section == s && w.page in under)
    || (w.SetPageMap? && w.page in under && w.page < |pages| && pages[w.page].url == w.url)
  }

  lemma {:induction false} PageWritesSound(pages: seq<Page>, p: nat, s: nat, w: Write)
    requires PagesOrdered(pages) && p < |pages|
    requires w in PageWrites(pages, p, s)
    ensures PageWriteOk(pages, w, s, Preorder(pages, p))
    decreases |pages| - p, 1, 0
  {
    var cs := pages[p].children;
    if w !in [SetSection(p, s), SetPageMap(pages[p].url, p)] {
      PageListWritesSound(pages, cs, p, s, w);
    }
  }

  lemma {:induction false} PageListWritesSound(pages: seq<Page>, cs: seq<nat>, lo: int, s: nat, w: Write)
    requires PagesOrdered(pages) && lo < |pages|
    requires forall i :: 0 <= i < |cs| ==> lo < cs[i] < |pages|
    requires w in PageListWrites(pages, cs, lo, s)
    ensures PageWriteOk(pages, w, s, PreorderList(pages, cs, lo))
    decreases |pages| - lo, 0, |cs|
  {
    if w in PageWrites(pages, cs[0], s) {
      PageWritesSound(pages, cs[0], s, w);
    } else {
      PageListWritesSound(pages, cs[1..], lo, s, w);
    }
  }

  /** Every page of p's subtree gets both of its writes. */
  lemma {:induction false} PageWritesCover(pages: seq<Page>, p: nat, s: nat, r: nat)
    requires PagesOrdered(pages) && p < |pages|
    requires r in Preorder(pages, p)
    ensures r < |pages|
    ensures SetSection(r, s) in PageWrites(pages, p, s) && SetPageMap(pages[r].url, r) in PageWrites(pages, p, s)
    decreases |pages| - p, 1, 0
  {
    if r != p {
      PageListWritesCover(pages, pages[p].children, p, s, r);
    }
  }

  lemma {:induction false} PageListWritesCover(pages: seq<Page>, cs: seq<nat>, lo: int, s: nat, r: nat)
    requires PagesOrdered(pages) && lo < |pages|
    requires forall i :: 0 <= i < |cs| ==> lo < cs[i] < |pages|
    requires r in PreorderList(pages, cs, lo)
    ensures r < |pages|
    ensures SetSection(r, s) in PageListWrites(pages, cs, lo, s)
    ensures SetPageMap(pages[r].url, r) in PageListWrites(pages, cs, lo, s)
    decreases |pages| - lo, 0, |cs|
  {
    if r in Preorder(pages, cs[0]) {
      PageWritesCover(pages, cs[0], s, r);
    } else {
      PageListWritesCover(pages, cs[1..], lo, s, r);
    }
  }

  /** r belongs to the page tree hanging off section u. */
  predicate InPageTreeOf(pages: seq<Page>, sections: seq<Section>, u: nat, r: nat)
    requires Arena(pages, sections)
  {
    u < |sections| && sections[u].page.Some? && r in Preorder(pages, sections[u].page.value)
  }

  /** A write BuildPageInSectionMap may perform for the sections in
      `under`: link a child section to its parent, set a page's section to
      the section whose page tree holds it, or register a page of such a
      tree under its own URL. */
  predicate SectionWriteOk(pages: seq<Page>, sections: seq<Section>, w: Write, under: seq<nat>)
    requires Arena(pages, sections)
  {
    match w
    case SetParent(c, u) => u in under && u < |sections| && c in sections[u].children
    case SetSection(r, u) => u in under && InPageTreeOf(pages, sections, u, r)
    case SetPageMap(url, r) =>
      r < |pages| && pages[r].url == url && exists u :: u in under && InPageTreeOf(pages, sections, u, r)
  }

  lemma OwnPageWritesSound(pages: seq<Page>, sections: seq<Section>, t: nat, w: Write)
    requires Arena(pages, sections) && t < |sections|
    requires w in OwnPageWrites(pages, sections, t)
    ensures SectionWriteOk(pages, sections, w, [t])
  {
    var q := sections[t].page.value;
    if w in PageWrites(pages, q, t) {
      PageWritesSound(pages, q, t, w);
    }
    assert InPageTreeOf(pages, sections, t, q);
  }

  /** A write is allowed for a list of sections if it is for a part. */
  lemma WriteOkWider(pages: seq<Page>, sections: seq<Section>, w: Write, a: seq<nat>, b: seq<nat>)
    requires Arena(pages, sections)
    requires forall u :: u in a ==> u in b
    requires SectionWriteOk(pages, sections, w, a)
    ensures SectionWriteOk(pages, sections, w, b)
  {
    if w.SetPageMap? {
      var u :| u in a && InPageTreeOf(pages, sections, u, w.page);
      assert u in b;
    }
  }

  lemma {:induction false} SectionWritesSound(pages: seq<Page>, sections: seq<Section>, t: nat, w: Write)
    requires Arena(pages, sections) && t < |sections|
    requires w in SectionWrites(pages, sections, t)
    ensures SectionWriteOk(pages, sections, w, SectionPreorder(sections, |pages|, t))
    decreases |sections| - t, 1, 0
  {
    var all := SectionPreorder(sections, |pages|, t);
    if w in OwnPageWrites(pages, sections, t) {
      OwnPageWritesSound(pages, sections, t, w);
      WriteOkWider(pages, sections, w, [t], all);
    } else {
      var cs := sections[t].children;
      ChildSectionWritesSound(pages, sections, cs, t, w);
      WriteOkWider(pages, sections, w, [t] + SectionPreorderList(sections, |pages|, cs, t), all);
    }
  }

  lemma {:induction false} ChildSectionWritesSound(pages: seq<Page>, sections: seq<Section>, cs: seq<nat>, t: nat, w: Write)
    requires Arena(pages, sections) && t < |sections|
    requires forall i :: 0 <= i < |cs| ==> t < cs[i] < |sections|
    requires forall c :: c in cs ==> c in sections[t].children
    requires w in ChildSectionWrites(pages, sections, cs, t)
    ensures SectionWriteOk(pages, sections, w, [t] + SectionPreorderList(sections, |pages|, cs, t))
    decreases |sections| - t, 0, |cs|
  {
    var here := [t] + SectionPreorderList(sections, |pages|, cs, t);
    var first := SectionPreorder(sections, |pages|, cs[0]);
    var rest := SectionPreorderList(sections, |pages|, cs[1..], t);
    assert SectionPreorderList(sections, |pages|, cs, t) == first + rest;
    if w == SetParent(cs[0], t) {
      assert cs[0] in cs;
    } else if w in SectionWrites(pages, sections, cs[0]) {
      SectionWritesSound(pages, sections, cs[0], w);
      WriteOkWider(pages, sections, w, first, here);
    } else {
      assert w in ChildSectionWrites(pages, sections, cs[1..], t);
      ChildSectionWritesSound(pages, sections, cs[1..], t, w);
      WriteOkWider(pages, sections, w, [t] + rest, here);
    }
  }

  /** Every write BuildPageInSectionMap owes section u is in ws: the parent
      link of each child section, and the section and URL of each page of
      u's page tree. */
  predicate Covered(pages: seq<Page>, sections: seq<Section>, u: nat, ws: seq<Write>)
    requires Arena(pages, sections) && u < |sections|
  {
    && (forall i :: 0 <= i < |sections[u].children| ==> SetParent(sections[u].children[i], u) in ws)
    && (sections[u].page.Some? ==>
          forall r :: r in Preorder(pages, sections[u].page.value) ==>
            SetSection(r, u) in ws && SetPageMap(pages[r].url, r) in ws)
  }

  lemma CoveredWider(pages: seq<Page>, sections: seq<Section>, u: nat, a: seq<Write>, b: seq<Write>)
    requires Arena(pages, sections) && u < |sections|
    requires forall w :: w in a ==> w in b
    requires Covered(pages, sections, u, a)
    ensures Covered(pages, sections, u, b)
  {
  }

  lemma {:induction false} ChildParentsCovered(pages: seq<Page>, sections: seq<Section>, cs: seq<nat>, t: nat)
    requires Arena(pages, sections) && t < |sections|
    requires forall i :: 0 <= i < |cs| ==> t < cs[i] < |sections|
    ensures forall i :: 0 <= i < |cs| ==> SetParent(cs[i], t) in ChildSectionWrites(pages, sections, cs, t)
    decreases |cs|
  {
    if cs != [] {
      ChildParentsCovered(pages, sections, cs[1..], t);
      forall i | 1 <= i < |cs|
        ensures SetParent(cs[i], t) in ChildSectionWrites(pages, sections, cs, t)
      {
        assert cs[1..][i - 1] == cs[i];
      }
    }
  }

  lemma OwnPageCovered(pages: seq<Page>, sections: seq<Section>, t: nat)
    requires Arena(pages, sections) && t < |sections|
    ensures sections[t].page.Some? ==>
      forall r :: r in Preorder(pages, sections[t].page.value) ==>
        SetSection(r, t) in OwnPageWrites(pages, sections, t) &&
        SetPageMap(pages[r].url, r) in OwnPageWrites(pages, sections, t)
  {
    if sections[t].page.Some? {
      var q := sections[t].page.value;
      forall r | r in Preorder(pages, q)
        ensures SetSection(r, t) in OwnPageWrites(pages, sections, t)
        ensures SetPageMap(pages[r].url, r) in OwnPageWrites(pages, sections, t)
      {
        PageWritesCover(pages, q, t, r);
      }
    }
  }

  lemma {:induction false} SectionWritesCover(pages: seq<Page>, sections: seq<Section>, t: nat, u: nat)
    requires Arena(pages, sections) && t < |sections|
    requires u in SectionPreorder(sections, |pages|, t)
    ensures u < |sections| && Covered(pages, sections, u, SectionWrites(pages, sections, t))
    decreases |sections| - t, 1, 0
  {
    var own := OwnPageWrites(pages, sections, t);
    var cs := sections[t].children;
    var kids := ChildSectionWrites(pages, sections, cs, t);
    if u == t {
      OwnPageCovered(pages, sections, t);
      ChildParentsCovered(pages, sections, cs, t);
      assert Covered(pages, sections, t, own + kids);
    } else {
      ChildSectionWritesCover(pages, sections, cs, t, u);
      CoveredWider(pages, sections, u, kids, own + kids);
    }
  }

  lemma {:induction false} ChildSectionWritesCover(pages: seq<Page>, sections: seq<Section>, cs: seq<nat>, t: nat, u: nat)
    requires Arena(pages, sections) && t < |sections|
    requires forall i :: 0 <= i < |cs| ==> t < cs[i] < |sections|
    requires u in SectionPreorderList(sections, |pages|, cs, t)
    ensures u < |sections| && Covered(pages, sections, u, ChildSectionWrites(pages, sections, cs, t))
    decreases |sections| - t, 0, |cs|
  {
    var head := [SetParent(cs[0], t)] + SectionWrites(pages, sections, cs[0]);
    var tail := ChildSectionWrites(pages, sections, cs[1..], t);
    assert ChildSectionWrites(pages, sections, cs, t) == head + tail;
    if u in SectionPreorder(sections, |pages|, cs[0]) {
      SectionWritesCover(pages, sections, cs[0], u);
      CoveredWider(pages, sections, u, SectionWrites(pages, sections, cs[0]), head + tail);
    } else {
      ChildSectionWritesCover(pages, sections, cs[1..], t, u);
      CoveredWider(pages, sections, u, tail, head + tail);
    }
  }

  // -----------------------------------------------------------------------
  // The effect of the walks.

  lemma {:induction false} ApplyKeepsParents(l: Links, ws: seq<Write>)
    requires forall i :: 0 <= i < |ws| ==> !ws[i].SetParent?
    ensures Apply(l, ws).parent == l.parent
    decreases |ws|
  {
    if ws != [] {
      ApplyKeepsParents(Apply1(l, ws[0]), ws[1..]);
    }
  }

  /** After buildPageMap(p, s) every page of p's subtree has section s and
      its URL maps to a page of the subtree with that URL (the page itself
      when URLs are distinct); no other page's section and no section's
      parent changes. */
  lemma BuildPageMapEffect(pages: seq<Page>, p: nat, s: nat, l: Links)
    requires PagesOrdered(pages) && p < |pages|
    ensures var after := Apply(l, PageWrites(pages, p, s));
      && (forall r :: r in Preorder(pages, p) ==>
            && r in after.pageSection && after.pageSection[r] == s
            && pages[r].url in after.pageMap
            && after.pageMap[pages[r].url] in Preorder(pages, p)
            && pages[after.pageMap[pages[r].url]].url == pages[r].url)
      && (forall r :: r !in Preorder(pages, p) ==> Get(after, SectionKey(r)) == Get(l, SectionKey(r)))
      && after.parent == l.parent
  {
    var ws := PageWrites(pages, p, s);
    var pre := Preorder(pages, p);
    var after := Apply(l, ws);
    forall r | r in pre
      ensures r in after.pageSection && after.pageSection[r] == s
      ensures pages[r].url in after.pageMap && after.pageMap[pages[r].url] in pre
      ensures pages[after.pageMap[pages[r].url]].url == pages[r].url
    {
      PageWritesCover(pages, p, s, r);
      var i :| 0 <= i < |ws| && ws[i] == SetSection(r, s);
      assert KeyOf(ws[i]) == SectionKey(r);
      var w := ApplyWritten(l, ws, SectionKey(r));
      PageWritesSound(pages, p, s, w);
      var j :| 0 <= j < |ws| && ws[j] == SetPageMap(pages[r].url, r);
      assert KeyOf(ws[j]) == UrlKey(pages[r].url);
      var v := ApplyWritten(l, ws, UrlKey(pages[r].url));
      PageWritesSound(pages, p, s, v);
    }
    forall r | r !in pre
      ensures Get(after, SectionKey(r)) == Get(l, SectionKey(r))
    {
      forall i | 0 <= i < |ws|
        ensures KeyOf(ws[i]) != SectionKey(r)
      {
        PageWritesSound(pages, p, s, ws[i]);
      }
      ApplyUntouched(l, ws, SectionKey(r));
    }
    forall i | 0 <= i < |ws|
      ensures !ws[i].SetParent?
    {
      PageWritesSound(pages, p, s, ws[i]);
    }
    ApplyKeepsParents(l, ws);
  }

  /** Each section has at most one parent section. */
  predicate UniqueParents(sections: seq<Section>) {
    forall u, v, i, j ::
      (&& 0 <= u < |sections| && 0 <= v < |sections|
       && 0 <= i < |sections[u].children| && 0 <= j < |sections[v].children|
       && sections[u].children[i] == sections[v].children[j]) ==> u == v
  }

  /** Each page hangs off at most one section's page tree. */
  ghost predicate UniqueOwners(pages: seq<Page>, sections: seq<Section>)
    requires Arena(pages, sections)
  {
    forall u: nat, v: nat, r: nat ::
      InPageTreeOf(pages, sections, u, r) && InPageTreeOf(pages, sections, v, r) ==> u == v
  }

  /** After BuildPageInSectionMap(t), for every section u under t: each
      child section's parent is a section under t that lists it as a child
      (u itself when parents are unique). */
  lemma {:induction false} ParentsAfterBuild(pages: seq<Page>, sections: seq<Section>, t: nat, l: Links, u: nat, c: nat)
    requires Arena(pages, sections) && t < |sections|
    requires u in SectionPreorder(sections, |pages|, t) && u < |sections|
    requires c in sections[u].children
    ensures var after := Apply(l, SectionWrites(pages, sections, t));
      && c in after.parent && after.parent[c] in SectionPreorder(sections, |pages|, t)
      && after.parent[c] < |sections| && c in sections[after.parent[c]].children
      && (UniqueParents(sections) ==> after.parent[c] == u)
  {
    var ws := SectionWrites(pages, sections, t);
    SectionWritesCover(pages, sections, t, u);
    var k :| 0 <= k < |sections[u].children| && sections[u].children[k] == c;
    var i :| 0 <= i < |ws| && ws[i] == SetParent(c, u);
    assert KeyOf(ws[i]) == ParentKey(c);
    var w := ApplyWritten(l, ws, ParentKey(c));
    SectionWritesSound(pages, sections, t, w);
    if UniqueParents(sections) {
      var v := w.parent;
      var m :| 0 <= m < |sections[v].children| && sections[v].children[m] == c;
      assert sections[u].children[k] == sections[v].children[m];
    }
  }

  /** After BuildPageInSectionMap(t), for every section u under t, each
      page of u's page tree has as section a section under t whose page
      tree holds it (u itself when owners are unique), and is in the map
      under its URL with a page of that URL. */
  lemma {:induction false} PagesAfterBuild(pages: seq<Page>, sections: seq<Section>, t: nat, l: Links, u: nat, r: nat)
    requires Arena(pages, sections) && t < |sections|
    requires u in SectionPreorder(sections, |pages|, t) && u < |sections|
    requires InPageTreeOf(pages, sections, u, r)
    ensures var after := Apply(l, SectionWrites(pages, sections, t));
      && r < |pages|
      && r in after.pageSection && after.pageSection[r] in SectionPreorder(sections, |pages|, t)
      && InPageTreeOf(pages, sections, after.pageSection[r], r)
      && (UniqueOwners(pages, sections) ==> after.pageSection[r] == u)
      && pages[r].url in after.pageMap && after.pageMap[pages[r].url] < |pages|
      && pages[after.pageMap[pages[r].url]].url == pages[r].url
  {
    var ws := SectionWrites(pages, sections, t);
    SectionWritesCover(pages, sections, t, u);
    var q := sections[u].page.value;
    assert r in Preorder(pages, q);
    var i :| 0 <= i < |ws| && ws[i] == SetSection(r, u);
    assert KeyOf(ws[i]) == SectionKey(r);
    var w := ApplyWritten(l, ws, SectionKey(r));
    SectionWritesSound(pages, sections, t, w);
    var j :| 0 <= j < |ws| && ws[j] == SetPageMap(pages[r].url, r);
    assert KeyOf(ws[j]) == UrlKey(pages[r].url);
    var v := ApplyWritten(l, ws, UrlKey(pages[r].url));
    SectionWritesSound(pages, sections, t, v);
  }
}
