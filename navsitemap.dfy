/** Building the site tree from a sitemap document (navsitemap.go). The
    markdown parse is abstracted as the sequence of events the walk
    reacts to: a heading with its level and text, and a list item whose
    first child holds a link. Sections and pages are allocated in the
    arenas of the Site module, in the order the walk creates them. */
module Sitemap {
  import opened Common
  import opened Strs
  import Paths
  import opened Site

  datatype Event =
    | Heading(level: int, text: string)
    | LinkItem(title: string, text: string, dest: string)

  /** Section.level (navsitemap.go:88-93): 1 for a section without a
      parent, one more than its parent's level otherwise. */
  function Level(parent: map<nat, nat>, s: nat): (r: nat)
    requires ParentsDescend(parent)
    ensures r >= 1
    decreases s
  {
    if s !in parent then 1 else Level(parent, parent[s]) + 1
  }

  /** The level is the number of sections from s up to the top. */
  lemma {:induction false} LevelCountsChain(parent: map<nat, nat>, s: nat)
    requires ParentsDescend(parent)
    ensures Level(parent, s) == |Chain(parent, s)|
    decreases s
  {
    if s in parent {
      LevelCountsChain(parent, parent[s]);
    }
  }

  /** The section a heading of depth n is attached under: climb from cur
      while the section reached is at least as deep as n. */
  function Climb(parent: map<nat, nat>, cur: Option<nat>, n: int): (r: Option<nat>)
    requires ParentsDescend(parent)
    decreases if cur.Some? then cur.value + 1 else 0
  {
    if cur.Some? && n <= Level(parent, cur.value) then
      Climb(parent, if cur.value in parent then Some(parent[cur.value]) else None, n)
    else cur
  }

  /** The level a new section gets under an optional parent. */
  function LevelUnder(parent: map<nat, nat>, up: Option<nat>): nat
    requires ParentsDescend(parent)
  {
    if up.None? then 1 else Level(parent, up.value) + 1
  }

  /** Climbing stops at the nearest section (cur itself or an ancestor)
      shallower than n, or at none; a new section below it is at depth n
      when the current section is at least that deep, and one deeper than
      the current section otherwise. */
  lemma {:induction false} ClimbLevel(parent: map<nat, nat>, cur: Option<nat>, n: int)
    requires ParentsDescend(parent) && n >= 1
    ensures var up := Climb(parent, cur, n);
      && (up.Some? ==> Level(parent, up.value) < n)
      && (up.Some? ==> cur.Some? && up.value in Chain(parent, cur.value))
      && LevelUnder(parent, up) ==
           (if cur.None? then 1
            else if Level(parent, cur.value) + 1 <= n then Level(parent, cur.value) + 1
            else n)
    decreases if cur.Some? then cur.value + 1 else 0
  {
    if cur.Some? && n <= Level(parent, cur.value) {
      var next := if cur.value in parent then Some(parent[cur.value]) else None;
      ClimbLevel(parent, next, n);
      if next.Some? {
        assert Chain(parent, cur.value) == [cur.value] + Chain(parent, next.value);
      }
    }
  }

  // -----------------------------------------------------------------------
  // The walk's state and what each event does to it.

  /** The closure's variables: the sections and pages created so far, the
      parent links set at creation, root, currentSection and
      currentPage. */
  datatype ParseState = ParseState(
    pages: seq<Page>,
    sections: seq<Section>,
    parent: map<nat, nat>,
    root: Option<nat>,
    currentSection: Option<nat>,
    currentPage: Option<nat>)

  predicate InRange(o: Option<nat>, n: nat) {
    o.Some? ==> o.value < n
  }

  /** Children after parents in both arenas, parents before children, and
      the three cursors pointing at existing sections and pages. */
  predicate ValidState(st: ParseState) {
    && Arena(st.pages, st.sections)
    && ParentsDescend(st.parent)
    && (forall x :: x in st.parent ==> x < |st.sections|)
    && InRange(st.root, |st.sections|)
    && InRange(st.currentSection, |st.sections|)
    && InRange(st.currentPage, |st.pages|)
    && (st.currentPage.Some? ==> st.currentSection.Some?)
  }

  const Start := ParseState([], [], map[], None, None, None)

  /** The sections with a new child appended to section up, if any. */
  function AddChild(sections: seq<Section>, up: Option<nat>, child: nat): (r: seq<Section>)
    requires InRange(up, |sections|)
    ensures |r| == |sections|
  {
    if up.None? then sections
    else sections[up.value := sections[up.value].(children := sections[up.value].children + [child])]
  }

  /** A heading (navsitemap.go:29-53). */
  function OnHeading(st: ParseState, level: int, text: string): (r: ParseState)
    requires ValidState(st)
    ensures ValidState(r)
    ensures level >= 2 ==> r.currentSection.Some?
    ensures CanLink(st) ==> CanLink(r)
  {
    if level == 1 then st
    else
      var n := |st.sections|;
      if st.root.None? && level == 2 then
        st.(sections := st.sections + [Section(text, [], None)], root := Some(n),
            currentSection := Some(n), currentPage := None)
      else if level >= 2 then
        var up := Climb(st.parent, st.currentSection, level - 1);
        ClimbInRange(st, level - 1);
        var sections := AddChild(st.sections, up, n) + [Section(text, [], None)];
        assert Arena(st.pages, sections) by {
          AddChildOrdered(st.pages, st.sections, up, n, text);
        }
        st.(sections := sections,
            parent := if up.Some? then st.parent[n := up.value] else st.parent,
            currentSection := Some(n), currentPage := None)
      else
        st.(currentPage := None)
  }

  lemma ClimbInRange(st: ParseState, n: int)
    requires ValidState(st)
    ensures InRange(Climb(st.parent, st.currentSection, n), |st.sections|)
  {
    ClimbStays(st.parent, st.currentSection, n, |st.sections|);
  }

  lemma {:induction false} ClimbStays(parent: map<nat, nat>, cur: Option<nat>, n: int, bound: nat)
    requires ParentsDescend(parent) && InRange(cur, bound)
    ensures InRange(Climb(parent, cur, n), bound)
    decreases if cur.Some? then cur.value + 1 else 0
  {
    if cur.Some? && n <= Level(parent, cur.value) {
      ClimbStays(parent, if cur.value in parent then Some(parent[cur.value]) else None, n, bound);
    }
  }

  lemma AddChildOrdered(pages: seq<Page>, sections: seq<Section>, up: Option<nat>, n: nat, text: string)
    requires Arena(pages, sections) && InRange(up, |sections|) && n == |sections|
    ensures Arena(pages, AddChild(sections, up, n) + [Section(text, [], None)])
  {
    var r := AddChild(sections, up, n) + [Section(text, [], None)];
    forall i, j | 0 <= i < |r| && 0 <= j < |r[i].children|
      ensures i < r[i].children[j] < |r|
    {
      if i < n && up == Some(i) && j == |sections[i].children| {
        assert r[i].children[j] == n;
      } else if i < n {
        assert r[i].children[j] == sections[i].children[j];
      }
    }
  }

  /** The title of a linked page: the link title, or the link text when
      the title is empty. */
  function PageTitle(title: string, text: string): (r: string)
    ensures title != "" ==> r == title
    ensures title == "" ==> r == text
  {
    if title == "" then text else title
  }

  /** The page a link item creates (navsitemap.go:59-69). */
  function NewPage(dir: string, title: string, text: string, dest: string): Page {
    Page(PageTitle(title, text),
         Paths.Join(dir, TrimSuffix(dest, ".md") + ".html"),
         Paths.Join("pages", Paths.Join(dir, dest)),
         [])
  }

  /** A link item is attached only once a section exists to take it. */
  predicate CanLink(st: ParseState) {
    st.currentPage.Some? || st.currentSection.Some?
  }

  /** A link item (navsitemap.go:55-78): the first after a heading becomes
      the section's page, each later one a child of the page before it. */
  function OnLink(st: ParseState, dir: string, title: string, text: string, dest: string): (r: ParseState)
    requires ValidState(st) && CanLink(st)
    ensures ValidState(r) && CanLink(r)
    ensures |r.sections| == |st.sections| && |r.pages| == |st.pages| + 1 && r.root == st.root
  {
    var m := |st.pages|;
    var page := NewPage(dir, title, text, dest);
    if st.currentPage.None? then
      var s := st.currentSection.value;
      var sections := st.sections[s := st.sections[s].(page := Some(m))];
      assert Arena(st.pages + [page], sections) by {
        PagesPush(st.pages, page);
        SectionPageSet(st.pages, st.sections, s);
      }
      st.(pages := st.pages + [page], sections := sections, currentPage := Some(m))
    else
      var q := st.currentPage.value;
      var pages := st.pages[q := st.pages[q].(children := st.pages[q].children + [m])] + [page];
      assert Arena(pages, st.sections) by {
        PageChildPush(st.pages, q, page);
        SectionsGrow(st.sections, m);
      }
      st.(pages := pages, currentPage := Some(m))
  }

  /** Appending a page without children keeps the page arena ordered. */
  lemma PagesPush(pages: seq<Page>, page: Page)
    requires PagesOrdered(pages) && page.children == []
    ensures PagesOrdered(pages + [page])
  {
    var ps := pages + [page];
    forall i, j | 0 <= i < |ps| && 0 <= j < |ps[i].children| ensures i < ps[i].children[j] < |ps| {
      assert ps[i] == pages[i];
    }
  }

  /** Appending a childless page as the last child of page q keeps the page
      arena ordered. */
  lemma PageChildPush(pages: seq<Page>, q: nat, page: Page)
    requires PagesOrdered(pages) && q < |pages| && page.children == []
    ensures PagesOrdered(pages[q := pages[q].(children := pages[q].children + [|pages|])] + [page])
  {
    var m := |pages|;
    var ps := pages[q := pages[q].(children := pages[q].children + [m])] + [page];
    forall i, j | 0 <= i < |ps| && 0 <= j < |ps[i].children| ensures i < ps[i].children[j] < |ps| {
      if i == q && j == |pages[q].children| {
      } else {
        assert i < m;
        assert ps[i].children[j] == pages[i].children[j];
      }
    }
  }

  /** A page arena that grows by one keeps every section's page in it. */
  lemma SectionsGrow(sections: seq<Section>, n: nat)
    requires SectionsOrdered(sections, n)
    ensures SectionsOrdered(sections, n + 1)
  {
  }

  /** Giving section s the page appended next keeps the sections ordered
      against the grown page arena. */
  lemma SectionPageSet(pages: seq<Page>, sections: seq<Section>, s: nat)
    requires SectionsOrdered(sections, |pages|) && s < |sections|
    ensures SectionsOrdered(sections[s := sections[s].(page := Some(|pages|))], |pages| + 1)
  {
    var ss := sections[s := sections[s].(page := Some(|pages|))];
    forall i, j | 0 <= i < |ss| && 0 <= j < |ss[i].children| ensures i < ss[i].children[j] < |ss| {
      assert ss[i].children == sections[i].children;
    }
  }

  /** Every link item in the events comes after a heading that creates a
      section (the walk dereferences currentSection otherwise). */
  predicate HeadingFirst(events: seq<Event>) {
    forall i :: 0 <= i < |events| && events[i].LinkItem? ==>
      exists j :: 0 <= j < i && events[j].Heading? && events[j].level >= 2
  }

  /** One event. */
  function Step(st: ParseState, dir: string, e: Event): (r: ParseState)
    requires ValidState(st) && (e.LinkItem? ==> CanLink(st))
    ensures ValidState(r)
    ensures CanLink(st) ==> CanLink(r)
  {
    match e
    case Heading(level, text) => OnHeading(st, level, text)
    case LinkItem(title, text, dest) => OnLink(st, dir, title, text, dest)
  }

  /** The state after a run of events. */
  function Run(st: ParseState, dir: string, events: seq<Event>): (r: ParseState)
    requires ValidState(st)
    requires CanLink(st) || HeadingFirst(events)
    ensures ValidState(r)
    ensures CanLink(st) ==> CanLink(r)
    decreases |events|
  {
    if events == [] then st
    else
      NoLinkFirst(events);
      var next := Step(st, dir, events[0]);
      HeadingFirstStep(st, dir, events);
      Run(next, dir, events[1..])
  }

  /** The first event of a run whose links all follow a heading is no link. */
  lemma NoLinkFirst(events: seq<Event>)
    requires events != []
    ensures HeadingFirst(events) ==> !events[0].LinkItem?
  {
  }

  lemma HeadingFirstStep(st: ParseState, dir: string, events: seq<Event>)
    requires ValidState(st) && events != [] && (CanLink(st) || HeadingFirst(events))
    requires events[0].LinkItem? ==> CanLink(st)
    ensures CanLink(Step(st, dir, events[0])) || HeadingFirst(events[1..])
  {
    if !CanLink(st) && !(events[0].Heading? && events[0].level >= 2) {
      var rest := events[1..];
      forall i | 0 <= i < |rest| && rest[i].LinkItem?
        ensures exists j :: 0 <= j < i && rest[j].Heading? && rest[j].level >= 2
      {
        assert events[i + 1].LinkItem?;
        var j :| 0 <= j < i + 1 && events[j].Heading? && events[j].level >= 2;
        assert rest[j - 1] == events[j];
      }
    }
  }

  // -----------------------------------------------------------------------
  // What the walk does.

  /** A level-1 heading changes nothing, not even the current page. */
  lemma TitleHeadingIgnored(st: ParseState, text: string)
    requires ValidState(st)
    ensures OnHeading(st, 1, text) == st
  {
  }

  /** Every other heading forgets the current page and keeps the pages. */
  lemma HeadingResetsPage(st: ParseState, level: int, text: string)
    requires ValidState(st) && level != 1
    ensures OnHeading(st, level, text).currentPage == None
    ensures OnHeading(st, level, text).pages == st.pages
  {
  }

  /** The first level-2 heading creates the root: a new section with that
      title, without a parent, attached to nothing, and current. */
  lemma FirstLevelTwoIsRoot(st: ParseState, text: string)
    requires ValidState(st) && st.root.None?
    ensures var r := OnHeading(st, 2, text);
      var n := |st.sections|;
      && r.root == Some(n) && r.currentSection == Some(n)
      && r.sections == st.sections + [Section(text, [], None)]
      && r.parent == st.parent
  {
  }

  /** Once there is a root, no event changes it. */
  lemma RootKept(st: ParseState, dir: string, e: Event)
    requires ValidState(st) && (e.LinkItem? ==> CanLink(st)) && st.root.Some?
    ensures Step(st, dir, e).root == st.root
  {
  }

  /** A later level-2 heading climbs past every section: its section gets
      no parent and becomes nobody's child, so it is not under the root. */
  lemma LaterLevelTwoDetached(st: ParseState, text: string)
    requires ValidState(st) && st.root.Some?
    ensures var r := OnHeading(st, 2, text);
      var n := |st.sections|;
      && r.sections == st.sections + [Section(text, [], None)]
      && n !in r.parent && r.parent == st.parent
      && r.currentSection == Some(n)
  {
    ClimbLevel(st.parent, st.currentSection, 1);
  }

  /** The level of an existing section is not changed by giving a parent to
      a section created after it. */
  lemma {:induction false} LevelKept(parent: map<nat, nat>, n: nat, v: nat, s: nat)
    requires ParentsDescend(parent) && v < n && s < n
    requires forall x :: x in parent ==> x < n
    ensures ParentsDescend(parent[n := v])
    ensures Level(parent[n := v], s) == Level(parent, s)
    decreases s
  {
    if s in parent {
      LevelKept(parent, n, v, parent[s]);
    }
  }

  /** A heading of level L >= 2 that does not create the root makes a new
      section at depth L-1 when the current section is at least that deep,
      and one deeper than the current section otherwise; it is the last
      child of its parent, which is the current section or an ancestor of
      it. */
  lemma NewSectionPlacement(st: ParseState, level: int, text: string)
    requires ValidState(st) && level >= 2 && !(st.root.None? && level == 2)
    ensures var r := OnHeading(st, level, text);
      var n := |st.sections|;
      && |r.sections| == n + 1 && r.sections[n] == Section(text, [], None)
      && r.currentSection == Some(n) && r.root == st.root
      && Level(r.parent, n) ==
           (if st.currentSection.None? then 1
            else if Level(st.parent, st.currentSection.value) + 1 <= level - 1
            then Level(st.parent, st.currentSection.value) + 1
            else level - 1)
      && (n in r.parent ==>
            && st.currentSection.Some?
            && r.parent[n] in Chain(st.parent, st.currentSection.value)
            && r.sections[r.parent[n]].children == st.sections[r.parent[n]].children + [n])
  {
    var n := |st.sections|;
    var up := Climb(st.parent, st.currentSection, level - 1);
    ClimbLevel(st.parent, st.currentSection, level - 1);
    ClimbInRange(st, level - 1);
    var parent := if up.Some? then st.parent[n := up.value] else st.parent;
    var sections := AddChild(st.sections, up, n) + [Section(text, [], None)];
    assert OnHeading(st, level, text) ==
      st.(sections := sections, parent := parent, currentSection := Some(n), currentPage := None);
    if up.Some? {
      LevelKept(st.parent, n, up.value, up.value);
      assert Level(parent, n) == Level(parent, up.value) + 1;
      assert sections[up.value].children == st.sections[up.value].children + [n];
    } else {
      assert n !in st.parent;
    }
  }

  /** The first link after a heading becomes the current section's page;
      each later one is appended to the children of the page before it.
      Either way the new page is current. */
  lemma LinkPlacement(st: ParseState, dir: string, title: string, text: string, dest: string)
    requires ValidState(st) && CanLink(st)
    ensures var r := OnLink(st, dir, title, text, dest);
      var m := |st.pages|;
      && |r.pages| == m + 1 && r.pages[m] == NewPage(dir, title, text, dest)
      && r.currentPage == Some(m) && r.currentSection == st.currentSection && r.root == st.root
      && (st.currentPage.None? ==>
            r.sections[st.currentSection.value].page == Some(m) && r.pages[..m] == st.pages)
      && (st.currentPage.Some? ==>
            && r.sections == st.sections
            && r.pages[st.currentPage.value].children == st.pages[st.currentPage.value].children + [m])
  {
  }

  /** The page a link creates: titled by the link title or, failing that,
      its text; its URL is the destination with ".md" replaced by ".html",
      joined to the sitemap's directory. */
  lemma NewPageFields(dir: string, title: string, text: string, dest: string)
    ensures var p := NewPage(dir, title, text, dest);
      && p.title == (if title != "" then title else text)
      && p.url == Paths.Join(dir, TrimSuffix(dest, ".md") + ".html")
      && p.children == []
  {
  }

  /** The number of events of each kind that create something. */
  function SectionHeadings(events: seq<Event>): nat {
    if events == [] then 0
    else (if events[0].Heading? && events[0].level >= 2 then 1 else 0) + SectionHeadings(events[1..])
  }

  function LinkItems(events: seq<Event>): nat {
    if events == [] then 0 else (if events[0].LinkItem? then 1 else 0) + LinkItems(events[1..])
  }

  predicate HasLevelTwo(events: seq<Event>) {
    exists i :: 0 <= i < |events| && events[i].Heading? && events[i].level == 2
  }

  lemma HasLevelTwoCons(events: seq<Event>)
    requires events != []
    ensures HasLevelTwo(events) <==>
      (events[0].Heading? && events[0].level == 2) || HasLevelTwo(events[1..])
  {
    if HasLevelTwo(events[1..]) {
      var i :| 0 <= i < |events[1..]| && events[1..][i].Heading? && events[1..][i].level == 2;
      assert events[i + 1] == events[1..][i];
    }
    if HasLevelTwo(events) && !(events[0].Heading? && events[0].level == 2) {
      var i :| 0 <= i < |events| && events[i].Heading? && events[i].level == 2;
      assert events[1..][i - 1] == events[i];
    }
  }

  /** What one event adds: a section for a heading below level 1, a page
      for a link, and a root for the first level-2 heading. */
  lemma StepCounts(st: ParseState, dir: string, e: Event)
    requires ValidState(st) && (e.LinkItem? ==> CanLink(st))
    ensures var r := Step(st, dir, e);
      && |r.sections| == |st.sections| + (if e.Heading? && e.level >= 2 then 1 else 0)
      && |r.pages| == |st.pages| + (if e.LinkItem? then 1 else 0)
      && (r.root.Some? <==> st.root.Some? || (e.Heading? && e.level == 2))
      && (st.root.Some? ==> r.root == st.root)
  {
    match e
    case Heading(level, text) => HeadingCounts(st, level, text);
    case LinkItem(_, _, _) =>
  }

  lemma HeadingCounts(st: ParseState, level: int, text: string)
    requires ValidState(st)
    ensures var r := OnHeading(st, level, text);
      && |r.sections| == |st.sections| + (if level >= 2 then 1 else 0)
      && r.pages == st.pages
      && (r.root.Some? <==> st.root.Some? || level == 2)
      && (st.root.Some? ==> r.root == st.root)
  {
  }

  /** Every heading below level 1 creates one section and every link one
      page; a root exists at the end exactly when there was one before or
      some level-2 heading occurred, and an existing root is kept. */
  lemma {:induction false} RunCounts(st: ParseState, dir: string, events: seq<Event>)
    requires ValidState(st) && (CanLink(st) || HeadingFirst(events))
    ensures var r := Run(st, dir, events);
      && |r.sections| == |st.sections| + SectionHeadings(events)
      && |r.pages| == |st.pages| + LinkItems(events)
      && (r.root.Some? <==> st.root.Some? || HasLevelTwo(events))
      && (st.root.Some? ==> r.root == st.root)
    decreases |events|
  {
    if events != [] {
      NoLinkFirst(events);
      HeadingFirstStep(st, dir, events);
      var next := Step(st, dir, events[0]);
      StepCounts(st, dir, events[0]);
      RunCounts(next, dir, events[1..]);
      HasLevelTwoCons(events);
      assert Run(st, dir, events) == Run(next, dir, events[1..]);
    }
  }

  // -----------------------------------------------------------------------
  // The walk as the source does it: a builder updated event by event.

  class SitemapBuilder {
    var pages: seq<Page>
    var sections: seq<Section>
    var parent: map<nat, nat>
    var root: Option<nat>
    var currentSection: Option<nat>
    var currentPage: Option<nat>
    const dir: string

    function State(): ParseState
      reads this
    {
      ParseState(pages, sections, parent, root, currentSection, currentPage)
    }

    constructor (dir: string)
      ensures State() == Start && this.dir == dir
    {
      this.dir := dir;
      pages, sections, parent := [], [], map[];
      root, currentSection, currentPage := None, None, None;
    }

    /** The heading case of the walk callback. */
    method Heading(level: int, text: string)
      requires ValidState(State())
      modifies this
      ensures State() == OnHeading(old(State()), level, text)
    {
      if level == 1 {
        return;
      }
      var n := |sections|;
      if root.None? && level == 2 {
        sections := sections + [Section(text, [], None)];
        root := Some(n);
        currentSection := root;
      } else if level >= 2 {
        var newSectionLevel := level - 1;
        var cur: Option<nat> := currentSection;
        while cur.Some? && newSectionLevel <= Level(parent, cur.value)
          invariant Climb(parent, cur, newSectionLevel) == Climb(parent, currentSection, newSectionLevel)
          decreases if cur.Some? then cur.value + 1 else 0
        {
          cur := if cur.value in parent then Some(parent[cur.value]) else None;
        }
        ClimbInRange(State(), newSectionLevel);
        if cur.Some? {
          parent := parent[n := cur.value];
          sections := sections[cur.value := sections[cur.value].(children := sections[cur.value].children + [n])];
        }
        sections := sections + [Section(text, [], None)];
        currentSection := Some(n);
      }
      currentPage := None;
    }

    /** The list-item case of the walk callback, for an item holding a link. */
    method LinkItem(title: string, text: string, dest: string)
      requires ValidState(State()) && CanLink(State())
      modifies this
      ensures State() == OnLink(old(State()), dir, title, text, dest)
    {
      var t := title;
      if t == "" {
        t := text;
      }
      var url := Paths.Join(dir, TrimSuffix(dest, ".md") + ".html");
      var contentPath := Paths.Join("pages", Paths.Join(dir, dest));
      var page := Page(t, url, contentPath, []);
      var m := |pages|;
      if currentPage.None? {
        var s := currentSection.value;
        sections := sections[s := sections[s].(page := Some(m))];
      } else {
        var q := currentPage.value;
        pages := pages[q := pages[q].(children := pages[q].children + [m])];
      }
      pages := pages + [page];
      currentPage := Some(m);
    }
  }

  /** ParseSitemap: the root section and the arenas holding what was
      built. The error it returns is always nil and is not modelled. */
  method ParseSitemap(currentPath: string, events: seq<Event>)
    returns (root: Option<nat>, pages: seq<Page>, sections: seq<Section>, parent: map<nat, nat>)
    requires HeadingFirst(events)
    ensures var st := Run(Start, Paths.Dir(currentPath), events);
      root == st.root && pages == st.pages && sections == st.sections && parent == st.parent
    ensures Arena(pages, sections) && ParentsDescend(parent)
    ensures root.Some? <==> HasLevelTwo(events)
    ensures |sections| == SectionHeadings(events) && |pages| == LinkItems(events)
  {
    var b := new SitemapBuilder(Paths.Dir(currentPath));
    for i := 0 to |events|
      invariant ValidState(b.State()) && (CanLink(b.State()) || HeadingFirst(events[i..]))
      invariant Run(Start, b.dir, events) == Run(b.State(), b.dir, events[i..])
    {
      ghost var before := b.State();
      assert events[i..][0] == events[i] && events[i..][1..] == events[i + 1..];
      NoLinkFirst(events[i..]);
      HeadingFirstStep(before, b.dir, events[i..]);
      match events[i]
      case Heading(level, text) =>
        b.Heading(level, text);
      case LinkItem(title, text, dest) =>
        b.LinkItem(title, text, dest);
      assert b.State() == Step(before, b.dir, events[i]);
      assert Run(before, b.dir, events[i..]) == Run(b.State(), b.dir, events[i + 1..]);
    }
    assert events[|events|..] == [];
    root, pages, sections, parent := b.root, b.pages, b.sections, b.parent;
    RunCounts(Start, Paths.Dir(currentPath), events);
  }
}
