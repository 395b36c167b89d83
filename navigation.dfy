/** The href and path logic around the navigation links: which links the
    scroll-spy highlights for a section, which element a smooth-scroll click
    targets and where it scrolls to, and which links `initApp` marks as the
    current page. */
module Navigation {
  import opened Wrappers

  /** `s` begins with `prefix`. */
  predicate StartsWith(s: string, prefix: string) {
    |prefix| <= |s| && s[..|prefix|] == prefix
  }

  /** The scroll-spy test: the link's `href` is `#id` or `/#id`. A link
      without an `href` attribute never matches. */
  predicate SpyMatches(href: Option<string>, id: string) {
    href == Some("#" + id) || href == Some("/#" + id)
  }

  /** The selector `a[href^="#"], a[href^="/#"]`, on the anchor's href. */
  predicate IsInPageHref(href: string) {
    StartsWith(href, "#") || StartsWith(href, "/#")
  }

  /** `href.replace(/^\/?#/, '')`: drop one leading `#` or `/#`; any other
      href is left as it is. */
  function TargetId(href: string): (id: string)
    ensures IsInPageHref(href) ==> href == "#" + id || href == "/#" + id
    ensures !IsInPageHref(href) ==> id == href
  {
    if StartsWith(href, "/#") then href[2..]
    else if StartsWith(href, "#") then href[1..]
    else href
  }

  /** `Element.closest` for the in-page anchor selector: `path` lists the
      click target and then its ancestors, each with the `href` of the
      anchor it is (None when it is not an anchor with an href). */
  function ClosestInPageAnchor(path: seq<Option<string>>): (r: Option<string>)
    ensures r.Some? <==> exists k :: 0 <= k < |path| && path[k].Some? && IsInPageHref(path[k].value)
    ensures r.Some? ==> IsInPageHref(r.value) && Some(r.value) in path
    ensures r.Some? ==> exists k :: (0 <= k < |path| && path[k] == r &&
      forall j :: 0 <= j < k ==> !(path[j].Some? && IsInPageHref(path[j].value)))
  {
    if path == [] then None
    else if path[0].Some? && IsInPageHref(path[0].value) then path[0]
    else
      var r := ClosestInPageAnchor(path[1..]);
      assert forall k :: 0 < k < |path| ==> path[k] == path[1..][k - 1];
      r
  }

  /** The header offset smooth scrolling subtracts: the header's height, or
      80 pixels when the page has no header. */
  function HeaderOffset(headerHeight: Option<int>): int {
    match headerHeight
    case Some(h) => h
    case None => 80
  }

  /** What a click does to the viewport. */
  datatype ScrollRequest = NoScroll | ScrollTo(top: int)

  /** The `SmoothScroll` click listener. `elementTops` gives, for each
      element id on the page, that element's `getBoundingClientRect().top`;
      the result is the smooth scroll requested, if any (the default action
      is prevented exactly when one is). */
  function SmoothScrollClick(path: seq<Option<string>>, elementTops: map<string, int>,
                             pageYOffset: int, headerHeight: Option<int>): (r: ScrollRequest)
    ensures r.ScrollTo? ==>
      && ClosestInPageAnchor(path).Some?
      && var href := ClosestInPageAnchor(path).value;
         && href != "#" && href != "#!"
         && TargetId(href) != "" && TargetId(href) in elementTops
         && r.top == elementTops[TargetId(href)] + pageYOffset - HeaderOffset(headerHeight)
    ensures ClosestInPageAnchor(path).Some? ==>
      var href := ClosestInPageAnchor(path).value;
      href != "#" && href != "#!" && TargetId(href) != "" && TargetId(href) in elementTops ==>
        r == ScrollTo(elementTops[TargetId(href)] + pageYOffset - HeaderOffset(headerHeight))
  {
    match ClosestInPageAnchor(path)
    case None => NoScroll
    case Some(href) =>
      if href == "#" || href == "#!" then NoScroll
      else
        var id := TargetId(href);
        // getElementById("") finds no element
        if id != "" && id in elementTops then
          ScrollTo(elementTops[id] + pageYOffset - HeaderOffset(headerHeight))
        else NoScroll
  }

  /** The links the scroll-spy highlights for a section are exactly the
      in-page links whose target is that section. */
  lemma SpyMatchesIsTargetId(href: string, id: string)
    ensures SpyMatches(Some(href), id) <==> IsInPageHref(href) && TargetId(href) == id
  {
    if SpyMatches(Some(href), id) {
      assert StartsWith(href, "#") || StartsWith(href, "/#") by {
        if href == "#" + id { assert href[..1] == "#"; } else { assert href[..2] == "/#"; }
      }
      if href == "#" + id {
        assert !StartsWith(href, "/#") by { assert href[0] == '#'; }
        assert href[1..] == id;
      } else {
        assert href[2..] == id;
      }
    }
  }

  /** Clicking a link the scroll-spy highlights for a section scrolls to
      that section, offset by the header, unless the section id is empty or
      the href is exactly `#!` (which is ignored; `/#!` is not). */
  lemma ClickOnSpiedLinkScrollsToSection(href: string, id: string, elementTops: map<string, int>,
                                         pageYOffset: int, headerHeight: Option<int>)
    requires SpyMatches(Some(href), id)
    requires id != "" && href != "#!" && id in elementTops
    ensures SmoothScrollClick([Some(href)], elementTops, pageYOffset, headerHeight)
      == ScrollTo(elementTops[id] + pageYOffset - HeaderOffset(headerHeight))
  {
    SpyMatchesIsTargetId(href, id);
    assert href != "#" by {
      if href == "#" + id { assert |href| == 1 + |id|; } else { assert |href| == 2 + |id|; }
    }
  }

  /** Paths `/` and `/index.html` name the same page. */
  function CanonicalPath(p: string): string {
    if p == "/index.html" then "/" else p
  }

  /** The `initApp` test for the current page's link. */
  predicate IsCurrentPageLink(href: Option<string>, currentPath: string) {
    || href == Some(currentPath)
    || (currentPath == "/" && href == Some("/index.html"))
    || (currentPath == "/index.html" && href == Some("/"))
  }

  /** A link is the current page's exactly when its href and the current
      path are the same page once `/index.html` is read as `/`. */
  lemma CurrentPageIsSamePage(href: string, currentPath: string)
    ensures IsCurrentPageLink(Some(href), currentPath) <==> CanonicalPath(href) == CanonicalPath(currentPath)
  {
  }

  /** A navigation link: its `href` attribute, whether it sits inside
      `.navbar-nav`, its `active` class and its `aria-current` attribute. */
  datatype NavLink = NavLink(href: Option<string>, inNavbarNav: bool, active: bool, ariaCurrent: Option<string>)

  /** The link after the scroll-spy has seen section `id` intersect. */
  function Spied(l: NavLink, id: string): NavLink {
    if SpyMatches(l.href, id) then l.(active := true, ariaCurrent := Some("page"))
    else l.(active := false, ariaCurrent := None)
  }

  /** The link after `initApp` has compared it with the current path. */
  function MarkedCurrent(l: NavLink, currentPath: string): NavLink {
    if l.inNavbarNav && IsCurrentPageLink(l.href, currentPath) then
      l.(active := true, ariaCurrent := Some("page"))
    else l
  }

  /** An observer entry for a `section[id]`. */
  datatype SectionEntry = SectionEntry(id: string, isIntersecting: bool)

  /** The id of the last intersecting section among `entries`, if any. */
  function LastIntersecting(entries: seq<SectionEntry>): (r: Option<string>)
    ensures r.None? <==> forall k :: 0 <= k < |entries| ==> !entries[k].isIntersecting
    ensures r.Some? ==> exists k :: (0 <= k < |entries| && entries[k].isIntersecting &&
      entries[k].id == r.value && forall j :: k < j < |entries| ==> !entries[j].isIntersecting)
    decreases |entries|
  {
    if entries == [] then None
    else if entries[|entries| - 1].isIntersecting then Some(entries[|entries| - 1].id)
    else
      var r := LastIntersecting(entries[..|entries| - 1]);
      assert forall k :: 0 <= k < |entries| - 1 ==> entries[k] == entries[..|entries| - 1][k];
      r
  }

  /** The page's `.nav-link` elements, in document order. */
  class NavLinks {
    var links: seq<NavLink>

    constructor (links: seq<NavLink>)
      ensures this.links == links
    {
      this.links := links;
    }

    /** The scroll-spy step for section `id`: every link loses its mark,
        and exactly the links whose href is `#id` or `/#id` get `active`
        and `aria-current="page"`. */
    method Highlight(id: string)
      modifies this
      ensures |links| == |old(links)|
      ensures forall k :: 0 <= k < |links| ==> links[k] == Spied(old(links[k]), id)
      ensures forall k :: 0 <= k < |links| ==>
        (links[k].active <==> SpyMatches(links[k].href, id)) &&
        (links[k].ariaCurrent == if links[k].active then Some("page") else None)
    {
      var i := 0;
      while i < |links|
        invariant 0 <= i <= |links| == |old(links)|
        invariant forall k :: 0 <= k < i ==> links[k] == Spied(old(links[k]), id)
        invariant forall k :: i <= k < |links| ==> links[k] == old(links[k])
      {
        var link := links[i].(active := false, ariaCurrent := None);
        if SpyMatches(link.href, id) {
          link := link.(active := true, ariaCurrent := Some("page"));
        }
        links := links[i := link];
        i := i + 1;
      }
    }

    /** The scroll-spy observer callback: each intersecting entry, in turn,
        highlights its section, so the last one decides. */
    method OnSectionEntries(entries: seq<SectionEntry>)
      modifies this
      ensures |links| == |old(links)|
      ensures LastIntersecting(entries).None? ==> links == old(links)
      ensures LastIntersecting(entries).Some? ==>
        forall k :: 0 <= k < |links| ==> links[k] == Spied(old(links[k]), LastIntersecting(entries).value)
    {
      var i := 0;
      while i < |entries|
        invariant 0 <= i <= |entries|
        invariant |links| == |old(links)|
        invariant LastIntersecting(entries[..i]).None? ==> links == old(links)
        invariant LastIntersecting(entries[..i]).Some? ==>
          forall k :: 0 <= k < |links| ==> links[k] == Spied(old(links[k]), LastIntersecting(entries[..i]).value)
      {
        assert entries[..i + 1][..i] == entries[..i];
        if entries[i].isIntersecting {
          Highlight(entries[i].id);
        }
        i := i + 1;
      }
      assert entries[..i] == entries;
    }

    /** The `initApp` pass over `.navbar-nav .nav-link`: mark the current
        page's links; no mark is ever removed. */
    method MarkCurrentPage(currentPath: string)
      modifies this
      ensures |links| == |old(links)|
      ensures forall k :: 0 <= k < |links| ==> links[k] == MarkedCurrent(old(links[k]), currentPath)
      ensures forall k :: 0 <= k < |links| && old(links[k]).active ==> links[k].active
    {
      var i := 0;
      while i < |links|
        invariant 0 <= i <= |links| == |old(links)|
        invariant forall k :: 0 <= k < i ==> links[k] == MarkedCurrent(old(links[k]), currentPath)
        invariant forall k :: i <= k < |links| ==> links[k] == old(links[k])
      {
        if links[i].inNavbarNav && IsCurrentPageLink(links[i].href, currentPath) {
          links := links[i := links[i].(active := true, ariaCurrent := Some("page"))];
        }
        i := i + 1;
      }
    }
  }
}
