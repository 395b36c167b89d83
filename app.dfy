/** `initApp`: the page bootstrap, guarded by the page-level `initialized`
    flag so that a second call does nothing. Starting the components is
    counted; the one visible step it takes itself is marking the current
    page's navigation links. */
module App {
  import opened Navigation

  class Page {
    /** `window.__app.initialized`. */
    var initialized: bool
    /** How many times the components have been started. */
    var boots: nat

    /** The components have been started once if the flag is set and never
        otherwise. */
    ghost predicate Valid()
      reads this
    {
      boots == (if initialized then 1 else 0)
    }

    constructor ()
      ensures Valid() && !initialized
    {
      initialized := false;
      boots := 0;
    }

    /** `initApp`: on the first call set the flag, start the components and
        mark the current page's links; on later calls do nothing. */
    method InitApp(links: NavLinks, currentPath: string)
      requires Valid()
      modifies this, links
      ensures Valid() && initialized
      ensures old(initialized) ==> unchanged(this) && unchanged(links)
      ensures !old(initialized) ==>
        && |links.links| == |old(links.links)|
        && forall k :: 0 <= k < |links.links| ==>
             links.links[k] == MarkedCurrent(old(links.links[k]), currentPath)
    {
      if initialized {
        return;
      }
      initialized := true;
      boots := boots + 1;
      links.MarkCurrentPage(currentPath);
    }
  }

  /** Running the bootstrap twice starts the components once. */
  method InitTwice(links: NavLinks, currentPath: string) returns (p: Page)
    modifies links
    ensures p.boots == 1
  {
    p := new Page();
    p.InitApp(links, currentPath);
    p.InitApp(links, currentPath);
  }
}
