/** The dashboard's navigation: the table of links and the rule that
    highlights the current one. Icons are not part of the model. */
module Sidebar {
  import opened Text

  datatype NavItem = NavItem(name: string, href: string)

  const Navigation: seq<NavItem> := [
    NavItem("Dashboard", "/dashboard"),
    NavItem("Employees", "/dashboard/employees"),
    NavItem("ID Cards", "/dashboard/cards"),
    NavItem("Templates", "/dashboard/templates"),
    NavItem("Settings", "/dashboard/settings"),
    NavItem("Upload Photos", "/dashboard/upload-photo")
  ]

  /** `pathname === item.href || pathname.startsWith(item.href + "/")`. */
  predicate IsActive(pathname: string, href: string)
    ensures IsActive(pathname, href) ==> StartsWith(pathname, href)
    ensures pathname == href ==> IsActive(pathname, href)
  {
    pathname == href || StartsWith(pathname, href + "/")
  }

  /** A path extending the link is active exactly when the extension starts
      with "/". */
  lemma {:induction false} ActiveNeedsSlash(href: string, rest: string)
    requires rest != []
    ensures IsActive(href + rest, href) <==> rest[0] == '/'
  {
    var p := href + rest;
    if StartsWith(p, href + "/") {
      assert p[|href|] == (href + "/")[|href|];
    }
    if rest[0] == '/' {
      assert p[..|href| + 1] == href + "/";
    }
  }

  /** A link below another link's path activates both. */
  lemma {:induction false} NestedLinksAreBothActive(pathname: string, href: string, parent: string)
    requires IsActive(pathname, href) && StartsWith(href, parent + "/")
    ensures IsActive(pathname, parent)
  {
    assert pathname[..|parent + "/"|] == href[..|parent + "/"|];
  }

  /** Six links, no two with the same name or the same target. */
  lemma {:induction false} NavigationIsWellFormed()
    ensures |Navigation| == 6
    ensures forall i, j :: 0 <= i < j < |Navigation| ==> Navigation[i].name != Navigation[j].name
    ensures forall i, j :: 0 <= i < j < |Navigation| ==> Navigation[i].href != Navigation[j].href
  {
    var n := Navigation;
    assert n[0].name[0] == 'D' && n[1].name[0] == 'E' && n[2].name[0] == 'I';
    assert n[3].name[0] == 'T' && n[4].name[0] == 'S' && n[5].name[0] == 'U';
    assert |n[0].href| == 10 && n[1].href[11] == 'e' && n[2].href[11] == 'c';
    assert n[3].href[11] == 't' && n[4].href[11] == 's' && n[5].href[11] == 'u';
  }

  /** The "/" boundary is required: "/dashboard/employeesX" does not
      highlight "/dashboard/employees". */
  lemma {:induction false} BoundaryIsRequired(href: string, pathname: string)
    requires href == Navigation[1].href && pathname == href + "X"
    ensures !IsActive(pathname, href)
  {
    ActiveNeedsSlash(href, "X");
  }

  /** The "/dashboard" link is highlighted on every page below it, so on
      such a page two links are highlighted at once. */
  lemma {:induction false} DashboardStaysActive(pathname: string, i: nat)
    requires 1 <= i < |Navigation| && IsActive(pathname, Navigation[i].href)
    ensures IsActive(pathname, Navigation[0].href)
  {
    var parent := Navigation[0].href;
    assert StartsWith(Navigation[i].href, parent + "/") by {
      assert Navigation[i].href[..11] == "/dashboard/";
    }
    NestedLinksAreBothActive(pathname, Navigation[i].href, parent);
  }
}
