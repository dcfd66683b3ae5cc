/** The dashboard sidebar: a fixed menu per role, the rule that marks the
    current page's link, and the footer that names the portal. */
module Sidebar {
  import opened Types
  import opened Strings

  datatype NavLink = NavLink(href: string, text: string)

  const AdminLinks: seq<NavLink> := [
    NavLink("/admin/dashboard", "Overview"),
    NavLink("/admin/tickets", "Ticket CRM"),
    NavLink("/admin/users", "Customers"),
    NavLink("/admin/payments", "Payments")
  ]

  const CustomerLinks: seq<NavLink> := [
    NavLink("/dashboard", "Home"),
    NavLink("/dashboard/tickets", "My Tickets"),
    NavLink("/dashboard/billing", "Billing")
  ]

  const AdminPrefix: string := "/admin/"

  /** No two links of a menu share an href. */
  predicate DistinctHrefs(links: seq<NavLink>)
  {
    forall i, j :: 0 <= i < j < |links| ==> links[i].href != links[j].href
  }

  /** The menu for a role: admins get the four admin pages, which all live
      under `/admin/`; customers get their three pages, none of which does.
      Either way no href repeats. */
  function LinksFor(role: Role): (links: seq<NavLink>)
    ensures role == Admin ==> |links| == 4
    ensures role == Customer ==> |links| == 3
    ensures forall i :: 0 <= i < |links| ==> (StartsWith(links[i].href, AdminPrefix) <==> role == Admin)
    ensures DistinctHrefs(links)
  {
    if role == Admin then
      AdminLinks
    else
      assert CustomerLinks[0].href[1] != AdminPrefix[1];
      assert CustomerLinks[1].href[1] != AdminPrefix[1];
      assert CustomerLinks[2].href[1] != AdminPrefix[1];
      CustomerLinks
  }

  /** The menus entry by entry, in display order. */
  lemma MenuTables()
    ensures LinksFor(Admin) == [
      NavLink("/admin/dashboard", "Overview"), NavLink("/admin/tickets", "Ticket CRM"),
      NavLink("/admin/users", "Customers"), NavLink("/admin/payments", "Payments")]
    ensures LinksFor(Customer) == [
      NavLink("/dashboard", "Home"), NavLink("/dashboard/tickets", "My Tickets"),
      NavLink("/dashboard/billing", "Billing")]
  {
  }

  /** A link is highlighted when the current path is exactly its href. */
  predicate IsActive(pathname: string, link: NavLink)
  {
    pathname == link.href
  }

  /** The highlighted links of a menu, in menu order: exactly the menu's links
      whose href is the current path. */
  function ActiveLinks(links: seq<NavLink>, pathname: string): (active: seq<NavLink>)
    ensures |active| <= |links|
    ensures forall l :: l in active <==> l in links && IsActive(pathname, l)
    ensures active == [] <==> forall i :: 0 <= i < |links| ==> !IsActive(pathname, links[i])
    decreases |links|
  {
    if links == [] then []
    else
      assert links == [links[0]] + links[1..];
      (if IsActive(pathname, links[0]) then [links[0]] else []) + ActiveLinks(links[1..], pathname)
  }

  /** In a menu without repeated hrefs at most one link is highlighted. */
  lemma {:induction false} AtMostOneActive(links: seq<NavLink>, pathname: string)
    requires DistinctHrefs(links)
    ensures |ActiveLinks(links, pathname)| <= 1
    decreases |links|
  {
    if links != [] {
      var rest := links[1..];
      assert DistinctHrefs(rest) by {
        forall i, j | 0 <= i < j < |rest| ensures rest[i].href != rest[j].href {
          assert rest[i] == links[i + 1] && rest[j] == links[j + 1];
        }
      }
      AtMostOneActive(rest, pathname);
      if IsActive(pathname, links[0]) {
        forall k | 0 <= k < |rest| ensures !IsActive(pathname, rest[k]) {
          assert rest[k] == links[k + 1];
        }
      }
    }
  }

  /** Whatever the role and path, the sidebar highlights at most one link, and
      it highlights one exactly when the path is one of the menu's hrefs. */
  lemma SidebarHighlight(role: Role, pathname: string)
    ensures |ActiveLinks(LinksFor(role), pathname)| <= 1
    ensures ActiveLinks(LinksFor(role), pathname) != []
            <==> exists i :: 0 <= i < |LinksFor(role)| && LinksFor(role)[i].href == pathname
  {
    AtMostOneActive(LinksFor(role), pathname);
  }

  /** Matching is exact, not by prefix: a page below a menu entry, such as a
      single ticket under `/dashboard/tickets`, highlights nothing. */
  lemma SubpageNotActive()
    ensures ActiveLinks(LinksFor(Customer), "/dashboard/tickets/x") == []
  {
    var links := LinksFor(Customer);
    assert forall i :: 0 <= i < |links| ==> |links[i].href| < |"/dashboard/tickets/x"|;
  }

  /** The footer: the role upper-cased, then ` Portal`. */
  function FooterLabel(role: Role): (footer: string)
    ensures |footer| == |RoleName(role)| + 7
    ensures footer[|RoleName(role)|..] == " Portal"
    ensures forall i :: 0 <= i < |RoleName(role)| ==> 'A' <= footer[i] <= 'Z'
    ensures ToLower(footer[..|RoleName(role)|]) == RoleName(role)
  {
    var name := RoleName(role);
    assert LowerAscii(name);
    ToLowerToUpper(name);
    var footer := ToUpper(name) + " Portal";
    assert footer[..|name|] == ToUpper(name);
    footer
  }

  /** The footer spells the role out in capitals, so different roles get
      different footers. */
  lemma FooterLabelSpelling()
    ensures FooterLabel(Admin) == "ADMIN Portal"
    ensures FooterLabel(Customer) == "CUSTOMER Portal"
  {
  }
}
