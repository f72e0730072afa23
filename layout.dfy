/**
 * The page frame: the title shown for a path (the title table, then the
 * editor and session prefixes, then the app name), the navigation items with
 * the one matching the path exactly marked active, and the mobile menu.
 */
module Layout {
  import opened Text

  const PageTitles: map<string, string> :=
    map["/" := "HOME", "/exercises" := "EXERCISES", "/templates" := "WORKOUTS",
        "/workout" := "WORKOUT", "/history" := "HISTORY"]

  const AppTitle := "LIGHTWEIGHT"

  /** `getPageTitle`: an exact table entry, else "/templates/…" is a workout, "/sessions/…" a session, else the app name. */
  function PageTitle(pathname: string): (t: string)
    ensures t != ""
    ensures pathname in PageTitles ==> t == PageTitles[pathname]
    ensures pathname !in PageTitles ==> t in {"WORKOUT", "SESSION", AppTitle}
    ensures pathname !in PageTitles && !StartsWith(pathname, "/templates/") && !StartsWith(pathname, "/sessions/") ==> t == AppTitle
  {
    if pathname in PageTitles then PageTitles[pathname]
    else if StartsWith(pathname, "/templates/") then "WORKOUT"
    else if StartsWith(pathname, "/sessions/") then "SESSION"
    else AppTitle
  }

  /** Every path of the editor ("/templates/new", "/templates/<id>") is titled WORKOUT. */
  lemma EditorIsWorkout(rest: string)
    ensures PageTitle("/templates/" + rest) == "WORKOUT"
  {
    var p := "/templates/" + rest;
    assert p[..11] == "/templates/";
    assert p !in PageTitles by {
      assert |p| >= 11 && p[10] == '/';
    }
  }

  /** Every session detail path is titled SESSION. */
  lemma SessionIsSession(rest: string)
    ensures PageTitle("/sessions/" + rest) == "SESSION"
  {
    var p := "/sessions/" + rest;
    assert p[..10] == "/sessions/";
    assert p !in PageTitles by {
      assert |p| >= 10 && p[9] == '/';
    }
    assert !StartsWith(p, "/templates/") by {
      assert p[1] == 's';
    }
  }

  datatype NavItem = NavItem(path: string, caption: string, num: string)

  const NavItems: seq<NavItem> := [
    NavItem("/", "HOME", "01"),
    NavItem("/exercises", "EXERCISES", "02"),
    NavItem("/templates", "WORKOUTS", "03"),
    NavItem("/history", "HISTORY", "04")]

  /** An item is active when the path is exactly its path. */
  predicate IsActive(item: NavItem, pathname: string) {
    pathname == item.path
  }

  /** At most one item is active, and on an item's page the title is that item's caption. */
  lemma OneActiveItem(pathname: string, i: int, j: int)
    requires 0 <= i < |NavItems| && 0 <= j < |NavItems|
    requires IsActive(NavItems[i], pathname) && IsActive(NavItems[j], pathname)
    ensures i == j
    ensures PageTitle(pathname) == NavItems[i].caption
  {
  }

  /** Below an item's path nothing is active: the editor and session pages highlight no item. */
  lemma SubpagesActivateNothing(rest: string, i: int)
    requires 0 <= i < |NavItems|
    ensures !IsActive(NavItems[i], "/templates/" + rest)
    ensures !IsActive(NavItems[i], "/sessions/" + rest)
  {
    assert |"/templates/" + rest| >= 11 && ("/sessions/" + rest)[1] == 's' && ("/sessions/" + rest)[9] == '/';
  }

  /** The mobile menu. */
  class Menu {
    var open: bool

    constructor()
      ensures !open
    {
      open := false;
    }

    /** The hamburger button flips the menu. */
    method Toggle()
      modifies this
      ensures open == !old(open)
    {
      open := !open;
    }

    /** Choosing a link closes the menu and goes to the item's path. */
    method Choose(item: NavItem) returns (navigate: string)
      modifies this
      ensures !open && navigate == item.path
    {
      open := false;
      navigate := item.path;
    }
  }
}
