/** The mobile header: the page title it derives from the route, and its theme switch. */
module MobileHeader {
  import opened JsText

  /** The text after the last "/" of `s` (all of `s` when it has none):
      `s.split("/").pop() || ""`. */
  function LastSegment(s: string): (r: string)
    ensures '/' !in r
    ensures EndsWith(s, r)
    ensures r == s || s[|s| - |r| - 1] == '/'
    decreases |s|
  {
    if s == [] then ""
    else if s[|s| - 1] == '/' then ""
    else
      var init, c := s[..|s| - 1], s[|s| - 1];
      var r0 := LastSegment(init);
      SnocSuffix(init, r0, c);
      assert init + [c] == s;
      r0 + [c]
  }

  /** A suffix that starts the text or follows a "/" keeps doing so when one more
      character is appended to both. */
  lemma SnocSuffix(init: string, r0: string, c: char)
    requires EndsWith(init, r0)
    requires r0 == init || init[|init| - |r0| - 1] == '/'
    ensures EndsWith(init + [c], r0 + [c])
    ensures r0 + [c] == init + [c] || (init + [c])[|init| - |r0| - 1] == '/'
  {
    var s := init + [c];
    assert s[|s| - |r0| - 1..] == init[|init| - |r0|..] + [c];
  }

  /** `seg.charAt(0).toUpperCase() + seg.slice(1)` (ASCII case mapping). */
  function Capitalize(seg: string): (r: string)
    ensures |r| == |seg|
    ensures seg != [] ==> r[0] == UpperChar(seg[0]) && r[1..] == seg[1..]
  {
    if seg == [] then "" else [UpperChar(seg[0])] + seg[1..]
  }

  /** The prefixes checked after "/", in order, with their titles. */
  const Sections: seq<(string, string)> := [
    ("/forms", "Forms"),
    ("/admin/form-builder", "Form Builder"),
    ("/admin/form-responses", "Form Responses"),
    ("/admin/settings", "Settings"),
    ("/admin", "Admin"),
    ("/profile", "Profile"),
    ("/drafts", "Saved Drafts"),
    ("/assigned", "Assigned Forms")
  ]

  /** The position of the first section whose prefix the path starts with. */
  function FirstSection(path: string, sections: seq<(string, string)>): (r: Wrappers.Option<nat>)
    ensures r.Some? ==>
      r.value < |sections| && StartsWith(path, sections[r.value].0) &&
      forall j :: 0 <= j < r.value ==> !StartsWith(path, sections[j].0)
    ensures r.None? ==> forall j :: 0 <= j < |sections| ==> !StartsWith(path, sections[j].0)
    decreases |sections|
  {
    if sections == [] then Wrappers.None
    else if StartsWith(path, sections[0].0) then Wrappers.Some(0)
    else
      var rest := FirstSection(path, sections[1..]);
      if rest.None? then Wrappers.None else Wrappers.Some(rest.value + 1)
  }

  /** `getPageTitle` */
  function GetPageTitle(path: string): (title: string)
  {
    if path == "/" then "Home"
    else if StartsWith(path, "/forms") then "Forms"
    else if StartsWith(path, "/admin/form-builder") then "Form Builder"
    else if StartsWith(path, "/admin/form-responses") then "Form Responses"
    else if StartsWith(path, "/admin/settings") then "Settings"
    else if StartsWith(path, "/admin") then "Admin"
    else if StartsWith(path, "/profile") then "Profile"
    else if StartsWith(path, "/drafts") then "Saved Drafts"
    else if StartsWith(path, "/assigned") then "Assigned Forms"
    else Capitalize(LastSegment(path))
  }

  /** The title agrees with the section table read in order: "/" is Home, the
      first matching prefix decides, and otherwise the last segment is capitalised. */
  lemma PageTitleFirstMatch(path: string)
    ensures path == "/" ==> GetPageTitle(path) == "Home"
    ensures path != "/" && FirstSection(path, Sections).Some? ==>
      GetPageTitle(path) == Sections[FirstSection(path, Sections).value].1
    ensures path != "/" && FirstSection(path, Sections).None? ==>
      GetPageTitle(path) == Capitalize(LastSegment(path))
  {
    var f := FirstSection(path, Sections);
    if path != "/" {
      var k := if f.Some? then f.value else |Sections|;
      assert forall j :: 0 <= j < k ==> !StartsWith(path, Sections[j].0);
      TitleAtSection(path, k);
    }
  }

  /** When the first `k` sections do not match, the title is that of section `k`
      if it matches, or the fallback once all eight have failed. */
  lemma TitleAtSection(path: string, k: nat)
    requires path != "/" && k <= |Sections|
    requires forall j :: 0 <= j < k ==> !StartsWith(path, Sections[j].0)
    requires k < |Sections| ==> StartsWith(path, Sections[k].0)
    ensures k < |Sections| ==> GetPageTitle(path) == Sections[k].1
    ensures k == |Sections| ==> GetPageTitle(path) == Capitalize(LastSegment(path))
  {
    if k > 0 { assert !StartsWith(path, Sections[0].0); }
    if k > 1 { assert !StartsWith(path, Sections[1].0); }
    if k > 2 { assert !StartsWith(path, Sections[2].0); }
    if k > 3 { assert !StartsWith(path, Sections[3].0); }
    if k > 4 { assert !StartsWith(path, Sections[4].0); }
    if k > 5 { assert !StartsWith(path, Sections[5].0); }
    if k > 6 { assert !StartsWith(path, Sections[6].0); }
    if k > 7 { assert !StartsWith(path, Sections[7].0); }
  }

  /** A path that differs from `p` at position `k` does not start with `p`. */
  lemma NotPrefixAt(s: string, p: string, k: nat)
    requires k < |p| && (k >= |s| || s[k] != p[k])
    ensures !StartsWith(s, p)
  {
    if |p| <= |s| {
      assert s[..|p|][k] == s[k];
    }
  }

  /** The character a path shares with a prefix it starts with. */
  lemma PrefixChar(path: string, p: string, k: nat)
    requires StartsWith(path, p) && k < |p|
    ensures path[k] == p[k]
  {
    assert path[..|p|][k] == path[k];
  }

  lemma FormBuilderTitle(path: string)
    requires StartsWith(path, "/admin/form-builder")
    ensures GetPageTitle(path) == "Form Builder"
  {
    PrefixChar(path, "/admin/form-builder", 1);
    NotPrefixAt(path, "/forms", 1);
  }

  lemma FormResponsesTitle(path: string)
    requires StartsWith(path, "/admin/form-responses")
    ensures GetPageTitle(path) == "Form Responses"
  {
    PrefixChar(path, "/admin/form-responses", 1);
    PrefixChar(path, "/admin/form-responses", 12);
    NotPrefixAt(path, "/forms", 1);
    NotPrefixAt(path, "/admin/form-builder", 12);
  }

  lemma SettingsTitle(path: string)
    requires StartsWith(path, "/admin/settings")
    ensures GetPageTitle(path) == "Settings"
  {
    PrefixChar(path, "/admin/settings", 1);
    PrefixChar(path, "/admin/settings", 7);
    NotPrefixAt(path, "/forms", 1);
    NotPrefixAt(path, "/admin/form-builder", 7);
    NotPrefixAt(path, "/admin/form-responses", 7);
  }

  lemma AdminTitle(path: string)
    requires StartsWith(path, "/admin")
    requires !StartsWith(path, "/admin/form-builder") && !StartsWith(path, "/admin/form-responses")
    requires !StartsWith(path, "/admin/settings")
    ensures GetPageTitle(path) == "Admin"
  {
    PrefixChar(path, "/admin", 1);
    NotPrefixAt(path, "/forms", 1);
  }

  /** A specific admin page is named before the generic "/admin" test can claim it. */
  lemma AdminPagesBeforeAdmin(path: string)
    ensures StartsWith(path, "/admin/form-builder") ==> GetPageTitle(path) == "Form Builder"
    ensures StartsWith(path, "/admin/form-responses") ==> GetPageTitle(path) == "Form Responses"
    ensures StartsWith(path, "/admin/settings") ==> GetPageTitle(path) == "Settings"
    ensures (StartsWith(path, "/admin") && !StartsWith(path, "/admin/form-builder") &&
             !StartsWith(path, "/admin/form-responses") && !StartsWith(path, "/admin/settings"))
      ==> GetPageTitle(path) == "Admin"
  {
    if StartsWith(path, "/admin/form-builder") { FormBuilderTitle(path); }
    if StartsWith(path, "/admin/form-responses") { FormResponsesTitle(path); }
    if StartsWith(path, "/admin/settings") { SettingsTitle(path); }
    if StartsWith(path, "/admin") && !StartsWith(path, "/admin/form-builder") &&
       !StartsWith(path, "/admin/form-responses") && !StartsWith(path, "/admin/settings") {
      AdminTitle(path);
    }
  }

  /** Any path starting with "/forms" is "Forms", including "/forms-archive". */
  lemma FormsPrefixIsForms(path: string)
    requires StartsWith(path, "/forms")
    ensures GetPageTitle(path) == "Forms"
  {
    assert path != "/";
  }

  /** For a route outside the sections, a trailing "/" yields the empty title. */
  lemma {:induction false} TrailingSlashTitle(path: string)
    requires path != "/" && |path| > 0 && path[|path| - 1] == '/'
    requires FirstSection(path, Sections).None?
    ensures GetPageTitle(path) == ""
  {
    PageTitleFirstMatch(path);
  }

  /** The last segment is whatever follows the last "/". */
  lemma {:induction false} LastSegmentAfterSlash(s: string, t: string)
    requires '/' !in t
    ensures LastSegment(s + "/" + t) == t
    decreases |t|
  {
    var whole := s + "/" + t;
    if t != [] {
      assert whole[..|whole| - 1] == s + "/" + t[..|t| - 1];
      assert t[|t| - 1] in t;
      assert '/' !in t[..|t| - 1];
      LastSegmentAfterSlash(s, t[..|t| - 1]);
      assert t == t[..|t| - 1] + [t[|t| - 1]];
    }
  }

  /** Any route of one segment that no section claims is titled by that segment,
      capitalised. */
  lemma {:induction false} SingleSegmentTitle(path: string, seg: string)
    requires path == "/" + seg && seg != [] && '/' !in seg
    requires FirstSection(path, Sections).None?
    ensures GetPageTitle(path) == Capitalize(seg)
  {
    SingleSegmentLast(path, seg);
    PageTitleFirstMatch(path);
  }

  /** The last segment of "/" followed by a segment is that segment. */
  lemma SingleSegmentLast(path: string, seg: string)
    requires path == "/" + seg && seg != [] && '/' !in seg
    ensures path != "/" && LastSegment(path) == seg
  {
    assert [] + "/" + seg == path;
    LastSegmentAfterSlash([], seg);
  }

  /** An unknown one-segment route takes its own name capitalised: "/reports" is "Reports". */
  lemma {:induction false} UnknownRouteTitle(path: string)
    requires path == "/reports"
    ensures GetPageTitle(path) == "Reports"
  {
    NoSectionForReports(path);
    TitleAtSection(path, |Sections|);
    ReportsSegment(path);
  }

  /** The fallback title of "/reports". */
  lemma ReportsSegment(path: string)
    requires path == "/reports"
    ensures Capitalize(LastSegment(path)) == "Reports"
  {
    var seg := path[1..];
    assert path == [] + "/" + seg;
    assert '/' !in seg;
    LastSegmentAfterSlash([], seg);
    assert Capitalize(seg) == [UpperChar(seg[0])] + seg[1..];
  }

  /** No section prefix matches "/reports": each differs from it in the second character. */
  lemma NoSectionForReports(path: string)
    requires path == "/reports"
    ensures forall j :: 0 <= j < |Sections| ==> !StartsWith(path, Sections[j].0)
  {
    forall j | 0 <= j < |Sections| ensures !StartsWith(path, Sections[j].0) {
      assert Sections[j].0[1] in "fadp";
      NotPrefixAt(path, Sections[j].0, 1);
    }
  }

  /** The theme switch: dark becomes light and anything else becomes dark. */
  function ToggleTheme(theme: string): (r: string)
    ensures r == "iswDark" || r == "iswLight"
    ensures r != theme
    ensures r == "iswLight" <==> theme == "iswDark"
  {
    if theme == "iswDark" then "iswLight" else "iswDark"
  }
}
