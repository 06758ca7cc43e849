/** The desktop header: active-link styling, its theme switch and the avatar initial. */
module Header {
  import opened Wrappers
  import opened JsText
  import MobileNavBar
  import MobileHeader

  /** `isActive(path)` against `router.pathname`. */
  predicate IsActive(path: string, pathname: string) {
    if path == "/" then pathname == path else StartsWith(pathname, path)
  }

  /** The header and the mobile navigation bar agree on which route is active. */
  lemma SameActiveAsNavBar(path: string, pathname: string)
    ensures IsActive(path, pathname) <==> MobileNavBar.IsActive(path, pathname)
  {
  }

  const BaseClass := "mx-2 font-medium transition-colors"
  const ActiveClass := "text-primary font-semibold"
  const InactiveClass := "hover:text-primary"

  /** `getLinkClass(path)` */
  function GetLinkClass(path: string, pathname: string): (r: string)
    ensures StartsWith(r, BaseClass + " ")
    ensures r[|BaseClass| + 1..] == (if IsActive(path, pathname) then ActiveClass else InactiveClass)
  {
    var r := BaseClass + " " + (if IsActive(path, pathname) then ActiveClass else InactiveClass);
    assert r[..|BaseClass| + 1] == BaseClass + " ";
    r
  }

  /** A link is styled as active exactly when its route is active. */
  lemma {:induction false} LinkClassMarksActive(path: string, pathname: string)
    ensures EndsWith(GetLinkClass(path, pathname), ActiveClass) <==> IsActive(path, pathname)
    ensures EndsWith(GetLinkClass(path, pathname), InactiveClass) <==> !IsActive(path, pathname)
    ensures Includes(GetLinkClass(path, pathname), BaseClass)
  {
    var r := GetLinkClass(path, pathname);
    var n := |BaseClass| + 1;
    assert r[..|BaseClass|] == BaseClass;
    PrefixIncluded(r, BaseClass);
    if IsActive(path, pathname) {
      assert r[|r| - |ActiveClass|..] == r[n..];
      assert |InactiveClass| <= |r|;
      assert r[|r| - |InactiveClass|..][0] == ActiveClass[|ActiveClass| - |InactiveClass|];
    } else {
      assert r[|r| - |InactiveClass|..] == r[n..];
      assert r[|r| - |ActiveClass|..][0] == BaseClass[|BaseClass| + 1 + |InactiveClass| - |ActiveClass|];
    }
  }

  /** The theme switch flips between the two themes: toggling twice restores either. */
  lemma ThemeToggleFlips(theme: string)
    requires theme == "iswDark" || theme == "iswLight"
    ensures MobileHeader.ToggleTheme(MobileHeader.ToggleTheme(theme)) == theme
  {
  }

  /** `name?.[0] || email?.[0] || "U"`: indexing an empty or missing string gives
      `undefined`, and a one-character string is truthy. */
  function AvatarInitial(name: Option<string>, email: Option<string>): (r: string)
    ensures |r| == 1
    ensures name.Some? && name.value != "" ==> r == name.value[..1]
    ensures (name.None? || name.value == "") && email.Some? && email.value != "" ==> r == email.value[..1]
    ensures (name.None? || name.value == "") && (email.None? || email.value == "") ==> r == "U"
  {
    if name.Some? && name.value != "" then [name.value[0]]
    else if email.Some? && email.value != "" then [email.value[0]]
    else "U"
  }

  /** The initial is always a prefix of the name or of the email, or the fallback. */
  lemma AvatarInitialFromIdentity(name: Option<string>, email: Option<string>)
    ensures var r := AvatarInitial(name, email);
      (name.Some? && StartsWith(name.value, r)) || (email.Some? && StartsWith(email.value, r)) || r == "U"
  {
  }
}
