/** The bottom navigation bar: which route counts as active, and when an item is
    drawn as a button rather than a link. */
module MobileNavBar {
  import opened JsText

  /** `isActive(path)` against the current route. */
  predicate IsActive(path: string, currentPath: string) {
    (path == "/" && currentPath == "/") || (path != "/" && StartsWith(currentPath, path))
  }

  /** `isExactPath(path)` */
  predicate IsExactPath(path: string, currentPath: string) {
    currentPath == path
  }

  datatype NavItemKind = Button | Link

  /** `NavItem`: a button when the item is the current page itself or has its own
      `onClick`, otherwise a link to `path`. */
  function NavItemKindOf(path: string, currentPath: string, hasOnClick: bool): (k: NavItemKind)
    ensures k == Button <==> currentPath == path || hasOnClick
  {
    ExactIsActive(path, currentPath);
    if (IsActive(path, currentPath) && IsExactPath(path, currentPath)) || hasOnClick then Button else Link
  }

  /** The item's colour class: highlighted exactly when active. */
  function NavItemColour(path: string, currentPath: string): (c: string)
    ensures IsActive(path, currentPath) ==> c == "text-primary"
    ensures !IsActive(path, currentPath) ==> c == "text-neutral opacity-80"
  {
    if IsActive(path, currentPath) then "text-primary" else "text-neutral opacity-80"
  }

  /** The home item is active only on the home page itself. */
  lemma RootActiveOnlyAtRoot(currentPath: string)
    ensures IsActive("/", currentPath) <==> currentPath == "/"
  {
  }

  /** Any other item is active exactly on the routes that start with its path. */
  lemma OtherActiveByPrefix(path: string, currentPath: string)
    requires path != "/"
    ensures IsActive(path, currentPath) <==> StartsWith(currentPath, path)
  {
  }

  /** Being on the item's own route makes it active. */
  lemma ExactIsActive(path: string, currentPath: string)
    ensures IsExactPath(path, currentPath) ==> IsActive(path, currentPath)
  {
    if currentPath == path && path != "/" {
      assert currentPath[..|path|] == path;
    }
  }
}
