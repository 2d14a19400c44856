/**
 * The application sidebar: the static menu items and the filter that shows an
 * item only when some role of the signed-in user has the "view" permission on
 * the item's resource. Roles and permissions arrive as optional arrays; a
 * missing array grants nothing.
 */
module AppSidebar {
  import opened Wrappers
  import opened Lists

  datatype Permission = Permission(name: string, resource: string)
  datatype Role = Role(permissions: Option<seq<Permission>>)
  datatype User = User(roles: Option<seq<Role>>)

  datatype MenuItem = MenuItem(title: string, url: string, resourceName: string)

  /** The menu in the order it is shown. */
  const Items: seq<MenuItem> := [
    MenuItem("Dashboard", "/dashboard", "Dashboard"),
    MenuItem("Files", "/files", "Files"),
    MenuItem("Accounts", "/accounts", "Accounts"),
    MenuItem("Settings", "/settings", "Settings")
  ]

  predicate GrantsView(p: Permission, resourceName: string) {
    p.resource == resourceName && p.name == "view"
  }

  /** Some permission of the role, if it has any, is "view" on the resource. */
  predicate RoleGrantsView(role: Role, resourceName: string) {
    role.permissions.Some? && exists p :: p in role.permissions.value && GrantsView(p, resourceName)
  }

  /** hasViewPermission: a user is signed in and some role of theirs grants "view" on the resource. */
  predicate HasViewPermission(user: Option<User>, resourceName: string)
    ensures HasViewPermission(user, resourceName) ==> user.Some? && user.value.roles.Some? && user.value.roles.value != []
  {
    user.Some? && user.value.roles.Some?
    && exists role :: role in user.value.roles.value && RoleGrantsView(role, resourceName)
  }

  /** The items, in their order, that the user may view. */
  function VisibleItems(user: Option<User>, items: seq<MenuItem>): (r: seq<MenuItem>)
    ensures IsSubsequence(r, items)
    ensures forall item :: item in r <==> item in items && HasViewPermission(user, item.resourceName)
    ensures forall item :: multiset(r)[item] == if HasViewPermission(user, item.resourceName) then multiset(items)[item] else 0
  {
    if items == [] then []
    else
      var rest := VisibleItems(user, items[1..]);
      assert items == [items[0]] + items[1..];
      assert forall item :: item in items <==> item == items[0] || item in items[1..];
      if HasViewPermission(user, items[0].resourceName) then
        [items[0]] + rest
      else
        SubsequenceOfTail(rest, items);
        rest
  }

  /** accessibleItems: the static menu filtered by the view permission. */
  function AccessibleItems(user: Option<User>): (r: seq<MenuItem>)
    ensures IsSubsequence(r, Items)
    ensures forall item :: item in r <==> item in Items && HasViewPermission(user, item.resourceName)
  {
    VisibleItems(user, Items)
  }

  /** Without a signed-in user the sidebar shows nothing. */
  lemma NoUserNoItems()
    ensures AccessibleItems(None) == []
  {
  }

  /** A role whose permission list is missing grants nothing. */
  lemma MissingPermissionsGrantNothing(user: User, resourceName: string)
    requires user.roles.Some? && forall role :: role in user.roles.value ==> role.permissions.None?
    ensures !HasViewPermission(Some(user), resourceName)
  {
  }

  /** The role with one more permission. */
  function AddPermission(role: Role, p: Permission): (r: Role)
    ensures r.permissions.Some?
    ensures role.permissions.Some? ==> r.permissions.value == role.permissions.value + [p]
    ensures role.permissions.None? ==> r.permissions.value == [p]
  {
    match role.permissions
    case None => Role(Some([p]))
    case Some(ps) => Role(Some(ps + [p]))
  }

  /** The user with permission p added to the role at index k. */
  function GrantToRole(user: User, k: nat, p: Permission): (r: User)
    requires user.roles.Some? && k < |user.roles.value|
    ensures r.roles.Some? && |r.roles.value| == |user.roles.value|
    ensures r.roles.value[k] == AddPermission(user.roles.value[k], p)
    ensures forall i :: 0 <= i < |r.roles.value| && i != k ==> r.roles.value[i] == user.roles.value[i]
  {
    User(Some(user.roles.value[k := AddPermission(user.roles.value[k], p)]))
  }

  /** Adding a permission to a role never hides an item the user could see. */
  lemma GrantKeepsVisible(user: User, k: nat, p: Permission, resourceName: string)
    requires user.roles.Some? && k < |user.roles.value|
    requires HasViewPermission(Some(user), resourceName)
    ensures HasViewPermission(Some(GrantToRole(user, k, p)), resourceName)
  {
    var roles := user.roles.value;
    var role :| role in roles && RoleGrantsView(role, resourceName);
    var i :| 0 <= i < |roles| && roles[i] == role;
    var granted := GrantToRole(user, k, p).roles.value;
    if i == k {
      var q :| q in role.permissions.value && GrantsView(q, resourceName);
      assert q in granted[k].permissions.value;
      assert RoleGrantsView(granted[k], resourceName);
      assert granted[k] in granted;
    } else {
      assert granted[i] in granted;
    }
  }

  /** A permission other than "view" never makes an item visible. */
  lemma OtherPermissionGrantsNothing(user: User, k: nat, p: Permission, resourceName: string)
    requires user.roles.Some? && k < |user.roles.value|
    requires p.name != "view"
    ensures HasViewPermission(Some(GrantToRole(user, k, p)), resourceName) == HasViewPermission(Some(user), resourceName)
  {
    var roles := user.roles.value;
    var granted := GrantToRole(user, k, p).roles.value;
    if HasViewPermission(Some(user), resourceName) {
      GrantKeepsVisible(user, k, p, resourceName);
    }
    if HasViewPermission(Some(GrantToRole(user, k, p)), resourceName) {
      var role :| role in granted && RoleGrantsView(role, resourceName);
      var i :| 0 <= i < |granted| && granted[i] == role;
      var q :| q in role.permissions.value && GrantsView(q, resourceName);
      if i == k {
        assert q != p;
        assert roles[k].permissions.Some?;
        assert q in roles[k].permissions.value;
        assert roles[k] in roles;
      } else {
        assert roles[i] in roles;
      }
    }
  }

  /** Adding a permission never removes an item from the sidebar. */
  lemma GrantKeepsItems(user: User, k: nat, p: Permission)
    requires user.roles.Some? && k < |user.roles.value|
    ensures forall item :: item in AccessibleItems(Some(user)) ==> item in AccessibleItems(Some(GrantToRole(user, k, p)))
  {
    forall item | item in AccessibleItems(Some(user))
      ensures item in AccessibleItems(Some(GrantToRole(user, k, p)))
    {
      GrantKeepsVisible(user, k, p, item.resourceName);
    }
  }
}
