/**
 * The display name and role that `MainLayoutComponent.initializeUserInfo`
 * (main-layout.component.ts) derives from the parsed Keycloak token, as a
 * function of the token's claims.
 */
module UserInfo {
  import opened Wrappers
  import opened Seqs
  import opened Text

  /**
   * The claims read from the token. A claim that is missing and one that is
   * present are told apart by `Option`. `resourceAccess` holds the `roles`
   * list of each client in `Object.values` order.
   */
  datatype Token = Token(
    givenName: Option<string>,
    familyName: Option<string>,
    name: Option<string>,
    preferredUsername: Option<string>,
    realmRoles: Option<seq<string>>,
    resourceAccess: Option<seq<seq<string>>>,
    groups: Option<seq<string>>,
    roles: Option<seq<string>>,
    role: Option<string>)

  /** JavaScript truthiness of an optional string: present and non-empty. */
  predicate Truthy(s: Option<string>) {
    s.Some? && s.value != ""
  }

  /**
   * `fullName`: `"given family"` when both are truthy, else `name`, else
   * `preferred_username || null`.
   */
  function FullName(t: Token): (r: Option<string>)
    ensures r.None? <==> !(Truthy(t.givenName) && Truthy(t.familyName)) && !Truthy(t.name) && !Truthy(t.preferredUsername)
    ensures r.Some? ==> r.value != ""
    ensures Truthy(t.givenName) && Truthy(t.familyName) ==> r == Some(t.givenName.value + " " + t.familyName.value)
    ensures !(Truthy(t.givenName) && Truthy(t.familyName)) && Truthy(t.name) ==> r == t.name
    ensures !(Truthy(t.givenName) && Truthy(t.familyName)) && !Truthy(t.name) && Truthy(t.preferredUsername) ==> r == t.preferredUsername
  {
    if Truthy(t.givenName) && Truthy(t.familyName) then Some(t.givenName.value + " " + t.familyName.value)
    else if Truthy(t.name) then t.name
    else if Truthy(t.preferredUsername) then t.preferredUsername
    else None
  }

  /** The technical roles Keycloak assigns to every user; they are never shown. */
  const IgnoredRoles: seq<string> := [
    "default-roles-yamato", "offline_access", "uma_authorization",
    "manage-account", "manage-account-links", "view-profile"]

  /** `Object.values(...).map(r => r.roles).flat()`. */
  function Concat(xss: seq<seq<string>>): (r: seq<string>)
    ensures forall xs, x :: xs in xss && x in xs ==> x in r
    ensures forall x :: x in r ==> exists xs :: xs in xss && x in xs
  {
    if xss == [] then []
    else
      assert forall xs :: xs in xss[1..] ==> xs in xss;
      xss[0] + Concat(xss[1..])
  }

  /** `mappedRoles`: the realm roles (when there are any), then every client's roles. */
  function MappedRoles(t: Token): (r: seq<string>)
    ensures t.realmRoles.Some? ==> |t.realmRoles.value| <= |r| && r[..|t.realmRoles.value|] == t.realmRoles.value
    ensures t.resourceAccess.Some? ==>
      |Concat(t.resourceAccess.value)| <= |r| && r[|r| - |Concat(t.resourceAccess.value)|..] == Concat(t.resourceAccess.value)
    ensures forall x :: x in r <==>
      ((t.realmRoles.Some? && x in t.realmRoles.value) || (t.resourceAccess.Some? && x in Concat(t.resourceAccess.value)))
    ensures |r| == (if t.realmRoles.Some? then |t.realmRoles.value| else 0)
      + (if t.resourceAccess.Some? then |Concat(t.resourceAccess.value)| else 0)
  {
    var realm := if t.realmRoles.Some? && |t.realmRoles.value| > 0 then t.realmRoles.value else [];
    var client := if t.resourceAccess.Some? then Concat(t.resourceAccess.value) else [];
    realm + client
  }

  function NotIgnored(role: string): bool {
    role !in IgnoredRoles
  }

  /** `filteredRoles`: the mapped roles minus the ignore-list, in order. */
  function CustomRoles(t: Token): seq<string> {
    Filter(MappedRoles(t), NotIgnored)
  }

  function CapitaliseAll(xs: seq<string>): (r: seq<string>)
    ensures |r| == |xs| && forall i :: 0 <= i < |xs| ==> r[i] == Capitalise(xs[i])
  {
    seq(|xs|, i requires 0 <= i < |xs| => Capitalise(xs[i]))
  }

  /** `s.replace(/^\//, '')`: at most one leading slash removed. */
  function StripLeadingSlash(s: string): (r: string)
    ensures s != [] && s[0] == '/' ==> r == s[1..]
    ensures (s == [] || s[0] != '/') ==> r == s
    ensures |s| - 1 <= |r| <= |s|
  {
    if s != [] && s[0] == '/' then s[1..] else s
  }

  /**
   * `userRole`: the custom roles capitalised and joined with `", "`; when
   * there are none, the first group without its leading slash, else the
   * first entry of `roles`, else a truthy `role`, else `null`.
   */
  function UserRole(t: Token): (r: Option<string>)
    ensures CustomRoles(t) != [] ==> r == Some(Join(CapitaliseAll(CustomRoles(t)), ", "))
    ensures forall role :: role in CustomRoles(t) ==> r.Some? && Includes(r.value, Capitalise(role))
    ensures CustomRoles(t) == [] && t.groups.Some? && |t.groups.value| > 0 ==> r == Some(StripLeadingSlash(t.groups.value[0]))
    ensures CustomRoles(t) == [] && (t.groups.None? || t.groups.value == []) && t.roles.Some? && |t.roles.value| > 0 ==>
      r == Some(t.roles.value[0])
    ensures CustomRoles(t) == [] && (t.groups.None? || t.groups.value == []) && (t.roles.None? || t.roles.value == []) ==>
      (r.Some? <==> Truthy(t.role)) && (r.Some? ==> r == t.role)
  {
    var custom := CustomRoles(t);
    if |custom| > 0 then
      assert forall role :: role in custom ==> Includes(Join(CapitaliseAll(custom), ", "), Capitalise(role)) by {
        forall role | role in custom ensures Includes(Join(CapitaliseAll(custom), ", "), Capitalise(role)) {
          var i :| 0 <= i < |custom| && custom[i] == role;
          JoinIncludesPart(CapitaliseAll(custom), ", ", i);
        }
      }
      Some(Join(CapitaliseAll(custom), ", "))
    else if t.groups.Some? && |t.groups.value| > 0 then Some(StripLeadingSlash(t.groups.value[0]))
    else if t.roles.Some? && |t.roles.value| > 0 then Some(t.roles.value[0])
    else if Truthy(t.role) then t.role
    else None
  }

  /** Every mapped role that is not on the ignore-list is shown, capitalised. */
  lemma CustomRoleShown(t: Token, role: string)
    requires role in MappedRoles(t) && role !in IgnoredRoles
    ensures UserRole(t).Some? && Includes(UserRole(t).value, Capitalise(role))
  {
    var custom := CustomRoles(t);
    FilterKeeps(MappedRoles(t), NotIgnored, role);
    var i :| 0 <= i < |custom| && custom[i] == role;
    JoinIncludesPart(CapitaliseAll(custom), ", ", i);
  }

  /** With no custom roles the first group names the role, without its leading slash. */
  lemma GroupFallback(t: Token)
    requires forall x :: x in MappedRoles(t) ==> x in IgnoredRoles
    requires t.groups.Some? && |t.groups.value| > 0
    ensures UserRole(t) == Some(StripLeadingSlash(t.groups.value[0]))
  {
    FilterMeaning(MappedRoles(t), NotIgnored);
  }

  /** The role is `null` exactly when every fallback is exhausted. */
  lemma RoleNullIff(t: Token)
    ensures UserRole(t).None? <==>
      (forall x :: x in MappedRoles(t) ==> x in IgnoredRoles)
      && (t.groups.None? || t.groups.value == [])
      && (t.roles.None? || t.roles.value == [])
      && !Truthy(t.role)
  {
    FilterMeaning(MappedRoles(t), NotIgnored);
    var custom := CustomRoles(t);
    if |custom| > 0 {
      assert custom[0] in custom;
    }
    forall x | x in MappedRoles(t) && x !in IgnoredRoles ensures |custom| > 0 {
      FilterKeeps(MappedRoles(t), NotIgnored, x);
    }
  }
}
