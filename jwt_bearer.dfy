/** The online-user token handler: after the JWT library has built a claims
    identity from a validated token, the handler replaces the role claim the
    token was issued with by the user's live roles from the online-user
    cache. */
module JwtBearer {
  import opened Wrappers
  import Text

  /** The claim type .NET names `ClaimTypes.Role`. */
  const RoleType: string := "http://schemas.microsoft.com/ws/2008/06/identity/claims/role"

  datatype Claim = Claim(claimType: string, value: string)

  predicate IsRole(c: Claim)
  {
    c.claimType == RoleType
  }

  /** The cached snapshot of a signed-in user; of its fields only the live
      role list matters here. */
  datatype OnlineUser = OnlineUser(roles: seq<string>)

  /** `GetOrRefresh` returned no user, so reading `user.Roles` throws. */
  datatype HandlerError = OnlineUserMissing

  /** The claims identity built from the token. Whether it is authenticated
      and its name are fixed once built; its claim list is changed in place. */
  class ClaimsIdentity {
    const isAuthenticated: bool
    const name: Option<string>
    var claims: seq<Claim>

    constructor (isAuthenticated: bool, name: Option<string>, claims: seq<Claim>)
      ensures this.isAuthenticated == isAuthenticated && this.name == name
      ensures this.claims == claims
    {
      this.isAuthenticated := isAuthenticated;
      this.name := name;
      this.claims := claims;
    }

    /** Removes the claim at position `k`, keeping the others in order. */
    method RemoveClaimAt(k: nat)
      requires k < |claims|
      modifies this
      ensures claims == old(claims[..k] + claims[k + 1..])
    {
      claims := claims[..k] + claims[k + 1..];
    }

    /** Appends a claim. */
    method AddClaim(c: Claim)
      modifies this
      ensures claims == old(claims) + [c]
    {
      claims := claims + [c];
    }
  }

  /** Position of the first role claim, `|cs|` when there is none
      (`FirstOrDefault` yielding null). */
  function FirstRoleIndex(cs: seq<Claim>): (k: nat)
    ensures k <= |cs|
    ensures k < |cs| ==> IsRole(cs[k])
    ensures forall j :: 0 <= j < k ==> !IsRole(cs[j])
  {
    if cs == [] then 0
    else if IsRole(cs[0]) then 0
    else 1 + FirstRoleIndex(cs[1..])
  }

  /** The claims without the first role claim. */
  function RemoveFirstRole(cs: seq<Claim>): seq<Claim>
  {
    var k := FirstRoleIndex(cs);
    if k < |cs| then cs[..k] + cs[k + 1..] else cs
  }

  /** The single role claim the handler adds for a non-empty live role list,
      and none for an empty one. */
  function LiveRoleClaims(roles: seq<string>, sep: string): seq<Claim>
  {
    if |roles| > 0 then [Claim(RoleType, Text.Join(roles, sep))] else []
  }

  /** The claims of an authenticated identity once the live roles are in. */
  function Reconciled(cs: seq<Claim>, roles: seq<string>, sep: string): seq<Claim>
  {
    RemoveFirstRole(cs) + LiveRoleClaims(roles, sep)
  }

  /** `CreateClaimsIdentity` after the base implementation has built
      `identity`. `cache` stands for `IOnlineUserCache.GetOrRefresh`, keyed
      by the identity's name; `sep` is the separator the role list is joined
      with. */
  method CreateClaimsIdentity(identity: ClaimsIdentity, cache: Option<string> -> Option<OnlineUser>, sep: string)
    returns (outcome: Result<ClaimsIdentity, HandlerError>)
    modifies identity
    ensures !identity.isAuthenticated ==>
      outcome == Ok(identity) && identity.claims == old(identity.claims)
    ensures identity.isAuthenticated && cache(identity.name).None? ==>
      outcome == Err(OnlineUserMissing) && identity.claims == RemoveFirstRole(old(identity.claims))
    ensures identity.isAuthenticated && cache(identity.name).Some? ==>
      outcome == Ok(identity) &&
      identity.claims == Reconciled(old(identity.claims), cache(identity.name).value.roles, sep)
  {
    if identity.isAuthenticated {
      var user := cache(identity.name);
      var k := FirstRoleIndex(identity.claims);
      if k < |identity.claims| {
        identity.RemoveClaimAt(k);
      }
      if user.None? {
        return Err(OnlineUserMissing);
      }
      if |user.value.roles| > 0 {
        identity.AddClaim(Claim(RoleType, Text.Join(user.value.roles, sep)));
      }
    }
    return Ok(identity);
  }

  /** The claims of `cs` that are role claims (`wantRole`) or that are not,
      in their order in `cs`. */
  function Select(cs: seq<Claim>, wantRole: bool): (r: seq<Claim>)
    ensures forall i :: 0 <= i < |r| ==> IsRole(r[i]) == wantRole
  {
    if cs == [] then []
    else (if IsRole(cs[0]) == wantRole then [cs[0]] else []) + Select(cs[1..], wantRole)
  }

  function RoleClaims(cs: seq<Claim>): seq<Claim>
  {
    Select(cs, true)
  }

  function OtherClaims(cs: seq<Claim>): seq<Claim>
  {
    Select(cs, false)
  }

  lemma {:induction false} SelectAppend(a: seq<Claim>, b: seq<Claim>, wantRole: bool)
    ensures Select(a + b, wantRole) == Select(a, wantRole) + Select(b, wantRole)
  {
    if a != [] {
      assert (a + b)[1..] == a[1..] + b;
      SelectAppend(a[1..], b, wantRole);
    } else {
      assert a + b == b;
    }
  }

  lemma {:induction false} SelectNone(cs: seq<Claim>, wantRole: bool)
    requires forall i :: 0 <= i < |cs| ==> IsRole(cs[i]) != wantRole
    ensures Select(cs, wantRole) == []
  {
    if cs != [] {
      SelectNone(cs[1..], wantRole);
    }
  }

  /** Removing the first role claim drops the head of the role claims and
      nothing else: every other claim stays, in its order, and so do any
      later role claims. */
  lemma RemoveFirstRoleSelects(cs: seq<Claim>)
    ensures OtherClaims(RemoveFirstRole(cs)) == OtherClaims(cs)
    ensures RoleClaims(RemoveFirstRole(cs)) ==
      if RoleClaims(cs) == [] then [] else RoleClaims(cs)[1..]
  {
    var k := FirstRoleIndex(cs);
    if k < |cs| {
      assert cs == cs[..k] + ([cs[k]] + cs[k + 1..]);
      SelectAppend(cs[..k], [cs[k]] + cs[k + 1..], true);
      SelectAppend(cs[..k], [cs[k]] + cs[k + 1..], false);
      SelectAppend(cs[..k], cs[k + 1..], true);
      SelectAppend(cs[..k], cs[k + 1..], false);
      SelectAppend([cs[k]], cs[k + 1..], true);
      SelectAppend([cs[k]], cs[k + 1..], false);
      SelectNone(cs[..k], true);
    } else {
      SelectNone(cs, true);
    }
  }

  /** What the handler does to the role claims and to the others, for any
      input: the first stale role claim goes, a claim with the joined live
      roles is appended when there are live roles, and the non-role claims
      pass through in order. */
  lemma ReconciledSelects(cs: seq<Claim>, roles: seq<string>, sep: string)
    ensures OtherClaims(Reconciled(cs, roles, sep)) == OtherClaims(cs)
    ensures RoleClaims(Reconciled(cs, roles, sep)) ==
      (if RoleClaims(cs) == [] then [] else RoleClaims(cs)[1..]) + LiveRoleClaims(roles, sep)
  {
    RemoveFirstRoleSelects(cs);
    SelectAppend(RemoveFirstRole(cs), LiveRoleClaims(roles, sep), true);
    SelectAppend(RemoveFirstRole(cs), LiveRoleClaims(roles, sep), false);
  }

  /** With at most one role claim in the token, the live roles replace it:
      the result's role claims are exactly the one joined live-role claim,
      or none when the live role list is empty. */
  lemma ReplaceNotUnion(cs: seq<Claim>, roles: seq<string>, sep: string)
    requires |RoleClaims(cs)| <= 1
    ensures RoleClaims(Reconciled(cs, roles, sep)) == LiveRoleClaims(roles, sep)
    ensures |roles| > 0 ==> RoleClaims(Reconciled(cs, roles, sep)) == [Claim(RoleType, Text.Join(roles, sep))]
    ensures |roles| == 0 ==> RoleClaims(Reconciled(cs, roles, sep)) == []
  {
    ReconciledSelects(cs, roles, sep);
  }

  /** With at most one role claim in the token, reconciling the result
      again with the same live roles changes nothing. */
  lemma ReconcileIdempotent(cs: seq<Claim>, roles: seq<string>, sep: string)
    requires |RoleClaims(cs)| <= 1
    ensures Reconciled(Reconciled(cs, roles, sep), roles, sep) == Reconciled(cs, roles, sep)
  {
    var rest := RemoveFirstRole(cs);
    RemoveFirstRoleSelects(cs);
    assert RoleClaims(rest) == [];
    NoRoleClaimHasNoIndex(rest);
    if |roles| > 0 {
      var live := LiveRoleClaims(roles, sep);
      var once := rest + live;
      FirstRoleIndexAfter(rest, live);
      assert once[..|rest|] == rest && once[|rest| + 1..] == [];
    } else {
      assert rest + [] == rest;
    }
  }

  lemma {:induction false} FirstRoleIndexAfter(a: seq<Claim>, b: seq<Claim>)
    requires forall j :: 0 <= j < |a| ==> !IsRole(a[j])
    ensures FirstRoleIndex(a + b) == |a| + FirstRoleIndex(b)
  {
    if a != [] {
      assert (a + b)[1..] == a[1..] + b;
      FirstRoleIndexAfter(a[1..], b);
    } else {
      assert a + b == b;
    }
  }

  lemma {:induction false} NoRoleClaimHasNoIndex(cs: seq<Claim>)
    requires RoleClaims(cs) == []
    ensures forall j :: 0 <= j < |cs| ==> !IsRole(cs[j])
    ensures FirstRoleIndex(cs) == |cs| && RemoveFirstRole(cs) == cs
  {
    if cs != [] {
      NoRoleClaimHasNoIndex(cs[1..]);
    }
  }

  /** Only the first role claim is removed: a token carrying two role claims
      keeps its second, stale one beside the live roles, and a second pass
      changes the result again. */
  lemma SecondStaleRoleSurvives()
    ensures var cs := [Claim(RoleType, "admin"), Claim(RoleType, "editor")];
      RoleClaims(Reconciled(cs, ["viewer"], ",")) == [Claim(RoleType, "editor"), Claim(RoleType, "viewer")] &&
      Reconciled(Reconciled(cs, ["viewer"], ","), ["viewer"], ",") != Reconciled(cs, ["viewer"], ",")
  {
    var cs := [Claim(RoleType, "admin"), Claim(RoleType, "editor")];
    ReconciledSelects(cs, ["viewer"], ",");
    assert cs[1..][1..] == [];
    assert RoleClaims(cs[1..]) == [cs[1]] + RoleClaims([]);
    assert RoleClaims(cs) == cs;
    assert Text.Join(["viewer"], ",") == "viewer";
    var once := Reconciled(cs, ["viewer"], ",");
    assert once == [Claim(RoleType, "editor"), Claim(RoleType, "viewer")];
    assert Reconciled(once, ["viewer"], ",") == [Claim(RoleType, "viewer"), Claim(RoleType, "viewer")];
  }
}
