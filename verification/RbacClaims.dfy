/** Access by claims: what lets a caller into a bucket, without the resolver's order of
    questions. */
module RbacClaims {
  import opened Strings
  import opened Rbac
  import Listing

  //// The claims

  predicate ByRole(x: Input, write: bool) {
    x.role == "administrator" || (x.role == "operator" && (write ==> x.operatorWriteAll))
  }

  predicate ByOwnership(x: Input) {
    (x.bucketOwnerID != "" && x.bucketOwnerID == x.userID) || (x.bucketOwner != "" && x.bucketOwner == x.username)
  }

  /** The i-th membership is the caller's first in the bucket's tenant. */
  ghost predicate MemberAt(x: Input, i: nat) {
    && x.bucketTenantID != "" && i < |x.userTenants| && x.userTenants[i].tenantID == x.bucketTenantID
    && forall j :: 0 <= j < i ==> x.userTenants[j].tenantID != x.bucketTenantID
  }

  ghost predicate Member(x: Input) {
    exists i: nat :: MemberAt(x, i)
  }

  ghost predicate MemberAs(x: Input, role: string) {
    exists i: nat :: MemberAt(x, i) && x.userTenants[i].role == role
  }

  /** The caller's own first grant with a level. */
  ghost predicate ByGrant(x: Input, write: bool) {
    && x.hasGrants
    && exists i: nat :: FirstEffective(x.grants, x.userID, i) && (write ==> GrantLevel(x.grants[i]) != "read")
  }

  /** Some prefix of the bucket is granted to the caller: enough to read the bucket. */
  ghost predicate ByPrefix(x: Input, write: bool) {
    !write && x.hasPrefixGrants
    && exists i :: 0 <= i < |x.prefixGrants| && x.prefixGrants[i].userID == x.userID
                   && (x.prefixGrants[i].canRead || x.prefixGrants[i].canWrite)
  }

  predicate ByGroup(x: Input, write: bool) {
    x.groupAccess.Some? && (if write then x.groupAccess.value.canWrite else x.groupAccess.value.canRead)
  }

  /** Access to the bucket is given by name, to users or to groups. */
  predicate Regulated(x: Input) {
    x.hasGrants || x.hasPrefixGrants || x.tenantHasGroups
  }

  ghost predicate Claim(x: Input, write: bool) {
    ByRole(x, write) || ByOwnership(x) || MemberAs(x, "tenant_admin") || ByGrant(x, write) || ByPrefix(x, write)
    || ByGroup(x, write)
  }

  /** What a grant gives: its level if it names one, else its flags. */
  lemma GrantMeans(g: BucketGrant)
    ensures var named := g.level == "read" || g.level == "write" || g.level == "admin";
            && (GrantLevel(g) != "" <==> named || g.canRead || g.canWrite)
            && (GrantLevel(g) != "" && GrantLevel(g) != "read" <==>
                  if named then g.level != "read" else g.canWrite)
  {
    assert |"read"| == 4 && |"write"| == |"admin"| == 5 && |""| == 0;
  }

  //// The resolver

  lemma {:induction false} FirstRoleIs(ms: seq<Membership>, tenantID: string)
    ensures FirstRole(ms, tenantID).None? <==> forall i :: 0 <= i < |ms| ==> ms[i].tenantID != tenantID
    ensures forall i :: 0 <= i < |ms| && ms[i].tenantID == tenantID
                        && (forall j :: 0 <= j < i ==> ms[j].tenantID != tenantID) ==>
              FirstRole(ms, tenantID) == Some(ms[i].role)
  {
    if ms != [] {
      var t := ms[1..];
      FirstRoleIs(t, tenantID);
      assert forall i :: 0 < i < |ms| ==> ms[i] == t[i - 1];
      if ms[0].tenantID != tenantID {
        forall i | && 0 <= i < |ms| && ms[i].tenantID == tenantID
                   && (forall j :: 0 <= j < i ==> ms[j].tenantID != tenantID)
          ensures FirstRole(ms, tenantID) == Some(ms[i].role)
        {
          assert forall j :: 0 <= j < i - 1 ==> t[j] == ms[j + 1];
          assert t[i - 1].tenantID == tenantID;
        }
      }
    }
  }

  lemma {:induction false} FirstExists(x: Input, i: nat)
    requires x.bucketTenantID != "" && i < |x.userTenants| && x.userTenants[i].tenantID == x.bucketTenantID
    ensures Member(x)
  {
    if forall j :: 0 <= j < i ==> x.userTenants[j].tenantID != x.bucketTenantID {
      assert MemberAt(x, i);
    } else {
      var j :| 0 <= j < i && x.userTenants[j].tenantID == x.bucketTenantID;
      FirstExists(x, j);
    }
  }

  /** The role the resolver finds is that of the first membership in the tenant. */
  lemma RoleFound(x: Input)
    ensures TenantMemberRole(x.userTenants, x.bucketTenantID).Some? <==> Member(x)
    ensures forall i: nat :: MemberAt(x, i) ==>
              TenantMemberRole(x.userTenants, x.bucketTenantID) == Some(x.userTenants[i].role)
  {
    FirstRoleIs(x.userTenants, x.bucketTenantID);
    hide FirstRole;
    if x.bucketTenantID != "" && FirstRole(x.userTenants, x.bucketTenantID).Some? {
      var i :| 0 <= i < |x.userTenants| && x.userTenants[i].tenantID == x.bucketTenantID;
      FirstExists(x, i);
    }
  }

  lemma RoleIs(x: Input, role: string)
    ensures TenantMemberRole(x.userTenants, x.bucketTenantID) == Some(role) <==> MemberAs(x, role)
  {
    hide TenantMemberRole;
    RoleFound(x);
    if Member(x) { var i: nat :| MemberAt(x, i); }
  }

  /** On a regulated bucket, and wherever group access is given, a caller has access exactly
      by a claim of their own. */
  lemma RegulatedAccess(x: Input, write: bool)
    requires Regulated(x) || x.groupAccess.Some?
    ensures ResolveTenantBucketAccess(x, write) <==> Claim(x, write)
  {
    RoleIs(x, "tenant_admin");
    FirstGrantDecides(x.grants, x.userID, write);
    hide MemberAs, GrantAllows, TenantMemberRole, FirstEffective, GrantLevel;
  }

  /** On an unregulated bucket without group access, a caller has access exactly by role or
      ownership, by membership in the tenant, for writing with a role that writes, or,
      without membership, by team. */
  lemma UnregulatedAccess(x: Input, write: bool)
    requires !Regulated(x) && x.groupAccess.None?
    ensures ResolveTenantBucketAccess(x, write) <==>
              || ByRole(x, write) || ByOwnership(x)
              || (Member(x) && (write ==> MemberAs(x, "tenant_admin") || MemberAs(x, "member")))
              || (!Member(x) && x.bucketTeamID != "" && x.bucketTeamID in x.teamIDs)
  {
    RoleFound(x);
    RoleIs(x, "tenant_admin");
    RoleIs(x, "member");
    hide MemberAs, Member, TenantMemberRole;
  }

  /** The handler's access, for buckets without tenant and regulation: by role, ownership or
      team, and nothing else. */
  lemma TenantlessAccess(x: Input, write: bool)
    requires !Regulated(x) && x.bucketTenantID == ""
    ensures ResolveBucketAccess(x, write) <==>
              ByRole(x, write) || ByOwnership(x) || (x.bucketTeamID != "" && x.bucketTeamID in x.teamIDs)
  {
  }

  ghost predicate NothingOwn(x: Input) {
    && (forall i :: 0 <= i < |x.grants| ==> x.grants[i].userID != x.userID)
    && (forall i :: 0 <= i < |x.prefixGrants| ==> x.prefixGrants[i].userID != x.userID)
  }

  /** Grants made out to others never give access: whoever has it would have it without
      them. */
  lemma OthersGrants(x: Input, write: bool)
    requires NothingOwn(x) && ResolveTenantBucketAccess(x, write)
    ensures ResolveTenantBucketAccess(x.(grants := [], prefixGrants := [],
                                         hasGrants := false, hasPrefixGrants := false),
                                      write)
  {
    FirstGrantDecides(x.grants, x.userID, write);
    hide GrantAllows, FirstRole, GrantLevel;
  }

  //// Single objects

  /** The first prefix grant of the caller that covers the key allows the access. */
  ghost predicate ByKey(x: Input, key: string, write: bool) {
    x.hasPrefixGrants
    && exists i :: 0 <= i < |x.prefixGrants| && Matches(x.prefixGrants[i], x.userID, key)
                   && (forall j :: 0 <= j < i ==> !Matches(x.prefixGrants[j], x.userID, key))
                   && (x.prefixGrants[i].canWrite || (!write && x.prefixGrants[i].canRead))
  }

  /** The caller's bucket access reaches every key: there are no prefix grants, or none of
      the caller's, or a bucket grant of the caller's allows the access. */
  ghost predicate Everywhere(x: Input, write: bool) {
    || !x.hasPrefixGrants
    || !(exists i :: 0 <= i < |x.prefixGrants| && x.prefixGrants[i].userID == x.userID
                     && (x.prefixGrants[i].canRead || x.prefixGrants[i].canWrite))
    || (exists i: nat :: FirstEffective(x.grants, x.userID, i) && (write ==> GrantLevel(x.grants[i]) != "read"))
  }

  /** A caller has access to an object exactly by bucket access that reaches every key, or by
      a prefix grant that covers it. */
  lemma ObjectAccess(x: Input, key: string, write: bool)
    ensures ResolveObjectKeyAccess(x, key, write) <==>
              (ResolveTenantBucketAccess(x, write) && Everywhere(x, write)) || ByKey(x, key, write)
  {
    FirstGrantDecides(x.grants, x.userID, write);
    FirstPrefixDecides(x.prefixGrants, x.userID, key, write);
    hide GrantAllows, PrefixGrantAllows, ResolveTenantBucketAccess, Matches, FirstEffective, GrantLevel;
  }

  //// The list filter

  /** An administrator, and whoever the bucket names as its owner, see the whole list; so
      does a caller without an id in a bucket without an owner's. */
  lemma OwnersSeeAll(x: Input, objs: seq<Listing.ObjectRecord>)
    requires || x.role == "administrator" || x.bucketOwnerID == x.userID
             || (x.bucketOwner != "" && x.bucketOwner == x.username)
    ensures Shown(x, objs) == objs
  {
  }
}
