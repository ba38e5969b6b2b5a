/** Bucket and object access: internal/auth/rbac.go, with the list filter of
    internal/api/bucket_object_access.go and the dispatch of
    internal/api/tenant_groups_handlers.go. */
module Rbac {
  import opened Strings
  import Listing

  const ADMINISTRATOR := "administrator"
  const OPERATOR := "operator"
  const TENANT_ADMIN := "tenant_admin"
  const TENANT_MEMBER := "member"

  datatype Membership = Membership(tenantID: string, role: string)

  datatype BucketGrant = BucketGrant(userID: string, canRead: bool, canWrite: bool, level: string)

  datatype PrefixGrant = PrefixGrant(userID: string, prefix: string, canRead: bool, canWrite: bool)

  datatype GroupAccess = GroupAccess(canRead: bool, canWrite: bool)

  /** TenantBucketAccessInput. `operatorWriteAll` is STORAGE_OPERATOR_WRITE_ALL. */
  datatype Input = Input(
    role: string,
    operatorWriteAll: bool,
    userID: string,
    username: string,
    teamIDs: seq<string>,
    bucketOwnerID: string,
    bucketOwner: string,
    bucketTeamID: string,
    bucketTenantID: string,
    userTenants: seq<Membership>,
    grants: seq<BucketGrant>,
    prefixGrants: seq<PrefixGrant>,
    hasGrants: bool,
    hasPrefixGrants: bool,
    groupAccess: Option<GroupAccess>,
    tenantHasGroups: bool,
    bucketInTenantGroup: bool)

  //// Roles

  predicate CanSeeAllBuckets(role: string) {
    role == ADMINISTRATOR || role == OPERATOR
  }

  predicate CanWriteAllBuckets(role: string, operatorWriteAll: bool) {
    role == ADMINISTRATOR || (role == OPERATOR && operatorWriteAll)
  }

  predicate TenantRoleCanWrite(role: string) {
    role == TENANT_ADMIN || role == TENANT_MEMBER
  }

  function FirstRole(ms: seq<Membership>, tenantID: string): Option<string> {
    if ms == [] then None
    else if ms[0].tenantID == tenantID then Some(ms[0].role)
    else FirstRole(ms[1..], tenantID)
  }

  function TenantMemberRole(ms: seq<Membership>, tenantID: string): Option<string> {
    if tenantID == "" then None else FirstRole(ms, tenantID)
  }

  //// Grants

  function GrantLevel(g: BucketGrant): string {
    if g.level == "read" || g.level == "write" || g.level == "admin" then g.level
    else if g.canWrite then "write"
    else if g.canRead then "read"
    else ""
  }

  predicate GrantAllows(grants: seq<BucketGrant>, userID: string, write: bool) {
    if grants == [] then false
    else
      var g := grants[0];
      if g.userID == userID && (GrantLevel(g) == "admin" || GrantLevel(g) == "write") then true
      else if g.userID == userID && GrantLevel(g) == "read" then !write
      else GrantAllows(grants[1..], userID, write)
  }

  predicate ObjectKeyMatchesPrefix(key: string, prefix: string) {
    var p := TrimSpace(prefix);
    if p == "" then true
    else
      var q := if p[0] == '/' then p[1..] else p;
      var r := if q != "" && q[|q| - 1] != '/' then q + "/" else q;
      r <= key || key == (if r != "" then r[..|r| - 1] else "")
  }

  /** The first matching grant of the user decides. */
  predicate PrefixGrantAllows(grants: seq<PrefixGrant>, userID: string, key: string, write: bool) {
    if grants == [] then false
    else
      var g := grants[0];
      if g.userID == userID && ObjectKeyMatchesPrefix(key, g.prefix) then
        if write then g.canWrite else g.canRead || g.canWrite
      else PrefixGrantAllows(grants[1..], userID, key, write)
  }

  predicate UserHasPrefixGrant(grants: seq<PrefixGrant>, userID: string) {
    exists i :: 0 <= i < |grants| && grants[i].userID == userID && (grants[i].canRead || grants[i].canWrite)
  }

  //// Resolvers

  predicate IsOwner(x: Input) {
    (x.bucketOwnerID != "" && x.bucketOwnerID == x.userID) || (x.bucketOwner != "" && x.bucketOwner == x.username)
  }

  predicate OnTeam(x: Input) {
    x.bucketTeamID != "" && x.bucketTeamID in x.teamIDs
  }

  predicate ResolveTenantBucketAccess(x: Input, write: bool) {
    var role := TenantMemberRole(x.userTenants, x.bucketTenantID);
    if write && CanWriteAllBuckets(x.role, x.operatorWriteAll) then true
    else if !write && CanSeeAllBuckets(x.role) then true
    else if IsOwner(x) then true
    else if role == Some(TENANT_ADMIN) then true
    else if x.hasGrants && GrantAllows(x.grants, x.userID, write) then true
    else if !write && x.hasPrefixGrants && UserHasPrefixGrant(x.prefixGrants, x.userID) then true
    else if x.groupAccess.Some? then (if write then x.groupAccess.value.canWrite else x.groupAccess.value.canRead)
    else if x.hasGrants || x.hasPrefixGrants || (x.tenantHasGroups && x.bucketInTenantGroup) then false
    else if x.tenantHasGroups then false
    else if role.Some? then (write ==> TenantRoleCanWrite(role.value))
    else OnTeam(x)
  }

  predicate ResolveObjectKeyAccess(x: Input, key: string, write: bool) {
    if ResolveTenantBucketAccess(x, write)
       && (|| !x.hasPrefixGrants
           || GrantAllows(x.grants, x.userID, write)
           || !UserHasPrefixGrant(x.prefixGrants, x.userID))
    then true
    else x.hasPrefixGrants && PrefixGrantAllows(x.prefixGrants, x.userID, key, write)
  }

  predicate CanAccessBucket(x: Input) {
    CanSeeAllBuckets(x.role) || IsOwner(x) || OnTeam(x) || TenantMemberRole(x.userTenants, x.bucketTenantID).Some?
  }

  predicate CanWriteBucket(x: Input) {
    var role := TenantMemberRole(x.userTenants, x.bucketTenantID);
    if !CanAccessBucket(x) && !CanWriteAllBuckets(x.role, x.operatorWriteAll) then false
    else if CanWriteAllBuckets(x.role, x.operatorWriteAll) then true
    else if IsOwner(x) then true
    else if OnTeam(x) then true
    else role.Some? && TenantRoleCanWrite(role.value)
  }

  /** resolveBucketAccess. */
  predicate ResolveBucketAccess(x: Input, write: bool) {
    if x.bucketTenantID != "" || x.hasGrants || x.hasPrefixGrants || x.tenantHasGroups
    then ResolveTenantBucketAccess(x, write)
    else if write then CanWriteBucket(x)
    else CanAccessBucket(x)
  }

  //// Listing

  /** The owner test of the list filter, which also matches two empty ids. */
  predicate ListOwner(x: Input) {
    x.bucketOwnerID == x.userID || (x.bucketOwner != "" && x.bucketOwner == x.username)
  }

  predicate UserHasPrefixOnlyAccess(x: Input) {
    && !ListOwner(x)
    && x.role != ADMINISTRATOR
    && !(exists i :: 0 <= i < |x.grants| && x.grants[i].userID == x.userID
                     && (x.grants[i].canRead || x.grants[i].canWrite))
    && UserHasPrefixGrant(x.prefixGrants, x.userID)
  }

  function Readable(x: Input, objs: seq<Listing.ObjectRecord>): seq<Listing.ObjectRecord> {
    if objs == [] then []
    else (if ResolveObjectKeyAccess(x, objs[0].key, false) then [objs[0]] else []) + Readable(x, objs[1..])
  }

  /** What the list handler shows: the list filter's result. */
  function Shown(x: Input, objs: seq<Listing.ObjectRecord>): seq<Listing.ObjectRecord> {
    if UserHasPrefixOnlyAccess(x) then Readable(x, objs) else objs
  }

  /** filterObjectsForPrefixAccess. */
  method FilterObjectsForPrefixAccess(x: Input, objs: seq<Listing.ObjectRecord>)
    returns (out: seq<Listing.ObjectRecord>)
    ensures out == Shown(x, objs)
  {
    hide ResolveObjectKeyAccess;
    if !UserHasPrefixOnlyAccess(x) { return objs; }
    out := [];
    var i := 0;
    while i < |objs|
      invariant 0 <= i <= |objs|
      invariant out + Readable(x, objs[i..]) == Readable(x, objs)
    {
      assert objs[i..][1..] == objs[i + 1..];
      if ResolveObjectKeyAccess(x, objs[i].key, false) {
        out := out + [objs[i]];
      }
      i := i + 1;
    }
  }

  //// What the grant searches mean

  predicate Effective(g: BucketGrant, userID: string) {
    g.userID == userID && GrantLevel(g) != ""
  }

  predicate FirstEffective(grants: seq<BucketGrant>, userID: string, i: nat) {
    i < |grants| && Effective(grants[i], userID) && forall j :: 0 <= j < i ==> !Effective(grants[j], userID)
  }

  lemma FirstEffectiveTail(grants: seq<BucketGrant>, userID: string, i: nat)
    requires grants != [] && !Effective(grants[0], userID)
    ensures FirstEffective(grants[1..], userID, i) <==> FirstEffective(grants, userID, i + 1)
  {
    hide Effective;
    assert forall j :: 0 <= j < |grants| - 1 ==> grants[1..][j] == grants[j + 1];
    if FirstEffective(grants[1..], userID, i) {
      forall j | 0 <= j < i + 1 ensures !Effective(grants[j], userID) {
        if j > 0 { assert grants[j] == grants[1..][j - 1]; }
      }
    }
  }

  lemma GrantAllowsStep(grants: seq<BucketGrant>, userID: string, write: bool)
    requires grants != []
    ensures GrantAllows(grants, userID, write)
            == if Effective(grants[0], userID) then (write ==> GrantLevel(grants[0]) != "read")
               else GrantAllows(grants[1..], userID, write)
  {
  }

  /** The first grant of the user that carries a level decides: a write or admin level
      allows everything, a read level allows reading. */
  lemma {:induction false} FirstGrantDecides(grants: seq<BucketGrant>, userID: string, write: bool)
    ensures GrantAllows(grants, userID, write) <==>
              exists i: nat :: FirstEffective(grants, userID, i) && (write ==> GrantLevel(grants[i]) != "read")
  {
    if grants != [] {
      GrantAllowsStep(grants, userID, write);
      hide GrantAllows, GrantLevel, Effective;
      if Effective(grants[0], userID) {
        assert FirstEffective(grants, userID, 0);
        assert forall i: nat :: FirstEffective(grants, userID, i) ==> i == 0;
      } else {
        var rest := grants[1..];
        FirstGrantDecides(rest, userID, write);
        if i: nat :| FirstEffective(rest, userID, i) && (write ==> GrantLevel(rest[i]) != "read") {
          FirstEffectiveTail(grants, userID, i);
          assert grants[i + 1] == rest[i];
        }
        if i: nat :| FirstEffective(grants, userID, i) && (write ==> GrantLevel(grants[i]) != "read") {
          FirstEffectiveTail(grants, userID, i - 1);
          assert grants[i] == rest[i - 1];
        }
      }
    }
  }

  predicate Matches(g: PrefixGrant, userID: string, key: string) {
    g.userID == userID && ObjectKeyMatchesPrefix(key, g.prefix)
  }

  /** The first prefix grant of the user that covers the key decides, even when it
      carries no flag. */
  lemma {:induction false} FirstPrefixDecides(grants: seq<PrefixGrant>, userID: string, key: string, write: bool)
    ensures PrefixGrantAllows(grants, userID, key, write) <==>
              exists i :: 0 <= i < |grants| && Matches(grants[i], userID, key)
                       && (forall j :: 0 <= j < i ==> !Matches(grants[j], userID, key))
                       && (grants[i].canWrite || (!write && grants[i].canRead))
  {
    hide ObjectKeyMatchesPrefix;
    if grants != [] && !Matches(grants[0], userID, key) {
      var rest := grants[1..];
      FirstPrefixDecides(rest, userID, key, write);
      if PrefixGrantAllows(rest, userID, key, write) {
        var i :| 0 <= i < |rest| && Matches(rest[i], userID, key)
                 && (forall j :: 0 <= j < i ==> !Matches(rest[j], userID, key))
                 && (rest[i].canWrite || (!write && rest[i].canRead));
        forall j | 0 <= j < i + 1 ensures !Matches(grants[j], userID, key) {
          if j > 0 { assert grants[j] == rest[j - 1]; }
        }
        assert grants[i + 1] == rest[i];
      }
      if i :| 0 <= i < |grants| && Matches(grants[i], userID, key)
              && (forall j :: 0 <= j < i ==> !Matches(grants[j], userID, key))
              && (grants[i].canWrite || (!write && grants[i].canRead)) {
        assert i > 0 && rest[i - 1] == grants[i];
        assert forall j :: 0 <= j < i - 1 ==> rest[j] == grants[j + 1];
      }
    }
  }

  /** A prefix names a folder: with or without its outer slashes it covers the key of
      that name and every key below it, and nothing else. */
  lemma PrefixNamesFolder(key: string, name: string)
    requires name != "" && name[0] != '/' && name[|name| - 1] != '/'
    requires !IsSpace(name[0]) && !IsSpace(name[|name| - 1])
    ensures ObjectKeyMatchesPrefix(key, name) <==> key == name || name + "/" <= key
    ensures ObjectKeyMatchesPrefix(key, name + "/") <==> key == name || name + "/" <= key
    ensures ObjectKeyMatchesPrefix(key, "/" + name) <==> key == name || name + "/" <= key
    ensures ObjectKeyMatchesPrefix(key, "/" + name + "/") <==> key == name || name + "/" <= key
  {
    TrimUntouched(name, IsSpace);
    TrimUntouched(name + "/", IsSpace);
    TrimUntouched("/" + name, IsSpace);
    TrimUntouched("/" + name + "/", IsSpace);
    hide TrimSpace;
    assert ("/" + name)[1..] == name;
    assert ("/" + name + "/")[1..] == name + "/";
    assert (name + "/")[..|name|] == name;
  }

  //// Lemmas on grants

  lemma {:induction false} GrantWriteReads(grants: seq<BucketGrant>, userID: string)
    requires GrantAllows(grants, userID, true)
    ensures GrantAllows(grants, userID, false)
  {
    if grants != [] && !(grants[0].userID == userID && GrantLevel(grants[0]) != "") {
      GrantWriteReads(grants[1..], userID);
    }
  }

  /** Any grant flag, or any level, of the user allows reading. */
  lemma {:induction false} GrantReads(grants: seq<BucketGrant>, userID: string, i: nat)
    requires i < |grants| && grants[i].userID == userID && (grants[i].canRead || grants[i].canWrite)
    ensures GrantAllows(grants, userID, false)
  {
    if i > 0 { GrantReads(grants[1..], userID, i - 1); }
  }

  lemma {:induction false} PrefixWriteReads(grants: seq<PrefixGrant>, userID: string, key: string)
    requires PrefixGrantAllows(grants, userID, key, true)
    ensures PrefixGrantAllows(grants, userID, key, false)
  {
    hide ObjectKeyMatchesPrefix;
    if grants != [] && !(grants[0].userID == userID && ObjectKeyMatchesPrefix(key, grants[0].prefix)) {
      PrefixWriteReads(grants[1..], userID, key);
    }
  }

  lemma {:induction false} PrefixAllowsNeedsGrant(grants: seq<PrefixGrant>, userID: string, key: string, write: bool)
    requires PrefixGrantAllows(grants, userID, key, write)
    ensures UserHasPrefixGrant(grants, userID)
  {
    hide ObjectKeyMatchesPrefix;
    if !(grants[0].userID == userID && ObjectKeyMatchesPrefix(key, grants[0].prefix)) {
      PrefixAllowsNeedsGrant(grants[1..], userID, key, write);
      var rest := grants[1..];
      var i :| 0 <= i < |rest| && rest[i].userID == userID && (rest[i].canRead || rest[i].canWrite);
      assert grants[i + 1] == rest[i];
    }
  }

  //// Resolver coherence

  /** The clauses that allow a read before group access is looked at. */
  predicate ReadsWithoutGroups(x: Input) {
    || CanSeeAllBuckets(x.role)
    || IsOwner(x)
    || TenantMemberRole(x.userTenants, x.bucketTenantID) == Some(TENANT_ADMIN)
    || (x.hasGrants && GrantAllows(x.grants, x.userID, false))
    || (x.hasPrefixGrants && UserHasPrefixGrant(x.prefixGrants, x.userID))
  }

  /** A group that grants writing but not reading, to a user with no other claim. */
  predicate WriteOnlyGroup(x: Input) {
    x.groupAccess.Some? && x.groupAccess.value.canWrite && !x.groupAccess.value.canRead && !ReadsWithoutGroups(x)
  }

  /** Write access to a bucket implies read access, except exactly under a write-only
      group. */
  lemma BucketWriteImpliesRead(x: Input)
    ensures (ResolveTenantBucketAccess(x, true) && !ResolveTenantBucketAccess(x, false)) <==> WriteOnlyGroup(x)
  {
    hide GrantAllows, UserHasPrefixGrant, FirstRole;
    if GrantAllows(x.grants, x.userID, true) { GrantWriteReads(x.grants, x.userID); }
  }

  /** The same for every object key. */
  lemma ObjectWriteImpliesRead(x: Input, key: string)
    ensures (ResolveObjectKeyAccess(x, key, true) && !ResolveObjectKeyAccess(x, key, false)) ==> WriteOnlyGroup(x)
    ensures WriteOnlyGroup(x) ==> ResolveObjectKeyAccess(x, key, true) && !ResolveObjectKeyAccess(x, key, false)
  {
    BucketWriteImpliesRead(x);
    hide GrantAllows, UserHasPrefixGrant, FirstRole, PrefixGrantAllows;
    if GrantAllows(x.grants, x.userID, true) { GrantWriteReads(x.grants, x.userID); }
    if PrefixGrantAllows(x.prefixGrants, x.userID, key, true) { PrefixWriteReads(x.prefixGrants, x.userID, key); }
    if PrefixGrantAllows(x.prefixGrants, x.userID, key, false) {
      PrefixAllowsNeedsGrant(x.prefixGrants, x.userID, key, false);
    }
  }

  /** Group access as the stores build it: whoever a group lets write may read. */
  predicate GroupReads(x: Input) {
    x.groupAccess.Some? ==> x.groupAccess.value.canRead
  }

  /** With such group access, write access implies read access to every bucket, by
      either resolver, and to every object key. */
  lemma WriteImpliesRead(x: Input, key: string)
    requires GroupReads(x)
    ensures ResolveTenantBucketAccess(x, true) ==> ResolveTenantBucketAccess(x, false)
    ensures ResolveBucketAccess(x, true) ==> ResolveBucketAccess(x, false)
    ensures ResolveObjectKeyAccess(x, key, true) ==> ResolveObjectKeyAccess(x, key, false)
  {
    BucketWriteImpliesRead(x);
    ObjectWriteImpliesRead(x, key);
    hide ResolveTenantBucketAccess, ResolveObjectKeyAccess, FirstRole;
  }

  predicate Unregulated(x: Input) {
    x.bucketTenantID == "" && !x.hasGrants && !x.hasPrefixGrants && !x.tenantHasGroups
  }

  /** A bucket outside every tenant and without regulation gets the same answer from
      both resolvers exactly when group access is absent, agrees with the team
      rule, or is overruled by role or ownership. */
  lemma ResolversAgree(x: Input, write: bool)
    requires Unregulated(x)
    ensures ResolveBucketAccess(x, write) == ResolveTenantBucketAccess(x, write) <==>
              || x.groupAccess.None?
              || IsOwner(x)
              || (if write then CanWriteAllBuckets(x.role, x.operatorWriteAll) else CanSeeAllBuckets(x.role))
              || (if write then x.groupAccess.value.canWrite else x.groupAccess.value.canRead) == OnTeam(x)
  {
  }

  //// The list filter agrees with the point check

  /** The point check is narrowed to the user's prefix grants. */
  predicate Narrowed(x: Input) {
    x.hasPrefixGrants && !GrantAllows(x.grants, x.userID, false) && UserHasPrefixGrant(x.prefixGrants, x.userID)
  }

  /** Narrowing goes with the filter, but for owners and administrators. */
  lemma NarrowedIsFiltered(x: Input)
    requires Narrowed(x) && !ListOwner(x) && x.role != ADMINISTRATOR
    ensures UserHasPrefixOnlyAccess(x)
  {
    hide GrantAllows, UserHasPrefixGrant;
    if i :| 0 <= i < |x.grants| && x.grants[i].userID == x.userID && (x.grants[i].canRead || x.grants[i].canWrite) {
      GrantReads(x.grants, x.userID, i);
    }
  }

  lemma {:induction false} ReadableAll(x: Input, objs: seq<Listing.ObjectRecord>)
    ensures |Readable(x, objs)| <= |objs|
    ensures Readable(x, objs) == objs <==> forall i :: 0 <= i < |objs| ==> ResolveObjectKeyAccess(x, objs[i].key, false)
  {
    hide ResolveObjectKeyAccess;
    if objs != [] {
      ReadableAll(x, objs[1..]);
      assert objs == [objs[0]] + objs[1..];
      assert forall i :: 0 <= i < |objs| - 1 ==> objs[1..][i] == objs[i + 1];
      if Readable(x, objs) == objs {
        assert Readable(x, objs)[1..] == objs[1..];
      }
    }
  }

  /** For every caller with bucket read access, what is shown is what the point check
      lets them read, exactly unless an owner or administrator holds a prefix grant
      that does not cover every object of the list. */
  lemma FilterExact(x: Input, objs: seq<Listing.ObjectRecord>)
    requires ResolveTenantBucketAccess(x, false)
    ensures Shown(x, objs) == Readable(x, objs) <==>
              || !Narrowed(x)
              || (!ListOwner(x) && x.role != ADMINISTRATOR)
              || (forall i :: 0 <= i < |objs| ==> PrefixGrantAllows(x.prefixGrants, x.userID, objs[i].key, false))
  {
    ReadableAll(x, objs);
    hide Readable, GrantAllows, UserHasPrefixGrant, PrefixGrantAllows, ResolveTenantBucketAccess;
    if Narrowed(x) && !ListOwner(x) && x.role != ADMINISTRATOR { NarrowedIsFiltered(x); }
  }

  /** A caller with bucket read access who is neither owner nor administrator is shown
      exactly the objects the point check lets them read. */
  lemma FilterAgrees(x: Input, objs: seq<Listing.ObjectRecord>)
    requires ResolveTenantBucketAccess(x, false) && !ListOwner(x) && x.role != ADMINISTRATOR
    ensures Shown(x, objs) == Readable(x, objs)
  {
    hide Readable, Shown, Narrowed, ResolveTenantBucketAccess, PrefixGrantAllows;
    FilterExact(x, objs);
  }

  /** Read access decided by team on an unregulated bucket, against a group that refuses
      reading: the two resolvers disagree there. */
  predicate TeamAgainstGroup(x: Input) {
    Unregulated(x) && x.groupAccess.Some? && !x.groupAccess.value.canRead && !CanSeeAllBuckets(x.role)
  }

  /** The same with read access taken from resolveBucketAccess, as the list handler
      does: it fails exactly where the resolvers disagree. */
  lemma FilterAgreesWithHandler(x: Input, objs: seq<Listing.ObjectRecord>)
    requires ResolveBucketAccess(x, false) && !ListOwner(x) && x.role != ADMINISTRATOR
    ensures Shown(x, objs) == Readable(x, objs) <==>
              !TeamAgainstGroup(x) || UserHasPrefixOnlyAccess(x) || objs == []
  {
    hide Readable, UserHasPrefixGrant, UserHasPrefixOnlyAccess, GrantAllows, PrefixGrantAllows;
    ReadableAll(x, objs);
    if !TeamAgainstGroup(x) {
      FilterAgrees(x, objs);
    } else if objs != [] {
      assert !ResolveObjectKeyAccess(x, objs[0].key, false);
    } else {
      assert Readable(x, objs) == [];
    }
  }

  /** With group access as the stores build it, the list shows a caller who is neither
      owner nor administrator, and may read the bucket, exactly the objects they may
      read. */
  lemma FilterAgreesForReaders(x: Input, objs: seq<Listing.ObjectRecord>)
    requires ResolveBucketAccess(x, false) && !ListOwner(x) && x.role != ADMINISTRATOR && GroupReads(x)
    ensures Shown(x, objs) == Readable(x, objs)
  {
    hide Readable, Shown, ResolveBucketAccess, UserHasPrefixOnlyAccess;
    FilterAgreesWithHandler(x, objs);
  }

  /** A grant of the prefix a/ to the user u does not cover the key b. */
  lemma NotCovered()
    ensures var gs := [PrefixGrant("u", "a/", true, false)];
            UserHasPrefixGrant(gs, "u") && !PrefixGrantAllows(gs, "u", "b", false)
  {
    var gs := [PrefixGrant("u", "a/", true, false)];
    assert gs[0].userID == "u" && gs[0].canRead;
    assert TrimSpace("a/") == "a/" by { TrimUntouched("a/", IsSpace); }
    assert !ObjectKeyMatchesPrefix("b", "a/");
    assert gs[1..] == [];
  }

  /** An administrator who holds a prefix grant, as a member of the bucket's tenant, is
      listed objects that the point check refuses. */
  lemma AdministratorSeesMore()
    ensures var x := Input(ADMINISTRATOR, false, "u", "ann", [], "o", "bob", "", "t",
                           [Membership("t", TENANT_MEMBER)], [], [PrefixGrant("u", "a/", true, false)],
                           false, true, None, false, false);
            && ResolveTenantBucketAccess(x, false)
            && !UserHasPrefixOnlyAccess(x)
            && !ResolveObjectKeyAccess(x, "b", false)
  {
    NotCovered();
    hide UserHasPrefixGrant, PrefixGrantAllows;
  }

  /** So is an owner whom the bucket records by name only, so that a grant could be made
      out to their id. */
  lemma OwnerByNameSeesMore()
    ensures var x := Input("user", false, "u", "ann", [], "", "ann", "", "t", [Membership("t", TENANT_MEMBER)], [],
                           [PrefixGrant("u", "a/", true, false)], false, true, None, false, false);
            && ResolveTenantBucketAccess(x, false)
            && !UserHasPrefixOnlyAccess(x)
            && !ResolveObjectKeyAccess(x, "b", false)
  {
    NotCovered();
    hide UserHasPrefixGrant, PrefixGrantAllows;
  }
}
