/**
 Access grants and how a caller's role is resolved from them: internal/access/registry.go. The loop over
 the sorted list is proved against a rule that looks only at which grants there are.
 */
module AccessRegistry {
  import opened Text
  import opened Order
  import opened Wrappers

  datatype Role = Admin | Superadmin

  function RoleName(r: Role): string { if r.Admin? then "admin" else "superadmin" }

  /** A grant as a file states it, and as Validate leaves it. */
  datatype RawGrant = RawGrant(identity: string, target: string, role: string)
  datatype Grant = Grant(identity: string, target: string, role: Role)

  function Normal(s: string): string { TrimSpace(ToLower(s)) }

  function Validate(g: RawGrant): Option<Grant> {
    if Normal(g.identity) == "" || Normal(g.target) == "" then None
    else if Normal(g.role) == RoleName(Admin) then Some(Grant(Normal(g.identity), Normal(g.target), Admin))
    else if Normal(g.role) == RoleName(Superadmin) then Some(Grant(Normal(g.identity), Normal(g.target), Superadmin))
    else None
  }

  /** A grant is valid exactly if its three texts read as a name, a target and one of the two roles. */
  lemma ValidateIff(raw: RawGrant, g: Grant)
    ensures Validate(raw) == Some(g) <==>
              && g.identity != "" && g.target != ""
              && ReadsAs(raw.identity, g.identity) && ReadsAs(raw.target, g.target)
              && ReadsAs(raw.role, if g.role == Admin then "admin" else "superadmin")
  {
    NormalTextIff(raw.identity, g.identity);
    NormalTextIff(raw.target, g.target);
    NormalTextIff(raw.role, "admin");
    NormalTextIff(raw.role, "superadmin");
    assert "admin"[0] != "superadmin"[0];
  }

  // ---------------------------------------------------------------- the order of grants

  predicate RoleLess(a: Role, b: Role) { a.Admin? && b.Superadmin? }

  predicate GrantLess(a: Grant, b: Grant) {
    if a.identity != b.identity then Less(a.identity, b.identity)
    else if a.target != b.target then Less(a.target, b.target)
    else RoleLess(a.role, b.role)
  }

  predicate GrantAtMost(a: Grant, b: Grant) { !GrantLess(b, a) }

  /** The roles compare as their names do. */
  lemma RolesOrderAsText(a: Role, b: Role)
    ensures RoleLess(a, b) == Less(RoleName(a), RoleName(b))
  {
    LessAsymmetric(RoleName(a), RoleName(b));
  }

  /** Identities ascend; then targets, then the names of the roles. */
  lemma GrantLessIff(a: Grant, b: Grant)
    ensures GrantLess(a, b) <==>
              || Less(a.identity, b.identity)
              || (a.identity == b.identity && Less(a.target, b.target))
              || ((a.identity, a.target) == (b.identity, b.target) && a.role == Admin && b.role == Superadmin)
  {
    LessAsymmetric(a.identity, b.identity);
    LessAsymmetric(a.target, b.target);
  }

  lemma GrantOrderIsTotal()
    ensures TotalPreorder(GrantAtMost) && Antisymmetric(GrantAtMost)
  {
    AtMostIsTotalOrder();
    forall a: Grant, b: Grant ensures GrantAtMost(a, b) || GrantAtMost(b, a) {
      assert AtMost(a.identity, b.identity) || AtMost(b.identity, a.identity);
      assert AtMost(a.target, b.target) || AtMost(b.target, a.target);
    }
    forall a: Grant, b: Grant | GrantAtMost(a, b) && GrantAtMost(b, a) ensures a == b {
      assert AtMost(a.identity, b.identity) && AtMost(b.identity, a.identity) ==> a.identity == b.identity;
      assert AtMost(a.target, b.target) && AtMost(b.target, a.target) ==> a.target == b.target;
    }
    forall a: Grant, b: Grant, c: Grant | GrantAtMost(a, b) && GrantAtMost(b, c) ensures GrantAtMost(a, c) {
      assert AtMost(a.identity, b.identity) && AtMost(b.identity, c.identity) ==> AtMost(a.identity, c.identity);
      assert AtMost(a.target, b.target) && AtMost(b.target, c.target) ==> AtMost(a.target, c.target);
      assert AtMost(a.identity, b.identity) && AtMost(b.identity, a.identity) ==> a.identity == b.identity;
      assert AtMost(a.target, b.target) && AtMost(b.target, a.target) ==> a.target == b.target;
    }
  }

  // ---------------------------------------------------------------- loading

  /** A directory entry; `grants` is None when the file cannot be read, decoded or holds unknown keys. */
  datatype Entry = Entry(name: string, isDir: bool, grants: Option<seq<RawGrant>>)

  /** The grants of a file, or None if any one of them is invalid. */
  function AllValid(raw: seq<RawGrant>): Option<seq<Grant>> {
    if raw == [] then Some([])
    else
      var m := |raw| - 1;
      var rest := AllValid(raw[..m]);
      var last := Validate(raw[m]);
      if rest.None? || last.None? then None else Some(rest.value + [last.value])
  }

  /** One invalid grant discards its whole file; otherwise every grant is kept, in place. */
  lemma {:induction false} FileIsAllOrNothing(raw: seq<RawGrant>)
    ensures AllValid(raw).None? <==> exists i :: 0 <= i < |raw| && Validate(raw[i]).None?
    ensures AllValid(raw).Some? ==>
              && |AllValid(raw).value| == |raw|
              && forall i :: 0 <= i < |raw| ==> Validate(raw[i]) == Some(AllValid(raw).value[i])
    decreases |raw|
  {
    if raw != [] {
      var m := |raw| - 1;
      FileIsAllOrNothing(raw[..m]);
      assert raw == raw[..m] + [raw[m]];
      assert forall i :: 0 <= i < m ==> Validate(raw[i]) == Validate(raw[..m][i]);
    }
  }

  /** What one entry adds to the list. */
  function Contribution(e: Entry): seq<Grant> {
    if e.isDir || !HasSuffix(e.name, ".toml") || e.grants.None? || AllValid(e.grants.value).None? then []
    else AllValid(e.grants.value).value
  }

  function Collected(entries: seq<Entry>): seq<Grant> {
    if entries == [] then [] else Collected(entries[..|entries| - 1]) + Contribution(entries[|entries| - 1])
  }

  predicate IsTomlName(name: string) { |name| >= 5 && name[|name| - 5..] == ".toml" }

  /** All grants of the file are valid, and this is one of them. */
  ghost predicate Gives(file: seq<RawGrant>, g: Grant) {
    (forall raw :: raw in file ==> Validate(raw).Some?) && exists raw :: raw in file && Validate(raw) == Some(g)
  }

  /** The grants of a directory: each is a valid grant of a readable .toml file all of whose grants are valid. */
  lemma {:induction false} CollectedIff(entries: seq<Entry>, g: Grant)
    ensures g in Collected(entries) <==>
              exists e :: e in entries && !e.isDir && IsTomlName(e.name) && e.grants.Some? && Gives(e.grants.value, g)
    decreases |entries|
  {
    if entries != [] {
      var m := |entries| - 1;
      CollectedIff(entries[..m], g);
      ContributionIff(entries[m], g);
      assert entries == entries[..m] + [entries[m]];
      assert forall e :: e in entries <==> e in entries[..m] || e == entries[m];
    }
  }

  lemma ContributionIff(e: Entry, g: Grant)
    ensures g in Contribution(e) <==>
              !e.isDir && IsTomlName(e.name) && e.grants.Some? && Gives(e.grants.value, g)
  {
    if e.grants.Some? { GivesIff(e.grants.value, g); }
  }

  lemma GivesIff(raw: seq<RawGrant>, g: Grant)
    ensures Gives(raw, g) <==> AllValid(raw).Some? && g in AllValid(raw).value
  {
    FileIsAllOrNothing(raw);
    assert (forall r :: r in raw ==> Validate(r).Some?) <==> forall i :: 0 <= i < |raw| ==> Validate(raw[i]).Some?;
    if r :| r in raw && Validate(r) == Some(g) {
      var i :| 0 <= i < |raw| && raw[i] == r;
    }
  }

  method LoadFile(raw: seq<RawGrant>) returns (loaded: Option<seq<Grant>>)
    ensures loaded == AllValid(raw)
  {
    var grants: seq<Grant> := [];
    for i := 0 to |raw|
      invariant AllValid(raw[..i]) == Some(grants)
    {
      assert raw[..i + 1][..i] == raw[..i];
      var g := Validate(raw[i]);
      if g.None? {
        FileIsAllOrNothing(raw);
        return None;
      }
      grants := grants + [g.value];
    }
    assert raw[..|raw|] == raw;
    loaded := Some(grants);
  }

  method CollectGrants(entries: seq<Entry>) returns (grants: seq<Grant>)
    ensures grants == Collected(entries)
  {
    grants := [];
    for i := 0 to |entries|
      invariant grants == Collected(entries[..i])
    {
      assert entries[..i + 1][..i] == entries[..i];
      var e := entries[i];
      if e.isDir || !HasSuffix(e.name, ".toml") || e.grants.None? {
        continue;
      }
      var loaded := LoadFile(e.grants.value);
      if loaded.None? {
        continue;
      }
      grants := grants + loaded.value;
    }
    assert entries[..|entries|] == entries;
  }

  // ---------------------------------------------------------------- the rule

  function GrantSet(grants: seq<Grant>): set<Grant> { set g | g in grants }

  /**
   Which role a caller has, from the set of grants alone: an exact target first, where admin wins a tie;
   else the wildcard, where superadmin wins.
   */
  function Rule(grants: set<Grant>, identity: string, target: string): Option<Role> {
    if Grant(identity, target, Admin) in grants then Some(Admin)
    else if Grant(identity, target, Superadmin) in grants then Some(Superadmin)
    else if Grant(identity, "*", Superadmin) in grants then Some(Superadmin)
    else if Grant(identity, "*", Admin) in grants then Some(Admin)
    else None
  }

  /** A caller with no role for a target has none for the wildcard either. */
  lemma SecondLookupFails(grants: set<Grant>, identity: string, target: string)
    requires Rule(grants, identity, target).None?
    ensures Rule(grants, identity, "*").None?
  {
  }

  /** One more grant takes a role away only when it is the exact admin grant of a caller who was superadmin. */
  lemma GrantDemotesIff(grants: set<Grant>, g: Grant, identity: string, target: string)
    ensures Rule(grants, identity, target) == Some(Superadmin)
            && Rule(grants + {g}, identity, target) != Some(Superadmin)
       <==> Rule(grants, identity, target) == Some(Superadmin) && g == Grant(identity, target, Admin)
    ensures Rule(grants, identity, target).Some? ==> Rule(grants + {g}, identity, target).Some?
  {
  }

  /** How far the loop has come: no exact match yet, and the last wildcard of the caller seen. */
  ghost predicate Scanned(seen: seq<Grant>, identity: string, target: string, wildcard: Option<Role>) {
    && (forall g :: g in seen && g.identity == identity ==> g.target != target)
    && (wildcard.None? ==> forall g :: g in seen && g.identity == identity ==> g.target != "*")
    && (wildcard.Some? ==> Grant(identity, "*", wildcard.value) in seen)
    && (wildcard == Some(Admin) ==> Grant(identity, "*", Superadmin) !in seen)
  }

  lemma ExactMatchIsRule(grants: seq<Grant>, i: nat, identity: string, target: string, wildcard: Option<Role>)
    requires SortedBy(GrantAtMost, grants) && i < |grants|
    requires Scanned(grants[..i], identity, target, wildcard)
    requires grants[i].identity == identity && grants[i].target == target
    ensures Rule(GrantSet(grants), identity, target) == Some(grants[i].role)
  {
    var admin := Grant(identity, target, Admin);
    if grants[i].role.Superadmin? {
      forall j | 0 <= j < |grants| ensures grants[j] != admin {
        if j < i {
          assert grants[j] in grants[..i];
        } else if j > i {
          assert GrantAtMost(grants[i], grants[j]);
        }
      }
    }
  }

  lemma ScannedAllIsRule(grants: seq<Grant>, identity: string, target: string, wildcard: Option<Role>)
    requires Scanned(grants, identity, target, wildcard)
    ensures wildcard == Rule(GrantSet(grants), identity, target)
  {
    assert Grant(identity, target, Admin) !in grants && Grant(identity, target, Superadmin) !in grants;
    var all := GrantSet(grants);
    assert Grant(identity, target, Admin) !in all && Grant(identity, target, Superadmin) !in all;
    var super, admin := Grant(identity, "*", Superadmin), Grant(identity, "*", Admin);
    match wildcard
    case None => assert super !in all && admin !in all;
    case Some(Superadmin) => assert super in all;
    case Some(Admin) => assert admin in all && super !in all;
  }

  lemma ScannedGrows(grants: seq<Grant>, i: nat, identity: string, target: string, wildcard: Option<Role>)
    requires SortedBy(GrantAtMost, grants) && i < |grants|
    requires Scanned(grants[..i], identity, target, wildcard)
    requires grants[i].identity != identity || grants[i].target != target
    ensures Scanned(grants[..i + 1], identity, target,
                    if grants[i].identity == identity && grants[i].target == "*"
                    then Some(grants[i].role) else wildcard)
  {
    var last := grants[i];
    assert grants[..i + 1] == grants[..i] + [last];
    var super := Grant(identity, "*", Superadmin);
    if super in grants[..i] {
      var j :| 0 <= j < i && grants[j] == super;
      assert GrantAtMost(grants[j], grants[i]);
    }
  }

  class Registry {
    var grants: seq<Grant>

    /** The grants are sorted, and the order leaves them no choice of places. */
    ghost predicate Valid()
      reads this
    {
      SortedBy(GrantAtMost, grants)
    }

    constructor ()
      ensures Valid() && grants == []
    {
      grants := [];
    }

    /** `entries` is None when the directory cannot be listed; the old grants then stay. */
    method Reload(entries: Option<seq<Entry>>) returns (failed: bool)
      requires Valid()
      modifies this
      ensures Valid() && (failed <==> entries.None?)
      ensures if failed then grants == old(grants) else multiset(grants) == multiset(Collected(entries.value))
    {
      if entries.None? { return true; }
      var collected := CollectGrants(entries.value);
      GrantOrderIsTotal();
      grants := Sort(GrantAtMost, collected);
      failed := false;
    }

    method RoleFor(identity: string, target: string) returns (role: Option<Role>)
      requires Valid()
      ensures role == Rule(GrantSet(grants), ToLower(identity), ToLower(target))
    {
      var id, t := ToLower(identity), ToLower(target);
      var wildcard: Option<Role> := None;
      for i := 0 to |grants|
        invariant Scanned(grants[..i], id, t, wildcard)
      {
        var grant := grants[i];
        if grant.identity == id && grant.target == t {
          ExactMatchIsRule(grants, i, id, t, wildcard);
          return Some(grant.role);
        }
        ScannedGrows(grants, i, id, t, wildcard);
        if grant.identity == id && grant.target == "*" {
          wildcard := Some(grant.role);
        }
      }
      assert grants[..|grants|] == grants;
      ScannedAllIsRule(grants, id, t, wildcard);
      role := wildcard;
    }

    /** The answer is the rule's for the target asked about: the lookup of the wildcard never changes it. */
    method Allow(identity: string, capability: string, target: string) returns (allowed: bool)
      requires Valid()
      ensures allowed <==> MayAct(GrantSet(grants), ToLower(identity), ToLower(target), capability)
    {
      PermitsIff(GrantSet(grants), ToLower(identity), ToLower(target), capability);
      var role := RoleFor(identity, target);
      if role.None? {
        SecondLookupFails(GrantSet(grants), ToLower(identity), ToLower(target));
        assert ToLower("*") == "*";
        role := RoleFor(identity, "*");
      }
      if role.None? { return false; }
      match capability
      case "service.write" => allowed := role.value.Admin? || role.value.Superadmin?;
      case "host.write" => allowed := role.value.Superadmin?;
      case "access.write" => allowed := role.value.Superadmin?;
      case "admin.transfer" => allowed := role.value.Superadmin?;
      case _ => allowed := false;
    }
  }

  predicate Permits(role: Option<Role>, capability: string) {
    match capability
    case "service.write" => role.Some?
    case "host.write" => role == Some(Superadmin)
    case "access.write" => role == Some(Superadmin)
    case "admin.transfer" => role == Some(Superadmin)
    case _ => false
  }

  /**
   Who may do what, by the grants: services with any grant for the target or for all targets; hosts, grants and
   the admin role with a superadmin grant for the target that no admin grant for it overrides, or with one for
   all targets if there is no grant for the target.
   */
  ghost predicate MayAct(grants: set<Grant>, identity: string, target: string, capability: string) {
    if capability == "service.write" then
      exists g :: g in grants && g.identity == identity && (g.target == target || g.target == "*")
    else
      && capability in {"host.write", "access.write", "admin.transfer"}
      && (if exists g :: g in grants && g.identity == identity && g.target == target
          then Grant(identity, target, Admin) !in grants
          else Grant(identity, "*", Superadmin) in grants)
  }

  lemma PermitsIff(grants: set<Grant>, identity: string, target: string, capability: string)
    ensures Permits(Rule(grants, identity, target), capability) <==> MayAct(grants, identity, target, capability)
  {
    var role := Rule(grants, identity, target);
    forall g | g in grants && g.identity == identity && (g.target == target || g.target == "*")
      ensures role.Some? && (g.target == target ==> role == Some(Admin) || Grant(identity, target, Admin) !in grants)
    {
      OneOfTwo(g);
    }
    if exists g :: g in grants && g.identity == identity && g.target == target {
      var g :| g in grants && g.identity == identity && g.target == target;
      OneOfTwo(g);
    }
  }

  lemma OneOfTwo(g: Grant)
    ensures g == Grant(g.identity, g.target, Admin) || g == Grant(g.identity, g.target, Superadmin)
  {
    match g.role
    case Admin =>
    case Superadmin =>
  }

  /** Which files the grants came from, and in what order, does not show: the sorted lists are equal. */
  lemma ReloadIsOrderFree(es: seq<Entry>, fs: seq<Entry>, a: seq<Grant>, b: seq<Grant>)
    requires multiset(Collected(es)) == multiset(Collected(fs))
    requires SortedBy(GrantAtMost, a) && multiset(a) == multiset(Collected(es))
    requires SortedBy(GrantAtMost, b) && multiset(b) == multiset(Collected(fs))
    ensures a == b
  {
    GrantOrderIsTotal();
    SortedUnique(GrantAtMost, a, b);
  }
}
