/**
  Reconciling the stored roles and permissions with their definitions at start-up
  (seed_roles_and_permissions in role_service.py).
*/
module RoleSeeding {
  datatype Role = Role(name: string, description: string, system: bool, enabled: bool, grants: set<string>)

  datatype Definition = Definition(key: string, name: string, description: string, permissions: seq<string>)

  function Members(s: seq<string>): set<string> {
    set x | x in s
  }

  /** A lone star stands for every stored permission. */
  function Desired(permissions: set<string>, d: Definition): set<string> {
    if d.permissions == ["*"] then permissions else Members(d.permissions)
  }

  function Defined(permissions: set<string>, d: Definition): Role {
    Role(d.name, d.description, true, true, Desired(permissions, d))
  }

  /** A definition names only stored permissions. */
  predicate Resolvable(permissions: set<string>, definitions: seq<Definition>) {
    forall i :: 0 <= i < |definitions| ==> Desired(permissions, definitions[i]) <= permissions
  }

  function Seeded(permissions: set<string>, roles: map<string, Role>, definitions: seq<Definition>): map<string, Role> {
    if definitions == [] then roles
    else
      var n := |definitions| - 1;
      Seeded(permissions, roles, definitions[..n])[definitions[n].key := Defined(permissions, definitions[n])]
  }

  ghost predicate DistinctKeys(definitions: seq<Definition>) {
    forall i, j :: 0 <= i < j < |definitions| ==> definitions[i].key != definitions[j].key
  }

  class RoleTables {
    var permissions: set<string>
    var roles: map<string, Role>

    /** No stored role grants a permission that is not stored. */
    ghost predicate Valid()
      reads this
    {
      forall k :: k in roles ==> roles[k].grants <= permissions
    }

    constructor ()
      ensures Valid() && permissions == {} && roles == map[]
    {
      permissions, roles := {}, map[];
    }

    /** Adds what a role lacks and removes what it should not have. */
    method Reconcile(key: string, desired: set<string>) returns (ok: bool)
      requires key in roles && roles[key].grants <= permissions
      modifies this`roles
      ensures ok <==> desired <= permissions
      ensures ok ==> roles == old(roles)[key := old(roles)[key].(grants := desired)]
      ensures !ok ==> roles == old(roles)
    {
      var current := roles[key].grants;
      ok := desired - current <= permissions;
      if ok {
        roles := roles[key := roles[key].(grants := roles[key].grants + (desired - current))];
        roles := roles[key := roles[key].(grants := roles[key].grants - (current - desired))];
        assert roles[key].grants == desired;
      }
    }

    /** All or nothing: an unknown permission rolls the whole seeding back. */
    method Seed(catalog: seq<string>, definitions: seq<Definition>) returns (ok: bool)
      requires Valid()
      modifies this
      ensures Valid()
      ensures ok <==> Resolvable(old(permissions) + Members(catalog), definitions)
      ensures ok ==> permissions == old(permissions) + Members(catalog) && roles == Seeded(permissions, old(roles), definitions)
      ensures !ok ==> permissions == old(permissions) && roles == old(roles)
    {
      var savedPermissions, savedRoles := permissions, roles;
      permissions := permissions + Members(catalog);
      for i := 0 to |definitions|
        invariant permissions == old(permissions) + Members(catalog)
        invariant Valid() && roles == Seeded(permissions, old(roles), definitions[..i])
        invariant Resolvable(permissions, definitions[..i])
      {
        var d := definitions[i];
        assert definitions[..i + 1][..i] == definitions[..i];
        var grants := if d.key in roles then roles[d.key].grants else {};
        roles := roles[d.key := Role(d.name, d.description, true, true, grants)];
        ok := Reconcile(d.key, Desired(permissions, d));
        if !ok {
          permissions, roles := savedPermissions, savedRoles;
          return;
        }
      }
      assert definitions[..|definitions|] == definitions;
      ok := true;
    }
  }

  predicate Names(definitions: seq<Definition>, key: string) {
    exists i :: 0 <= i < |definitions| && definitions[i].key == key
  }

  /** A role that no definition names is left as it was. */
  lemma {:induction false} OthersAreUntouched(permissions: set<string>, roles: map<string, Role>, definitions: seq<Definition>, key: string)
    requires !Names(definitions, key)
    ensures var after := Seeded(permissions, roles, definitions);
            (key in after <==> key in roles) && (key in roles ==> after[key] == roles[key])
  {
    if definitions != [] {
      var front := definitions[..|definitions| - 1];
      assert !Names(front, key);
      OthersAreUntouched(permissions, roles, front, key);
    }
  }

  /** A defined role ends up exactly as defined, whatever was stored: enabled, and granted what it lists, or everything for a lone star. */
  lemma {:induction false} DefinedIsExact(permissions: set<string>, roles: map<string, Role>, definitions: seq<Definition>, i: nat)
    requires DistinctKeys(definitions) && i < |definitions|
    ensures var after := Seeded(permissions, roles, definitions);
            var d := definitions[i];
            && d.key in after && after[d.key] == Defined(permissions, d)
            && after[d.key].name == d.name && after[d.key].description == d.description && after[d.key].system && after[d.key].enabled
            && (d.permissions == ["*"] ==> after[d.key].grants == permissions)
            && (d.permissions != ["*"] ==> forall p :: p in after[d.key].grants <==> p in d.permissions)
  {
    var n := |definitions| - 1;
    if i < n {
      assert definitions[..n][i] == definitions[i];
      DefinedIsExact(permissions, roles, definitions[..n], i);
    }
  }

  /** Seeding again changes nothing. */
  lemma SeedingIsIdempotent(permissions: set<string>, roles: map<string, Role>, definitions: seq<Definition>)
    requires DistinctKeys(definitions)
    ensures var once := Seeded(permissions, roles, definitions);
            Seeded(permissions, once, definitions) == once
  {
    hide Seeded, Defined;
    var once := Seeded(permissions, roles, definitions);
    var twice := Seeded(permissions, once, definitions);
    forall k ensures (k in twice <==> k in once) && (k in once ==> twice[k] == once[k]) {
      if i :| 0 <= i < |definitions| && definitions[i].key == k {
        DefinedIsExact(permissions, roles, definitions, i);
        DefinedIsExact(permissions, once, definitions, i);
      } else {
        OthersAreUntouched(permissions, once, definitions, k);
      }
    }
  }
}
