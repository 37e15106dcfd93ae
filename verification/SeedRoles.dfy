/** The starter-role seed (seed-roles.ts), over any seeds and any roles already there. */
module SeedRoles {
  import opened Options
  import opened Sequences

  datatype Role = Role(description: string, permissions: seq<string>)

  datatype Seed = Seed(name: string, description: string, permissions: seq<string>)

  /** Roles are unique by organization and name. */
  datatype Key = Key(organizationId: string, name: string)

  type Roles = map<Key, Role>

  datatype Kept = Kept(name: string, permissions: nat, created: bool)

  datatype Outcome =
    | NoOrganization(organizationId: string)
    | UnknownPermissions(name: string, unknown: seq<string>)
    | Seeded(organization: string, roles: seq<Kept>)

  /** The upsert: an existing role has its description refreshed and nothing else. */
  function Upserted(roles: Roles, organizationId: string, seed: Seed): Roles {
    var key := Key(organizationId, seed.name);
    roles[key := if key in roles then roles[key].(description := seed.description)
                 else Role(seed.description, seed.permissions)]
  }

  function AfterSeeds(roles: Roles, organizationId: string, seeds: seq<Seed>): Roles {
    if |seeds| == 0 then roles
    else Upserted(AfterSeeds(roles, organizationId, seeds[..|seeds| - 1]), organizationId, seeds[|seeds| - 1])
  }

  function Reported(roles: Roles, organizationId: string, seeds: seq<Seed>): (kept: seq<Kept>)
    ensures |kept| == |seeds|
  {
    if |seeds| == 0 then []
    else
      var before, seed := seeds[..|seeds| - 1], seeds[|seeds| - 1];
      Reported(roles, organizationId, before) +
      [Kept(seed.name, |seed.permissions|,
            Key(organizationId, seed.name) !in AfterSeeds(roles, organizationId, before))]
  }

  predicate Sound(seed: Seed, known: string -> bool) {
    Filter(seed.permissions, Not(known)) == []
  }

  /** How many seeds a run writes: those before the first that names an unknown permission. */
  function Written(seeds: seq<Seed>, known: string -> bool): (count: nat)
    ensures count <= |seeds|
    ensures forall j :: 0 <= j < count ==> Sound(seeds[j], known)
    ensures count < |seeds| ==> !Sound(seeds[count], known)
  {
    if |seeds| == 0 || !Sound(seeds[0], known) then 0 else 1 + Written(seeds[1..], known)
  }

  /** The roles and the report of the first `count` seeds. */
  ghost predicate Through(
    roles: Roles, was: Roles, results: seq<Kept>, organizationId: string, seeds: seq<Seed>, count: nat)
    requires count <= |seeds|
  {
    && roles == AfterSeeds(was, organizationId, seeds[..count])
    && results == Reported(was, organizationId, seeds[..count])
  }

  lemma ThroughOneMore(roles: Roles, was: Roles, results: seq<Kept>, organizationId: string, seeds: seq<Seed>, i: nat)
    requires i < |seeds| && Through(roles, was, results, organizationId, seeds, i)
    ensures var seed := seeds[i];
            Through(Upserted(roles, organizationId, seed), was,
                    results + [Kept(seed.name, |seed.permissions|, Key(organizationId, seed.name) !in roles)],
                    organizationId, seeds, i + 1)
  {
    assert seeds[..i + 1][..i] == seeds[..i];
  }

  class Database {
    var organizations: map<string, string>
    var roles: Roles

    /**
     * The loop writes as it goes, outside any transaction: a seed that names an unknown permission stops it with the
     * seeds before it written.
     */
    method SeedRoles(organizationId: string, seeds: seq<Seed>, known: string -> bool) returns (outcome: Outcome)
      modifies this`roles
      ensures organizationId !in organizations ==> outcome == NoOrganization(organizationId) && roles == old(roles)
      ensures organizationId in organizations ==>
                var count := Written(seeds, known);
                && roles == AfterSeeds(old(roles), organizationId, seeds[..count])
                && outcome == if count == |seeds| then
                     Seeded(organizations[organizationId], Reported(old(roles), organizationId, seeds))
                   else
                     UnknownPermissions(seeds[count].name, Filter(seeds[count].permissions, Not(known)))
    {
      if organizationId !in organizations {
        return NoOrganization(organizationId);
      }
      var results: seq<Kept> := [];
      for i := 0 to |seeds|
        invariant i <= Written(seeds, known)
        invariant Through(roles, old(roles), results, organizationId, seeds, i)
      {
        var seed := seeds[i];
        var unknown := Filter(seed.permissions, Not(known));
        if |unknown| > 0 {
          assert !Sound(seeds[i], known);
          return UnknownPermissions(seed.name, unknown);
        }
        ThroughOneMore(roles, old(roles), results, organizationId, seeds, i);
        var key := Key(organizationId, seed.name);
        var existing := key in roles;
        if existing {
          roles := roles[key := roles[key].(description := seed.description)];
        } else {
          roles := roles[key := Role(seed.description, seed.permissions)];
        }
        results := results + [Kept(seed.name, |seed.permissions|, !existing)];
      }
      assert seeds[..|seeds|] == seeds;
      return Seeded(organizations[organizationId], results);
    }
  }

  // ----- What a run leaves

  function Named(name: string): Seed -> bool {
    (seed: Seed) => seed.name == name
  }

  lemma NamedAppended(seeds: seq<Seed>, seed: Seed, name: string)
    ensures Filter(seeds + [seed], Named(name)) == Filter(seeds, Named(name)) + if seed.name == name then [seed] else []
  {
    FilterAppend(seeds, [seed], Named(name));
    assert Filter([seed], Named(name)) == if seed.name == name then [seed] else [];
  }

  /** A role as the seeds of its name leave it: the last one's description, and the permissions it already had. */
  function Refreshed(role: Option<Role>, named: seq<Seed>): Option<Role> {
    if |named| == 0 then role
    else Some(Role(named[|named| - 1].description, if role.Some? then role.value.permissions else named[0].permissions))
  }

  function At(roles: Roles, key: Key): Option<Role> {
    if key in roles then Some(roles[key]) else None
  }

  /** What the seeds of one organization say about one role: nothing, about another's. */
  function About(organizationId: string, seeds: seq<Seed>, key: Key): seq<Seed> {
    if key.organizationId == organizationId then Filter(seeds, Named(key.name)) else []
  }

  lemma UpsertedAt(roles: Roles, organizationId: string, seed: Seed, key: Key)
    ensures At(Upserted(roles, organizationId, seed), key) ==
            Refreshed(At(roles, key), if key == Key(organizationId, seed.name) then [seed] else [])
  {
  }

  lemma RefreshedAgain(role: Option<Role>, named: seq<Seed>, more: seq<Seed>)
    requires |more| <= 1
    ensures Refreshed(Refreshed(role, named), more) == Refreshed(role, named + more)
  {
    assert more == [] ==> named + more == named;
  }

  /**
   * Role by role, for any prior contents: untouched unless a seed of this organization names it; otherwise present, an
   * existing one with its own permissions, a new one with those of the first seed to name it.
   */
  lemma {:induction false} RoleAfterSeeds(roles: Roles, organizationId: string, seeds: seq<Seed>, key: Key)
    ensures At(AfterSeeds(roles, organizationId, seeds), key) ==
            Refreshed(At(roles, key), About(organizationId, seeds, key))
  {
    if |seeds| == 0 {
    } else {
      var before, seed := seeds[..|seeds| - 1], seeds[|seeds| - 1];
      var more := if key == Key(organizationId, seed.name) then [seed] else [];
      RoleAfterSeeds(roles, organizationId, before, key);
      UpsertedAt(AfterSeeds(roles, organizationId, before), organizationId, seed, key);
      assert seeds == before + [seed];
      NamedAppended(before, seed, key.name);
      assert About(organizationId, seeds, key) == About(organizationId, before, key) + more;
      RefreshedAgain(At(roles, key), About(organizationId, before, key), more);
    }
  }

  /**
   * A completed run leaves every seed's role present and adds no other, and no permission of an existing role changes.
   */
  lemma SeedingAddsWhatIsMissing(roles: Roles, organizationId: string, seeds: seq<Seed>)
    ensures var after := AfterSeeds(roles, organizationId, seeds);
            && (forall key :: key in after <==>
                  key in roles ||
                    (key.organizationId == organizationId && exists seed :: seed in seeds && seed.name == key.name))
            && (forall key :: key in roles ==> after[key].permissions == roles[key].permissions)
  {
    var after := AfterSeeds(roles, organizationId, seeds);
    forall key
      ensures key in after <==>
              key in roles ||
                (key.organizationId == organizationId && exists seed :: seed in seeds && seed.name == key.name)
      ensures key in roles ==> key in after && after[key].permissions == roles[key].permissions
    {
      RoleAfterSeeds(roles, organizationId, seeds, key);
      var named := Filter(seeds, Named(key.name));
      if |named| > 0 {
        assert named[0] in seeds;
      }
      if seed :| seed in seeds && seed.name == key.name {
        assert seed in named;
      }
    }
  }

  /** The first seed with a name gives a role that was not there its permissions, and the last its description. */
  lemma NewRoleIsAsSeeded(roles: Roles, organizationId: string, seeds: seq<Seed>, first: nat, last: nat)
    requires first <= last < |seeds| && seeds[last].name == seeds[first].name
    requires forall j :: 0 <= j < first ==> seeds[j].name != seeds[first].name
    requires forall j :: last < j < |seeds| ==> seeds[j].name != seeds[first].name
    ensures var key, after := Key(organizationId, seeds[first].name), AfterSeeds(roles, organizationId, seeds);
            && key in after && after[key].description == seeds[last].description
            && after[key].permissions == if key in roles then roles[key].permissions else seeds[first].permissions
  {
    var name := seeds[first].name;
    var named := Filter(seeds, Named(name));
    RoleAfterSeeds(roles, organizationId, seeds, Key(organizationId, name));
    FirstNamed(seeds, first);
    LastNamed(seeds, last);
  }

  lemma FirstNamed(seeds: seq<Seed>, first: nat)
    requires first < |seeds| && forall j :: 0 <= j < first ==> seeds[j].name != seeds[first].name
    ensures var named := Filter(seeds, Named(seeds[first].name)); |named| > 0 && named[0] == seeds[first]
  {
    var name := seeds[first].name;
    assert seeds == seeds[..first] + seeds[first..];
    FilterAppend(seeds[..first], seeds[first..], Named(name));
    FilterNone(seeds[..first], Named(name));
    assert seeds[first..][0] == seeds[first];
  }

  lemma LastNamed(seeds: seq<Seed>, last: nat)
    requires last < |seeds| && forall j :: last < j < |seeds| ==> seeds[j].name != seeds[last].name
    ensures var named := Filter(seeds, Named(seeds[last].name)); |named| > 0 && named[|named| - 1] == seeds[last]
  {
    var name := seeds[last].name;
    var before, after := seeds[..last], seeds[last + 1..];
    assert seeds == (before + [seeds[last]]) + after;
    FilterAppend(before + [seeds[last]], after, Named(name));
    NamedAppended(before, seeds[last], name);
    FilterNone(after, Named(name));
  }

  /**
   * A run writes every seed exactly when all their permissions are known, and stops at the first with one that is not.
   */
  lemma StopsAtTheFirstUnknown(seeds: seq<Seed>, known: string -> bool, k: nat)
    requires k <= |seeds|
    ensures Written(seeds, known) == k <==>
            && (forall j :: 0 <= j < k ==> forall p :: p in seeds[j].permissions ==> known(p))
            && (k < |seeds| ==> exists p :: p in seeds[k].permissions && !known(p))
  {
    forall seed: Seed ensures Sound(seed, known) <==> forall p :: p in seed.permissions ==> known(p) {
      SoundMeans(seed, known);
    }
  }

  lemma SoundMeans(seed: Seed, known: string -> bool)
    ensures Sound(seed, known) <==> forall p :: p in seed.permissions ==> known(p)
  {
    var unknown := Filter(seed.permissions, Not(known));
    if unknown != [] {
      assert unknown[0] in unknown;
    } else {
      forall p | p in seed.permissions ensures known(p) {
        assert p !in unknown;
      }
    }
  }

  lemma SameRoles(a: Roles, b: Roles)
    requires forall key :: At(a, key) == At(b, key)
    ensures a == b
  {
    forall key ensures key in a <==> key in b
      ensures key in a ==> a[key] == b[key]
    {
      assert At(a, key) == At(b, key);
    }
  }

  /**
   * Running again after a run that stopped part-way, or that finished, ends where one run from the start would have:
   * the first run leaves nothing to undo.
   */
  lemma ResumingIsRunning(roles: Roles, organizationId: string, done: seq<Seed>, rest: seq<Seed>)
    ensures AfterSeeds(AfterSeeds(roles, organizationId, done), organizationId, done + rest)
            == AfterSeeds(roles, organizationId, done + rest)
  {
    var stopped := AfterSeeds(roles, organizationId, done);
    var resumed := AfterSeeds(stopped, organizationId, done + rest);
    var straight := AfterSeeds(roles, organizationId, done + rest);
    forall key ensures At(resumed, key) == At(straight, key) {
      RoleAfterSeeds(roles, organizationId, done, key);
      RoleAfterSeeds(stopped, organizationId, done + rest, key);
      RoleAfterSeeds(roles, organizationId, done + rest, key);
      FilterAppend(done, rest, Named(key.name));
    }
    SameRoles(resumed, straight);
  }

  /**
   * Whatever permissions an administrator has changed since, a second run changes nothing at all and creates nothing.
   */
  lemma SecondRunChangesNothing(roles: Roles, organizationId: string, seeds: seq<Seed>, edited: Roles)
    requires var first := AfterSeeds(roles, organizationId, seeds);
             && edited.Keys == first.Keys
             && forall key :: key in first ==> edited[key].description == first[key].description
    ensures AfterSeeds(edited, organizationId, seeds) == edited
    ensures forall i :: 0 <= i < |seeds| ==> !Reported(edited, organizationId, seeds)[i].created
  {
    var first := AfterSeeds(roles, organizationId, seeds);
    var second := AfterSeeds(edited, organizationId, seeds);
    forall key ensures At(second, key) == At(edited, key) {
      RoleAfterSeeds(roles, organizationId, seeds, key);
      RoleAfterSeeds(edited, organizationId, seeds, key);
      assert key in edited <==> key in first;
      if key in first {
        assert edited[key].description == first[key].description;
      }
    }
    SameRoles(second, edited);
    SeedingAddsWhatIsMissing(roles, organizationId, seeds);
    forall i | 0 <= i < |seeds|
      ensures !Reported(edited, organizationId, seeds)[i].created
    {
      ReportIsTrue(edited, organizationId, seeds, i);
      assert seeds[i] in seeds;
    }
  }

  /** The report says "created" of exactly the roles that were not there before, once each. */
  lemma {:induction false} ReportIsTrue(roles: Roles, organizationId: string, seeds: seq<Seed>, i: nat)
    requires i < |seeds|
    ensures Reported(roles, organizationId, seeds)[i].name == seeds[i].name
    ensures Reported(roles, organizationId, seeds)[i].permissions == |seeds[i].permissions|
    ensures Reported(roles, organizationId, seeds)[i].created <==>
            Key(organizationId, seeds[i].name) !in roles && forall j :: 0 <= j < i ==> seeds[j].name != seeds[i].name
  {
    var before := seeds[..|seeds| - 1];
    if i < |before| {
      ReportIsTrue(roles, organizationId, before, i);
      assert before[i] == seeds[i] && forall j :: 0 <= j < i ==> before[j] == seeds[j];
    } else {
      SeedingAddsWhatIsMissing(roles, organizationId, before);
      assert forall seed :: seed in before <==> exists j :: 0 <= j < i && seeds[j] == seed;
    }
  }
}
