/**
 * The super-admin seed (seed-super-admin.ts) over any consistent database. What the database answers to a query, and
 * what is drawn at random, are inputs; the foreign key from a credential to its profile follows the profile's update.
 */
module SeedSuperAdmin {
  import opened Options

  datatype UserRole = SystemAdmin | AnotherRole(name: string)

  datatype Profile = Profile(authUserId: string, email: string, displayName: string, isActive: bool)

  datatype Member = Member(organizationId: string, userProfileId: string, role: UserRole)

  /** Stored under its `authUserId`. */
  datatype Credential = Credential(email: string, passwordHash: string, mustChangePassword: bool)

  datatype Database = Database(
    organizations: map<string, string>,
    profiles: map<string, Profile>,
    members: map<string, Member>,
    credentials: map<string, Credential>)

  /** `email` as trimmed and lower-cased. */
  datatype Config = Config(
    email: string,
    password: Option<string>,
    reset: bool,
    displayName: string,
    organizationId: string,
    organizationName: string)

  /** The identifiers a run would mint, and the password it would draw. */
  datatype Chance = Chance(authUserId: string, profileId: string, memberId: string, password: string)

  datatype Outcome =
    | UniqueViolation
    | Seeded(profileId: string, profile: Profile, temporaryPassword: Option<string>, mustChangePassword: bool)

  // ----- The constraints

  ghost predicate ProfilesAreUnique(profiles: map<string, Profile>) {
    forall i, j :: i in profiles && j in profiles && i != j ==>
      profiles[i].authUserId != profiles[j].authUserId && profiles[i].email != profiles[j].email
  }

  ghost predicate EmailsAreUnique(credentials: map<string, Credential>) {
    forall a, b :: a in credentials && b in credentials && a != b ==> credentials[a].email != credentials[b].email
  }

  ghost predicate HasProfile(profiles: map<string, Profile>, authUserId: string) {
    exists i :: i in profiles && profiles[i].authUserId == authUserId
  }

  ghost predicate CredentialsHaveProfiles(db: Database) {
    forall a :: a in db.credentials ==> HasProfile(db.profiles, a)
  }

  ghost predicate MembersAreSound(db: Database) {
    && (forall m :: m in db.members ==>
          db.members[m].organizationId in db.organizations && db.members[m].userProfileId in db.profiles)
    && (forall m, n :: m in db.members && n in db.members && m != n ==> db.members[m] != db.members[n])
  }

  ghost predicate Consistent(db: Database) {
    && ProfilesAreUnique(db.profiles) && EmailsAreUnique(db.credentials)
    && CredentialsHaveProfiles(db) && MembersAreSound(db)
  }

  // ----- What the queries answer

  /** `authCredential.findUnique({ where: { email } })` */
  ghost predicate FindsCredential(db: Database, email: string, existing: Option<string>) {
    match existing
    case None => forall a :: a in db.credentials ==> db.credentials[a].email != email
    case Some(a) => a in db.credentials && db.credentials[a].email == email
  }

  predicate Matches(profile: Profile, authUserId: string, email: string) {
    profile.authUserId == authUserId || profile.email == email
  }

  /** `userProfile.findFirst({ where: { OR: [{ authUserId }, { email }] } })`: any that matches. */
  ghost predicate FindsProfile(db: Database, authUserId: string, email: string, found: Option<string>) {
    match found
    case None => forall i :: i in db.profiles ==> !Matches(db.profiles[i], authUserId, email)
    case Some(i) => i in db.profiles && Matches(db.profiles[i], authUserId, email)
  }

  ghost predicate Fresh(db: Database, chance: Chance) {
    && !HasProfile(db.profiles, chance.authUserId)
    && chance.profileId !in db.profiles && chance.memberId !in db.members
  }

  // ----- One run

  predicate Taken(profiles: map<string, Profile>, id: string, authUserId: string, email: string) {
    exists other :: other in profiles && other != id && Matches(profiles[other], authUserId, email)
  }

  /** `ON UPDATE CASCADE`: the credential goes with its profile's `authUserId`. */
  function Cascade(credentials: map<string, Credential>, was: string, now: string): map<string, Credential> {
    if was != now && was in credentials then (credentials - {was})[now := credentials[was]] else credentials
  }

  predicate IsMember(members: map<string, Member>, member: Member) {
    exists m :: m in members && members[m] == member
  }

  function Joined(members: map<string, Member>, id: string, member: Member): map<string, Member> {
    if IsMember(members, member) then members else members[id := member]
  }

  /** `upsertSystemAdminProfileWithPrisma`, when it commits. */
  function WithProfile(
    db: Database, config: Config, authUserId: string, found: Option<string>, chance: Chance): Database
    requires found.Some? ==> found.value in db.profiles
  {
    var id := ProfileId(found, chance);
    Database(
      db.organizations[config.organizationId := config.organizationName],
      db.profiles[id := Profile(authUserId, config.email, config.displayName, true)],
      Joined(db.members, chance.memberId, Member(config.organizationId, id, SystemAdmin)),
      if found.Some? then Cascade(db.credentials, db.profiles[id].authUserId, authUserId) else db.credentials)
  }

  function WithCredential(db: Database, config: Config, authUserId: string, passwordHash: string): Database {
    db.(credentials := db.credentials[authUserId :=
      if authUserId in db.credentials && !config.reset then db.credentials[authUserId].(email := config.email)
      else Credential(config.email, passwordHash, true)])
  }

  function AuthUserIdOf(existing: Option<string>, chance: Chance): string {
    if existing.Some? then existing.value else chance.authUserId
  }

  function ProfileId(found: Option<string>, chance: Chance): string {
    if found.Some? then found.value else chance.profileId
  }

  function PasswordOf(config: Config, chance: Chance): string {
    if config.password.Some? then config.password.value else chance.password
  }

  function Run(
    db: Database, config: Config, existing: Option<string>, found: Option<string>, chance: Chance,
    hash: string -> string
  ): (Database, Outcome)
    requires found.Some? ==> found.value in db.profiles
  {
    var authUserId := AuthUserIdOf(existing, chance);
    var id := ProfileId(found, chance);
    var wrotePassword := existing.None? || config.reset;
    if Taken(db.profiles, id, authUserId, config.email) then (db, UniqueViolation)
    else
      (WithCredential(WithProfile(db, config, authUserId, found, chance), config, authUserId,
        hash(PasswordOf(config, chance))),
       Seeded(id, Profile(authUserId, config.email, config.displayName, true),
              if wrotePassword && config.password.None? then Some(chance.password) else None, wrotePassword))
  }

  class Store {
    var organizations: map<string, string>
    var profiles: map<string, Profile>
    var members: map<string, Member>
    var credentials: map<string, Credential>

    ghost function Now(): Database
      reads this
    {
      Database(organizations, profiles, members, credentials)
    }

    /** One transaction: a unique violation undoes what came before it. */
    method UpsertProfile(config: Config, authUserId: string, found: Option<string>, chance: Chance)
      returns (ok: bool, id: string)
      requires FindsProfile(Now(), authUserId, config.email, found)
      modifies this
      ensures id == ProfileId(found, chance)
      ensures ok == !Taken(old(profiles), id, authUserId, config.email)
      ensures Now() == if ok then WithProfile(old(Now()), config, authUserId, found, chance) else old(Now())
    {
      var before := organizations;
      organizations := organizations[config.organizationId := config.organizationName];
      id := ProfileId(found, chance);
      ok := !Taken(profiles, id, authUserId, config.email);
      if !ok {
        organizations := before;
        return;
      }
      if found.Some? {
        credentials := Cascade(credentials, profiles[id].authUserId, authUserId);
      }
      profiles := profiles[id := Profile(authUserId, config.email, config.displayName, true)];
      var member := Member(config.organizationId, id, SystemAdmin);
      if !IsMember(members, member) {
        members := members[chance.memberId := member];
      }
    }

    method Seed(config: Config, existing: Option<string>, found: Option<string>, chance: Chance, hash: string -> string)
      returns (outcome: Outcome)
      requires FindsCredential(Now(), config.email, existing)
      requires FindsProfile(Now(), AuthUserIdOf(existing, chance), config.email, found)
      modifies this
      ensures (Now(), outcome) == Run(old(Now()), config, existing, found, chance, hash)
    {
      var authUserId := AuthUserIdOf(existing, chance);
      var passwordHash := hash(PasswordOf(config, chance));
      var ok, id := UpsertProfile(config, authUserId, found, chance);
      if !ok {
        return UniqueViolation;
      }
      var wrotePassword := existing.None? || config.reset;
      if authUserId !in credentials {
        credentials := credentials[authUserId := Credential(config.email, passwordHash, true)];
      } else if config.reset {
        var changed := Credential(config.email, passwordHash, true);
        credentials := credentials[authUserId := changed];
      } else {
        credentials := credentials[authUserId := credentials[authUserId].(email := config.email)];
      }
      return Seeded(id, profiles[id],
                    if wrotePassword && config.password.None? then Some(chance.password) else None, wrotePassword);
    }
  }

  // ----- Over any consistent database

  /** A run as it can happen: against a consistent database that answers as it must, with identifiers nobody has. */
  ghost predicate CanRun(
    db: Database, config: Config, existing: Option<string>, found: Option<string>, chance: Chance
  ) {
    && Consistent(db) && Fresh(db, chance)
    && FindsCredential(db, config.email, existing)
    && FindsProfile(db, AuthUserIdOf(existing, chance), config.email, found)
  }

  /** The email signs in to one profile and is the address of another. */
  ghost predicate Clash(db: Database, email: string) {
    exists a, i :: a in db.credentials && db.credentials[a].email == email
                   && i in db.profiles && db.profiles[i].email == email && db.profiles[i].authUserId != a
  }

  /** Whichever profile the query happens on, a run fails exactly on such a clash, and then it has changed nothing. */
  lemma SeedFailsExactlyOnClash(
    db: Database, config: Config, existing: Option<string>, found: Option<string>, chance: Chance,
    hash: string -> string)
    requires CanRun(db, config, existing, found, chance)
    ensures Run(db, config, existing, found, chance, hash).1.UniqueViolation? <==> Clash(db, config.email)
    ensures Run(db, config, existing, found, chance, hash).1.UniqueViolation? ==>
              Run(db, config, existing, found, chance, hash).0 == db
  {
    var authUserId := AuthUserIdOf(existing, chance);
    var id := ProfileId(found, chance);
    if Clash(db, config.email) {
      var a, i :| a in db.credentials && db.credentials[a].email == config.email
                  && i in db.profiles && db.profiles[i].email == config.email && db.profiles[i].authUserId != a;
      assert existing == Some(a);
      assert HasProfile(db.profiles, a);
      var j :| j in db.profiles && db.profiles[j].authUserId == a;
      assert i != j && Matches(db.profiles[i], a, config.email) && Matches(db.profiles[j], a, config.email);
      assert Taken(db.profiles, id, authUserId, config.email);
    }
    if Taken(db.profiles, id, authUserId, config.email) {
      var other :| other in db.profiles && other != id && Matches(db.profiles[other], authUserId, config.email);
      assert found.Some? && existing.Some?;
      assert Clash(db, config.email);
    }
  }

  /** What the queries establish before anything is written, when nothing stands in the way. */
  lemma KnownAccount(db: Database, config: Config, existing: Option<string>, found: Option<string>, chance: Chance)
    requires CanRun(db, config, existing, found, chance)
    requires !Taken(db.profiles, ProfileId(found, chance), AuthUserIdOf(existing, chance), config.email)
    ensures existing.Some? ==> found.Some? && db.profiles[found.value].authUserId == existing.value
    ensures existing.None? ==> AuthUserIdOf(existing, chance) !in db.credentials
    ensures found.None? ==> ProfileId(found, chance) !in db.profiles
    ensures forall a :: a in db.credentials && a != AuthUserIdOf(existing, chance) ==>
            db.credentials[a].email != config.email
  {
    if existing.Some? {
      assert HasProfile(db.profiles, existing.value);
      var i :| i in db.profiles && db.profiles[i].authUserId == existing.value;
      assert Matches(db.profiles[i], existing.value, config.email);
      assert i == ProfileId(found, chance);
    }
  }

  lemma ProfilesStayUnique(profiles: map<string, Profile>, id: string, profile: Profile)
    requires ProfilesAreUnique(profiles) && !Taken(profiles, id, profile.authUserId, profile.email)
    ensures ProfilesAreUnique(profiles[id := profile])
  {
    forall other | other in profiles && other != id
      ensures profiles[other].authUserId != profile.authUserId && profiles[other].email != profile.email
    {
      assert !Matches(profiles[other], profile.authUserId, profile.email);
    }
  }

  lemma CascadeKeepsEmails(credentials: map<string, Credential>, was: string, now: string)
    requires EmailsAreUnique(credentials) && (was != now ==> now !in credentials)
    ensures EmailsAreUnique(Cascade(credentials, was, now))
    ensures forall a :: a in Cascade(credentials, was, now) ==>
              if a == now then was in credentials || now in credentials else a in credentials && a != was
    ensures forall a :: a in Cascade(credentials, was, now) && a != now ==>
            Cascade(credentials, was, now)[a] == credentials[a]
  {
  }

  /** A profile rewritten leaves every other credential its profile. */
  lemma OthersKeepTheirs(profiles: map<string, Profile>, id: string, profile: Profile, a: string)
    requires HasProfile(profiles, a)
    requires id in profiles ==> profiles[id].authUserId != a || profile.authUserId == a
    ensures HasProfile(profiles[id := profile], a)
  {
    var i :| i in profiles && profiles[i].authUserId == a;
    var after := profiles[id := profile];
    if i == id {
      assert after[id].authUserId == a;
    } else {
      assert after[i].authUserId == a;
    }
  }

  lemma MemberKeepsSound(db: Database, after: Database, member: Member, memberId: string)
    requires MembersAreSound(db) && after.members == Joined(db.members, memberId, member)
    requires db.organizations.Keys <= after.organizations.Keys && db.profiles.Keys <= after.profiles.Keys
    requires member.organizationId in after.organizations && member.userProfileId in after.profiles
    ensures MembersAreSound(after)
  {
  }

  lemma ProfileKeepsConsistent(
    db: Database, config: Config, existing: Option<string>, found: Option<string>, chance: Chance)
    requires CanRun(db, config, existing, found, chance)
    requires !Taken(db.profiles, ProfileId(found, chance), AuthUserIdOf(existing, chance), config.email)
    ensures var after := WithProfile(db, config, AuthUserIdOf(existing, chance), found, chance);
            && ProfilesAreUnique(after.profiles) && EmailsAreUnique(after.credentials)
            && CredentialsHaveProfiles(after) && MembersAreSound(after)
    ensures var after := WithProfile(db, config, AuthUserIdOf(existing, chance), found, chance);
            forall a :: a in after.credentials && a != AuthUserIdOf(existing, chance) ==>
              after.credentials[a].email != config.email
  {
    var authUserId, id := AuthUserIdOf(existing, chance), ProfileId(found, chance);
    var profile := Profile(authUserId, config.email, config.displayName, true);
    var after := WithProfile(db, config, authUserId, found, chance);
    KnownAccount(db, config, existing, found, chance);
    ProfilesStayUnique(db.profiles, id, profile);
    if found.Some? {
      CascadeKeepsEmails(db.credentials, db.profiles[id].authUserId, authUserId);
    }
    forall a | a in after.credentials ensures HasProfile(after.profiles, a) {
      if a == authUserId {
        assert after.profiles[id].authUserId == a;
      } else {
        OthersKeepTheirs(db.profiles, id, profile, a);
      }
    }
    MemberKeepsSound(db, after, Member(config.organizationId, id, SystemAdmin), chance.memberId);
  }

  lemma CredentialKeepsConsistent(db: Database, config: Config, authUserId: string, passwordHash: string)
    requires Consistent(db) && HasProfile(db.profiles, authUserId)
    requires forall a :: a in db.credentials && a != authUserId ==> db.credentials[a].email != config.email
    ensures Consistent(WithCredential(db, config, authUserId, passwordHash))
  {
  }

  /** Every run leaves the constraints standing, so the write after the transaction cannot fail. */
  lemma SeedKeepsConsistent(
    db: Database, config: Config, existing: Option<string>, found: Option<string>, chance: Chance,
    hash: string -> string)
    requires CanRun(db, config, existing, found, chance)
    ensures Consistent(Run(db, config, existing, found, chance, hash).0)
  {
    var authUserId, id := AuthUserIdOf(existing, chance), ProfileId(found, chance);
    if !Taken(db.profiles, id, authUserId, config.email) {
      ProfileKeepsConsistent(db, config, existing, found, chance);
      var saved := WithProfile(db, config, authUserId, found, chance);
      assert saved.profiles[id].authUserId == authUserId;
      CredentialKeepsConsistent(saved, config, authUserId, hash(PasswordOf(config, chance)));
    }
  }

  /** Where a credential is after the run: with its profile, which may have a new `authUserId`. */
  function Followed(db: Database, found: Option<string>, authUserId: string, a: string): string
    requires found.Some? ==> found.value in db.profiles
  {
    if found.Some? && db.profiles[found.value].authUserId == a then authUserId else a
  }

  /**
   * No credential is lost and only the one being seeded is touched; its password and its flag stay as they were unless
   * a reset is asked for, and only the seeded account can be new.
   */
  lemma PasswordsChangeOnlyOnReset(
    db: Database, config: Config, existing: Option<string>, found: Option<string>, chance: Chance,
    hash: string -> string)
    requires CanRun(db, config, existing, found, chance)
    requires Run(db, config, existing, found, chance, hash).1.Seeded?
    ensures var after := Run(db, config, existing, found, chance, hash).0;
            var authUserId := AuthUserIdOf(existing, chance);
            && (forall a :: a in db.credentials ==>
                  Kept(db, after, config, authUserId, a, Followed(db, found, authUserId, a)))
            && (forall b :: b in after.credentials && b != authUserId ==> b in db.credentials)
            && after.profiles.Keys >= db.profiles.Keys
  {
    var after := Run(db, config, existing, found, chance, hash).0;
    var authUserId := AuthUserIdOf(existing, chance);
    KnownAccount(db, config, existing, found, chance);
    forall a | a in db.credentials ensures Kept(db, after, config, authUserId, a, Followed(db, found, authUserId, a)) {
      var saved := WithProfile(db, config, authUserId, found, chance);
      var b := Followed(db, found, authUserId, a);
      assert b in saved.credentials && saved.credentials[b] == db.credentials[a];
    }
  }

  predicate Kept(db: Database, after: Database, config: Config, authUserId: string, a: string, b: string)
    requires a in db.credentials
  {
    && b in after.credentials
    && (b != authUserId ==> after.credentials[b] == db.credentials[a])
    && (!config.reset ==> after.credentials[b].passwordHash == db.credentials[a].passwordHash
                          && after.credentials[b].mustChangePassword == db.credentials[a].mustChangePassword)
  }

  /**
   * The account is usable: an active profile at the email, a credential to sign in with, and exactly one membership.
   */
  lemma SeedLeavesOneSystemAdmin(
    db: Database, config: Config, existing: Option<string>, found: Option<string>, chance: Chance,
    hash: string -> string)
    requires CanRun(db, config, existing, found, chance)
    requires Run(db, config, existing, found, chance, hash).1.Seeded?
    ensures var (after, outcome) := Run(db, config, existing, found, chance, hash);
            && outcome.profileId in after.profiles && after.profiles[outcome.profileId] == outcome.profile
            && outcome.profile.isActive && outcome.profile.email == config.email
            && outcome.profile.displayName == config.displayName
            && (forall a :: a in db.credentials && db.credentials[a].email == config.email ==>
                  outcome.profile.authUserId == a)
            && ((forall a :: a in db.credentials ==> db.credentials[a].email != config.email) ==>
                  outcome.profile.authUserId == chance.authUserId)
            && (forall i :: i in db.profiles && db.profiles[i].email == config.email ==> outcome.profileId == i)
            && (forall i :: i in db.profiles && i != outcome.profileId ==>
                  i in after.profiles && after.profiles[i] == db.profiles[i])
            && outcome.profile.authUserId in after.credentials
            && after.credentials[outcome.profile.authUserId].email == config.email
            && after.organizations == db.organizations[config.organizationId := config.organizationName]
            && IsMember(after.members, Member(config.organizationId, outcome.profileId, SystemAdmin))
            && |set m | m in after.members
                        && after.members[m] == Member(config.organizationId, outcome.profileId, SystemAdmin)| == 1
            && forall m :: m in db.members ==> m in after.members && after.members[m] == db.members[m]
  {
    var (after, outcome) := Run(db, config, existing, found, chance, hash);
    var member := Member(config.organizationId, outcome.profileId, SystemAdmin);
    SeedKeepsConsistent(db, config, existing, found, chance, hash);
    forall i | i in db.profiles && db.profiles[i].email == config.email ensures outcome.profileId == i {
      assert Matches(db.profiles[i], outcome.profile.authUserId, config.email);
    }
    JoinedOnce(db.members, chance.memberId, member, after);
  }

  lemma JoinedOnce(members: map<string, Member>, id: string, member: Member, after: Database)
    requires id !in members && after.members == Joined(members, id, member) && MembersAreSound(after)
    ensures |set m | m in after.members && after.members[m] == member| == 1
    ensures forall m :: m in members ==> m in after.members && after.members[m] == members[m]
    ensures IsMember(after.members, member)
  {
    var m := if IsMember(members, member) then (var n :| n in members && members[n] == member; n) else id;
    assert after.members[m] == member;
    assert (set n | n in after.members && after.members[n] == member) == {m};
  }

  /** The account is there just as a run would leave it. */
  predicate IsSettled(db: Database, config: Config, id: string) {
    && config.organizationId in db.organizations && db.organizations[config.organizationId] == config.organizationName
    && id in db.profiles
    && db.profiles[id] == Profile(db.profiles[id].authUserId, config.email, config.displayName, true)
    && db.profiles[id].authUserId in db.credentials && db.credentials[db.profiles[id].authUserId].email == config.email
    && IsMember(db.members, Member(config.organizationId, id, SystemAdmin))
  }

  /** Then a run without a reset writes nothing, whatever it draws, and reports no password. */
  lemma SettledStaysAsItIs(
    db: Database, config: Config, id: string,
    existing: Option<string>, found: Option<string>, chance: Chance, hash: string -> string)
    requires CanRun(db, config, existing, found, chance) && IsSettled(db, config, id) && !config.reset
    ensures Run(db, config, existing, found, chance, hash) == (db, Seeded(id, db.profiles[id], None, false))
  {
    var a := db.profiles[id].authUserId;
    assert existing == Some(a);
    assert Matches(db.profiles[id], a, config.email);
    assert found == Some(id);
    assert !Taken(db.profiles, id, a, config.email);
    var saved := WithProfile(db, config, a, found, chance);
    assert saved.organizations == db.organizations && saved.profiles == db.profiles;
    assert saved == db;
    assert db.credentials[a := db.credentials[a].(email := config.email)] == db.credentials;
  }

  /** So running the seed again without a reset changes nothing, whatever is drawn the second time. */
  lemma RepeatChangesNothing(
    db: Database, config: Config, existing: Option<string>, found: Option<string>, chance: Chance,
    hash: string -> string,
    existing': Option<string>, found': Option<string>, chance': Chance, hash': string -> string)
    requires CanRun(db, config, existing, found, chance)
    requires Run(db, config, existing, found, chance, hash).1.Seeded?
    requires CanRun(Run(db, config, existing, found, chance, hash).0, config.(reset := false), existing', found',
             chance')
    ensures var (after, outcome) := Run(db, config, existing, found, chance, hash);
            Run(after, config.(reset := false), existing', found', chance', hash')
            == (after, outcome.(temporaryPassword := None, mustChangePassword := false))
  {
    var (after, outcome) := Run(db, config, existing, found, chance, hash);
    SeedLeavesOneSystemAdmin(db, config, existing, found, chance, hash);
    SettledStaysAsItIs(after, config.(reset := false), outcome.profileId, existing', found', chance', hash');
  }

  // ----- The temporary password

  /**
   * What the run says: that a change is required exactly when it was to set a password, which is when nobody signs in
   * with the email yet or a reset is asked for; and a temporary password exactly when it was also to choose one.
   */
  lemma RunReports(
    db: Database, config: Config, existing: Option<string>, found: Option<string>, chance: Chance,
    hash: string -> string)
    requires CanRun(db, config, existing, found, chance)
    requires Run(db, config, existing, found, chance, hash).1.Seeded?
    ensures var outcome := Run(db, config, existing, found, chance, hash).1;
            && (outcome.mustChangePassword <==>
                config.reset || forall a :: a in db.credentials ==> db.credentials[a].email != config.email)
            && outcome.temporaryPassword ==
               if outcome.mustChangePassword && config.password.None? then Some(chance.password) else None
  {
  }

  /** No credential has the email, but the profile that does has one under another address, which it keeps. */
  ghost predicate Inherits(db: Database, email: string) {
    && (forall a :: a in db.credentials ==> db.credentials[a].email != email)
    && exists i :: i in db.profiles && db.profiles[i].email == email && db.profiles[i].authUserId in db.credentials
  }

  /** What the run says it wrote is what signs in, and it has to be changed. */
  predicate Truthful(after: Database, outcome: Outcome, password: string, hash: string -> string)
    requires outcome.Seeded?
  {
    var a := outcome.profile.authUserId;
    && a in after.credentials
    && after.credentials[a].passwordHash == hash(password) && after.credentials[a].mustChangePassword
  }

  /**
   * A run that reports having set a password has set it, except exactly when the account inherits a credential and no
   * reset is asked for: the credential follows the profile to its new `authUserId`, so the upsert finds it there and
   * leaves its password alone. That a salted hash is not one already stored is assumed.
   */
  lemma ReportedPasswordWorksExactly(
    db: Database, config: Config, existing: Option<string>, found: Option<string>, chance: Chance,
    hash: string -> string)
    requires CanRun(db, config, existing, found, chance)
    requires Run(db, config, existing, found, chance, hash).1.Seeded?
    requires Run(db, config, existing, found, chance, hash).1.mustChangePassword
    requires var password := if config.password.Some? then config.password.value else chance.password;
             forall a :: a in db.credentials ==> db.credentials[a].passwordHash != hash(password)
    ensures var (after, outcome) := Run(db, config, existing, found, chance, hash);
            var password := if config.password.Some? then config.password.value else chance.password;
            Truthful(after, outcome, password, hash) <==> config.reset || !Inherits(db, config.email)
  {
    var authUserId := AuthUserIdOf(existing, chance);
    if !config.reset {
      assert authUserId !in db.credentials;
      if Inherits(db, config.email) {
        var i :| i in db.profiles && db.profiles[i].email == config.email
                 && db.profiles[i].authUserId in db.credentials;
        assert Matches(db.profiles[i], authUserId, config.email);
        assert found == Some(i);
      }
    }
  }

  /** One account, whose profile's address was corrected by hand and whose credential still has the old one. */
  predicate CorrectedByHand(db: Database, id: string, user: string, config: Config, chance: Chance) {
    && id in db.profiles && user in db.credentials
    && db.profiles == map[id := Profile(user, config.email, config.displayName, true)] && db.members == map[]
    && db.credentials == map[user := db.credentials[user]] && db.credentials[user].email != config.email
    && chance.authUserId != user && chance.profileId != id
    && config.password.None? && !config.reset
  }

  /** The run prints a password, and what is stored is still the old one. */
  lemma PrintedPasswordMayNotWork(
    db: Database, id: string, user: string, config: Config, chance: Chance, hash: string -> string)
    requires CorrectedByHand(db, id, user, config, chance)
    ensures CanRun(db, config, None, Some(id), chance) && Inherits(db, config.email)
    ensures var (after, outcome) := Run(db, config, None, Some(id), chance, hash);
            && outcome.Seeded? && outcome.temporaryPassword == Some(chance.password)
            && after.credentials == map[chance.authUserId := db.credentials[user].(email := config.email)]
  {
    assert db.profiles[id].authUserId == user && HasProfile(db.profiles, user);
    assert Cascade(db.credentials, user, chance.authUserId) == map[chance.authUserId := db.credentials[user]];
    assert !Taken(db.profiles, id, chance.authUserId, config.email);
  }
}
