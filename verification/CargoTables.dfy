/**
 The Cargo tables and the statements of each registry operation as functions on them, with what
 the operations promise about owners, yanked versions and a publication that is taken back.
 Packages bound to a global team are not modelled: the effective permission is the member's own.
 */
module CargoTables {

  import opened Collections

  type Repository(==, !new)
  type CrateName(==, !new)
  type VersionName(==, !new)
  type UserId(==, !new)
  type Username(==, !new)

  datatype Crate = Crate(repository: Repository, name: CrateName)

  const PUBLISH := 1
  const MANAGE := 3
  const OWNER := 4

  datatype Package = Package(
    name: string, description: string, readme: string, repositoryUrl: string, homepage: string,
    documentation: string, archived: bool, adminArchived: bool, mirrored: bool, teamPrefix: string,
    createdAt: int, updatedAt: int)

  datatype Version = Version(
    description: string, publisher: Username, size: int, checksum: string, rustVersion: string,
    license: string, repositoryUrl: string, homepage: string, documentation: string,
    yanked: bool, adminYanked: bool, archiveYanked: bool, mirrored: bool, createdAt: int)

  datatype Member = Member(username: Username, level: int, addedAt: int)

  type Versions = map<(Crate, VersionName), Version>
  type Members = map<(Crate, UserId), Member>

  datatype Tables = Tables(packages: map<Crate, Package>, versions: Versions, members: Members) {
    /** Versions and members belong to a package. */
    predicate Consistent() {
      (forall k | k in versions :: k.0 in packages) && (forall k | k in members :: k.0 in packages)
    }
  }

  // ---- Publication and its rollback ----

  function OrElse(value: string, other: string): string {
    if value != "" then value else other
  }

  /** What publishing writes into the package row. */
  function Described(row: Package, pkg: Package): Package {
    row.(description := pkg.description, readme := pkg.readme,
         repositoryUrl := OrElse(pkg.repositoryUrl, row.repositoryUrl),
         homepage := OrElse(pkg.homepage, row.homepage), documentation := OrElse(pkg.documentation, row.documentation),
         updatedAt := pkg.updatedAt)
  }

  function NewPackage(pkg: Package): Package {
    pkg.(archived := false, adminArchived := false, mirrored := false, teamPrefix := "")
  }

  predicate MayPublish(t: Tables, c: Crate, pkg: Package, name: VersionName, user: UserId) {
    && (c, name) !in t.versions
    && (c in t.packages ==> !t.packages[c].archived && t.packages[c].name == pkg.name &&
                            (c, user) in t.members && t.members[(c, user)].level >= PUBLISH)
  }

  function Published(t: Tables, c: Crate, pkg: Package, name: VersionName, version: Version, username: Username,
                     user: UserId): Tables {
    var row := version.(publisher := username, yanked := false, adminYanked := false, archiveYanked := false,
                        mirrored := false);
    Tables(t.packages[c := Described(if c in t.packages then t.packages[c] else NewPackage(pkg), pkg)],
           t.versions[(c, name) := row],
           if c in t.packages then t.members else t.members[(c, user) := Member(username, OWNER, pkg.createdAt)])
  }

  /** A version row that has been changed in its yank flags only. */
  predicate SameRelease(a: Version, b: Version) {
    a == b.(yanked := a.yanked, adminYanked := a.adminYanked, archiveYanked := a.archiveYanked)
  }

  /** A package row that has been changed in its archive and mirror flags only. */
  predicate SameDescription(a: Package, b: Package) {
    a == b.(archived := a.archived, adminArchived := a.adminArchived, mirrored := a.mirrored)
  }

  predicate KeepsRelease(start: Tables, t: Tables, c: Crate, name: VersionName) {
    (c, name) in start.versions && (c, name) in t.versions &&
      SameRelease(start.versions[(c, name)], t.versions[(c, name)])
  }

  predicate KeepsDescription(start: Tables, t: Tables, c: Crate) {
    c in start.packages && c in t.packages && SameDescription(start.packages[c], t.packages[c])
  }

  predicate HasVersions(versions: Versions, c: Crate) {
    exists k :: k in versions && k.0 == c
  }

  predicate MayRollBack(t: Tables, c: Crate, name: VersionName, previous: Option<Package>) {
    (c, name) in t.versions && (previous == None ==> !HasVersions(t.versions - {(c, name)}, c))
  }

  function MembersWithout(members: Members, c: Crate): Members {
    map k | k in members && k.0 != c :: members[k]
  }

  function VersionsWithout(versions: Versions, c: Crate): Versions {
    map k | k in versions && k.0 != c :: versions[k]
  }

  function RolledBack(t: Tables, c: Crate, name: VersionName, previous: Option<Package>): Tables {
    Tables(if previous == None then t.packages - {c}
           else if c in t.packages then t.packages[c := previous.value] else t.packages,
           t.versions - {(c, name)},
           if previous == None then MembersWithout(t.members, c) else t.members)
  }

  /** The package row before a publication, as a review keeps it. */
  function Snapshot(t: Tables, c: Crate): Option<Package> {
    if c in t.packages then Some(t.packages[c]) else None
  }

  /** Taking back a publication restores every table, for new and existing packages alike. */
  lemma PublishThenRollBack(t: Tables, c: Crate, pkg: Package, name: VersionName, version: Version, username: Username,
                            user: UserId)
    requires t.Consistent() && MayPublish(t, c, pkg, name, user)
    ensures var u := Published(t, c, pkg, name, version, username, user);
            MayRollBack(u, c, name, Snapshot(t, c)) && RolledBack(u, c, name, Snapshot(t, c)) == t
  {
    var u := Published(t, c, pkg, name, version, username, user);
    assert u.versions - {(c, name)} == t.versions;
    if c in t.packages {
      assert u.packages[c := t.packages[c]] == t.packages;
    } else {
      assert u.packages - {c} == t.packages;
      assert forall k | k in t.members :: k.0 != c;
      assert MembersWithout(u.members, c) == t.members;
    }
  }

  // ---- Yanking and archiving ----

  predicate MayYank(t: Tables, c: Crate, name: VersionName, yanked: bool, administrator: bool) {
    && c in t.packages && (c, name) in t.versions
    && (!yanked ==> !t.packages[c].archived && (t.versions[(c, name)].adminYanked ==> administrator))
  }

  function Yanked(t: Tables, c: Crate, name: VersionName, yanked: bool, administrator: bool): Tables
    requires MayYank(t, c, name, yanked, administrator)
  {
    var v := t.versions[(c, name)];
    var byAdministrator := if administrator then yanked else v.adminYanked;
    t.(versions := t.versions[(c, name) := v.(yanked := yanked, adminYanked := byAdministrator)])
  }

  predicate MayArchive(t: Tables, c: Crate, archived: bool, administrator: bool) {
    c in t.packages && (!archived && t.packages[c].adminArchived ==> administrator)
  }

  function ArchivedVersion(v: Version): Version {
    v.(archiveYanked := !v.yanked || v.archiveYanked, yanked := true)
  }

  function RestoredVersion(v: Version): Version {
    v.(yanked := v.yanked && !(v.archiveYanked && !v.adminYanked), archiveYanked := false)
  }

  function Archived(t: Tables, c: Crate, archived: bool, administrator: bool): Tables
    requires MayArchive(t, c, archived, administrator)
  {
    var p := t.packages[c];
    var byAdministrator := if administrator then archived else p.adminArchived;
    t.(versions := map k | k in t.versions :: if k.0 != c then t.versions[k]
                                              else if archived then ArchivedVersion(t.versions[k])
                                              else RestoredVersion(t.versions[k]),
       packages := t.packages[c := p.(archived := archived, adminArchived := byAdministrator)])
  }

  function Deleted(t: Tables, c: Crate): Tables {
    Tables(t.packages - {c}, VersionsWithout(t.versions, c), MembersWithout(t.members, c))
  }

  predicate HasMirrored(versions: Versions, c: Crate) {
    exists k :: k in versions && k.0 == c && versions[k].mirrored
  }

  /** One version goes; the package is mirrored as long as one of the others is. */
  function VersionDeleted(t: Tables, c: Crate, name: VersionName): Tables {
    var versions := t.versions - {(c, name)};
    var mirrored := HasMirrored(versions, c);
    Tables(if c in t.packages then t.packages[c := t.packages[c].(mirrored := mirrored)] else t.packages,
           versions, t.members)
  }

  function RepositoryDeleted(t: Tables, repository: Repository): Tables {
    Tables(map c | c in t.packages && c.repository != repository :: t.packages[c],
           map k | k in t.versions && k.0.repository != repository :: t.versions[k],
           map k | k in t.members && k.0.repository != repository :: t.members[k])
  }

  predicate VersionFlags(v: Version, archived: bool) {
    && (v.adminYanked ==> v.yanked)
    && (v.archiveYanked ==> v.yanked && archived)
    && (archived ==> v.yanked)
  }

  /** What the flags of packages and versions mean for each other. */
  predicate FlagsOk(t: Tables) {
    && (forall c | c in t.packages :: t.packages[c].adminArchived ==> t.packages[c].archived)
    && (forall k | k in t.versions :: k.0 in t.packages && VersionFlags(t.versions[k], t.packages[k.0].archived))
  }

  lemma PublishFlags(t: Tables, c: Crate, pkg: Package, name: VersionName, version: Version, username: Username,
                     user: UserId)
    requires FlagsOk(t) && MayPublish(t, c, pkg, name, user)
    ensures FlagsOk(Published(t, c, pkg, name, version, username, user))
  {
  }

  lemma YankFlags(t: Tables, c: Crate, name: VersionName, yanked: bool, administrator: bool)
    requires FlagsOk(t) && MayYank(t, c, name, yanked, administrator)
    ensures FlagsOk(Yanked(t, c, name, yanked, administrator))
  {
  }

  lemma ArchiveFlags(t: Tables, c: Crate, archived: bool, administrator: bool)
    requires FlagsOk(t) && MayArchive(t, c, archived, administrator)
    ensures FlagsOk(Archived(t, c, archived, administrator))
  {
    var u := Archived(t, c, archived, administrator);
    forall k | k in u.versions ensures k.0 in u.packages && VersionFlags(u.versions[k], u.packages[k.0].archived) {
      assert VersionFlags(t.versions[k], t.packages[k.0].archived);
    }
  }

  /** `t` is `start` after the package was archived and not restored since. */
  predicate SinceArchive(start: Tables, t: Tables, c: Crate) {
    && c in t.packages && t.packages[c].archived
    && forall k | k in t.versions && k.0 == c :: k in start.versions && t.versions[k].yanked &&
         (t.versions[k].archiveYanked <==> !start.versions[k].yanked)
  }

  lemma ArchiveStarts(t: Tables, c: Crate, administrator: bool)
    requires FlagsOk(t) && c in t.packages && !t.packages[c].archived
    ensures MayArchive(t, c, true, administrator) && SinceArchive(t, Archived(t, c, true, administrator), c)
  {
  }

  /** Yank requests, further archiving, deletions and other packages' publications go on in between. */
  lemma ArchiveGoesOn(start: Tables, t: Tables, c: Crate, d: Crate, name: VersionName, flag: bool, administrator: bool)
    requires SinceArchive(start, t, c)
    ensures MayYank(t, d, name, flag, administrator) ==> SinceArchive(start, Yanked(t, d, name, flag, administrator), c)
    ensures MayArchive(t, d, flag, administrator) && (d == c ==> flag) ==>
              SinceArchive(start, Archived(t, d, flag, administrator), c)
    ensures SinceArchive(start, t.(versions := t.versions - {(d, name)}), c)
  {
  }

  lemma PublishGoesOn(start: Tables, t: Tables, c: Crate, d: Crate, pkg: Package, name: VersionName, version: Version,
                      username: Username, user: UserId)
    requires SinceArchive(start, t, c) && MayPublish(t, d, pkg, name, user)
    ensures SinceArchive(start, Published(t, d, pkg, name, version, username, user), c)
  {
  }

  /** After the restore a version is yanked exactly when it was before archiving or is admin-yanked now. */
  lemma RestoreUndoesArchive(start: Tables, t: Tables, c: Crate, administrator: bool)
    requires SinceArchive(start, t, c) && FlagsOk(t) && MayArchive(t, c, false, administrator)
    ensures var u := Archived(t, c, false, administrator);
            forall k | k in u.versions && k.0 == c :: k in start.versions &&
              (u.versions[k].yanked <==> start.versions[k].yanked || u.versions[k].adminYanked)
  {
  }

  // ---- Owners ----

  predicate IsOwner(members: Members, c: Crate, u: UserId) {
    (c, u) in members && members[(c, u)].level == OWNER
  }

  ghost predicate HasOwner(members: Members, c: Crate) {
    exists u :: IsOwner(members, c, u)
  }

  ghost predicate OneOwner(members: Members) {
    forall c, u, v :: IsOwner(members, c, u) && IsOwner(members, c, v) ==> u == v
  }

  /** Who asked for a change of members. */
  datatype Authority = Administrator | User(id: UserId)

  /** Owners are kept, or moved by the owner or an administrator; there is never a second one. */
  ghost predicate OwnersKept(before: Members, after: Members, asker: Authority) {
    && OneOwner(after)
    && forall c :: HasOwner(before, c) ==>
         HasOwner(after, c) &&
         ((forall u :: IsOwner(before, c, u) <==> IsOwner(after, c, u)) || asker.Administrator? ||
           IsOwner(before, c, asker.id))
  }

  /** `UPDATE ... SET permission_level = 3 WHERE permission_level = 4`, for all members but one. */
  function DemoteOwners(members: Members, c: Crate, except: Option<UserId>): Members {
    map k | k in members ::
      if k.0 == c && members[k].level == OWNER && Some(k.1) != except then members[k].(level := MANAGE) else members[k]
  }

  function InsertAll(members: Members, c: Crate, users: seq<(Username, UserId)>, level: int, now: int): Members {
    if users == [] then members
    else
      var (username, user) := users[|users| - 1];
      InsertAll(members, c, users[..|users| - 1], level, now)[(c, user) := Member(username, level, now)]
  }

  function ForceAdded(members: Members, c: Crate, users: seq<(Username, UserId)>, level: int, now: int): Members {
    InsertAll(if level == OWNER then DemoteOwners(members, c, None) else members, c, users, level, now)
  }

  function Accepted(members: Members, c: Crate, username: Username, user: UserId, level: int, now: int): Members {
    var others := if level == OWNER then DemoteOwners(members, c, Some(user)) else members;
    others[(c, user) := Member(username, level, now)]
  }

  function Releveled(members: Members, c: Crate, user: UserId, level: int): Members {
    if (c, user) in members then members[(c, user) := members[(c, user)].(level := level)] else members
  }

  /** The owner gives ownership to another member and takes that member's level. */
  function Exchanged(members: Members, c: Crate, owner: UserId, user: UserId): Members
    requires (c, user) in members
  {
    Releveled(Releveled(members, c, owner, members[(c, user)].level), c, user, OWNER)
  }

  lemma NewOwnerAlone(members: Members, c: Crate, username: Username, user: UserId, now: int)
    requires OneOwner(members)
    ensures OwnersKept(members, Accepted(members, c, username, user, OWNER, now), Administrator)
    ensures IsOwner(Accepted(members, c, username, user, OWNER, now), c, user)
    ensures forall d, u | d != c ::
              IsOwner(Accepted(members, c, username, user, OWNER, now), d, u) <==> IsOwner(members, d, u)
  {
    var after := Accepted(members, c, username, user, OWNER, now);
    forall d, u | d != c ensures IsOwner(after, d, u) <==> IsOwner(members, d, u) {
      assert (d, u) != (c, user);
    }
    forall d, u, v | IsOwner(after, d, u) && IsOwner(after, d, v) ensures u == v {
      if d != c { assert IsOwner(members, d, u) && IsOwner(members, d, v); }
    }
    assert IsOwner(after, c, user);
    forall d | HasOwner(members, d) ensures HasOwner(after, d) {
      var u :| IsOwner(members, d, u);
      if d != c { assert IsOwner(after, d, u); }
    }
  }

  /** An owner's invitation moves the ownership of that package only. */
  lemma AcceptedOwners(members: Members, c: Crate, username: Username, user: UserId, level: int, now: int,
                       inviter: UserId)
    requires OneOwner(members) && (c, user) !in members && (level == OWNER ==> IsOwner(members, c, inviter))
    ensures OwnersKept(members, Accepted(members, c, username, user, level, now), User(inviter))
  {
    var after := Accepted(members, c, username, user, level, now);
    if level == OWNER {
      NewOwnerAlone(members, c, username, user, now);
    } else {
      SameOwners(members, after);
    }
  }

  lemma SameOwners(before: Members, after: Members)
    requires OneOwner(before) && forall c, u :: IsOwner(before, c, u) <==> IsOwner(after, c, u)
    ensures forall asker :: OwnersKept(before, after, asker)
  {
    forall c | HasOwner(before, c) ensures HasOwner(after, c) {
      var u :| IsOwner(before, c, u);
      assert IsOwner(after, c, u);
    }
  }

  lemma {:induction false} InsertedOwners(members: Members, c: Crate, users: seq<(Username, UserId)>, level: int,
                                          now: int)
    requires level != OWNER && forall i | 0 <= i < |users| :: (c, users[i].1) !in members
    ensures forall d, u :: IsOwner(InsertAll(members, c, users, level, now), d, u) <==> IsOwner(members, d, u)
    decreases |users|
  {
    if users != [] {
      var fewer, last := users[..|users| - 1], users[|users| - 1];
      InsertedOwners(members, c, fewer, level, now);
      assert (c, last.1) !in members;
      assert !IsOwner(members, c, last.1);
    }
  }

  lemma ForceAddedOwners(members: Members, c: Crate, users: seq<(Username, UserId)>, level: int, now: int)
    requires OneOwner(members) && users != [] && (level == OWNER ==> |users| == 1)
    requires forall i | 0 <= i < |users| :: (c, users[i].1) !in members
    ensures OwnersKept(members, ForceAdded(members, c, users, level, now), Administrator)
  {
    if level == OWNER {
      var (username, user) := users[0];
      assert users[..|users| - 1] == [];
      assert (c, user) !in members;
      assert ForceAdded(members, c, users, level, now) == Accepted(members, c, username, user, OWNER, now) by {
        assert forall k | k in members && k.0 == c :: k.1 != user;
        assert DemoteOwners(members, c, None) == DemoteOwners(members, c, Some(user));
        assert InsertAll(DemoteOwners(members, c, None), c, [], level, now) == DemoteOwners(members, c, None);
      }
      NewOwnerAlone(members, c, username, user, now);
    } else {
      InsertedOwners(members, c, users, level, now);
      SameOwners(members, ForceAdded(members, c, users, level, now));
    }
  }

  lemma ExchangedOwners(members: Members, c: Crate, owner: UserId, user: UserId)
    requires OneOwner(members) && IsOwner(members, c, owner) && (c, user) in members && !IsOwner(members, c, user)
    ensures OwnersKept(members, Exchanged(members, c, owner, user), User(owner))
    ensures IsOwner(Exchanged(members, c, owner, user), c, user)
  {
    var after := Exchanged(members, c, owner, user);
    assert owner != user;
    forall d, u ensures IsOwner(after, d, u) <==> (if d == c then u == user else IsOwner(members, d, u)) {
      if d == c && u != user {
        assert (c, u) != (c, user);
        assert u == owner || !IsOwner(members, c, u);
      }
    }
    forall d | HasOwner(members, d) ensures HasOwner(after, d) {
      var u :| IsOwner(members, d, u);
      assert IsOwner(after, d, if d == c then user else u);
    }
  }

  /** A level set by a member (`actor`) or an administrator. */
  function LevelSet(members: Members, c: Crate, actor: Option<UserId>, user: UserId, level: int): Members
    requires (c, user) in members
  {
    if level == OWNER && members[(c, user)].level != OWNER then
      match actor
      case Some(id) => Exchanged(members, c, id, user)
      case None => Releveled(DemoteOwners(members, c, Some(user)), c, user, OWNER)
    else Releveled(members, c, user, level)
  }

  lemma LevelSetOwners(members: Members, c: Crate, actor: Option<UserId>, user: UserId, level: int)
    requires OneOwner(members) && (c, user) in members
    requires members[(c, user)].level == OWNER ==> level == OWNER
    requires level == OWNER && members[(c, user)].level != OWNER && actor.Some? ==> IsOwner(members, c, actor.value)
    ensures OwnersKept(members, LevelSet(members, c, actor, user, level),
                       if actor.Some? then User(actor.value) else Administrator)
  {
    var after, m := LevelSet(members, c, actor, user, level), members[(c, user)];
    if level == OWNER && m.level != OWNER {
      if actor.Some? {
        ExchangedOwners(members, c, actor.value, user);
      } else {
        NewOwnerAlone(members, c, m.username, user, m.addedAt);
        assert after == Accepted(members, c, m.username, user, OWNER, m.addedAt);
      }
    } else {
      SameOwners(members, after);
    }
  }

  lemma PublishedOwners(t: Tables, c: Crate, pkg: Package, name: VersionName, version: Version, username: Username,
                        user: UserId)
    requires t.Consistent() && OneOwner(t.members) && MayPublish(t, c, pkg, name, user)
    ensures OwnersKept(t.members, Published(t, c, pkg, name, version, username, user).members, User(user))
    ensures c !in t.packages ==> IsOwner(Published(t, c, pkg, name, version, username, user).members, c, user)
  {
    var after := Published(t, c, pkg, name, version, username, user).members;
    if c in t.packages {
      SameOwners(t.members, after);
    } else {
      assert forall u :: (c, u) !in t.members by { assert forall k | k in t.members :: k.0 != c; }
      forall d, u ensures IsOwner(after, d, u) <==> IsOwner(t.members, d, u) || (d == c && u == user) {
      }
      forall d | HasOwner(t.members, d) ensures HasOwner(after, d) {
        var u :| IsOwner(t.members, d, u);
        assert IsOwner(after, d, u);
      }
    }
  }

  // ---- The levels of a team ----

  function TeamLevels(members: Members, c: Crate): map<UserId, int> {
    map k | k in members && k.0 == c :: k.1 := members[k].level
  }

  function Holders(team: map<UserId, int>, level: int): set<UserId> {
    set u | u in team && team[u] == level
  }

  /** The same levels, each as often: the teams have the same multiset of levels. */
  ghost predicate SameLevels(a: map<UserId, int>, b: map<UserId, int>) {
    forall level :: |Holders(a, level)| == |Holders(b, level)|
  }

  lemma ReleveledTeam(members: Members, c: Crate, u: UserId, level: int)
    requires (c, u) in members
    ensures TeamLevels(Releveled(members, c, u, level), c) == TeamLevels(members, c)[u := level]
  {
    var after, expected := TeamLevels(Releveled(members, c, u, level), c), TeamLevels(members, c)[u := level];
    forall v ensures v in after <==> v in expected {
      assert v in after <==> (c, v) in members;
      assert v in TeamLevels(members, c) <==> (c, v) in members;
    }
    forall v | v in after ensures after[v] == expected[v] {
      assert v != u ==> (c, v) != (c, u);
    }
  }

  /** A transfer by the owner preserves the multiset of levels. */
  lemma ExchangeKeepsLevels(members: Members, c: Crate, owner: UserId, user: UserId)
    requires IsOwner(members, c, owner) && (c, user) in members && owner != user
    ensures SameLevels(TeamLevels(members, c), TeamLevels(Exchanged(members, c, owner, user), c))
  {
    hide SameLevels;
    var team := TeamLevels(members, c);
    assert owner in team && user in team by { assert (c, owner) in members && (c, user) in members; }
    ReleveledTeam(members, c, owner, team[user]);
    ReleveledTeam(Releveled(members, c, owner, team[user]), c, user, OWNER);
    SwapKeepsLevels(team, owner, user);
  }

  lemma SwapKeepsLevels(team: map<UserId, int>, u: UserId, v: UserId)
    requires u in team && v in team && u != v
    ensures SameLevels(team, team[u := team[v]][v := team[u]])
  {
    var after := team[u := team[v]][v := team[u]];
    forall level ensures |Holders(team, level)| == |Holders(after, level)| {
      hide Holders;
      HoldersSwap(team, after, u, v, level);
    }
  }

  lemma HoldersSwap(team: map<UserId, int>, after: map<UserId, int>, u: UserId, v: UserId, level: int)
    requires u in team && v in team && u != v && after.Keys == team.Keys && after[u] == team[v] && after[v] == team[u]
    requires forall w | w in team && w != u && w != v :: after[w] == team[w]
    ensures |Holders(team, level)| == |Holders(after, level)|
  {
    if team[u] == team[v] || (level != team[u] && level != team[v]) {
      assert Holders(after, level) == Holders(team, level);
    } else {
      var from, to := if level == team[u] then u else v, if level == team[u] then v else u;
      assert from in Holders(team, level) && to !in Holders(team, level);
      assert Holders(after, level) == Holders(team, level) - {from} + {to};
    }
  }
}
