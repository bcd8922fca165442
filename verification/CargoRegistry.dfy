/**
 The Cargo registry operations. Each is one database transaction: it works on a copy of the
 tables and commits it, or leaves the tables as they were.
 */
module CargoRegistry {
  import opened CargoTables
  import opened Collections

  type Id(==, !new)

  datatype Error =
    | Denied | NotFound | Locked | PackageArchived | NameCollision | VersionExists | VersionNotFound
    | AdminYanked | AdminArchived | ResourceConflict | InvalidLevel | InvalidBatch | MemberExists
    | UnknownUser | LastOwner | InvitationInvalid | InvitationExists

  datatype Outcome = Done | Refused(error: Error)

  datatype Invitation = Invitation(crate: Crate, inviter: Username, recipient: Username, level: int, createdAt: int)
  datatype Message = Message(recipient: Username, pending: bool, expiresAt: int)

  /** One entry of an invitation batch. */
  datatype Offer = Offer(id: Id, invitation: Invitation, message: Message)

  /** The invitations of one recipient to one package, and the messages that carry them. */
  function Pending(invitations: map<Id, Invitation>, c: Crate, recipient: Username): set<Id> {
    set id | id in invitations && invitations[id].crate == c && invitations[id].recipient == recipient
  }

  function Cancelled(messages: map<Id, Message>, ids: set<Id>): map<Id, Message> {
    map id | id in messages :: if id in ids then messages[id].(pending := false) else messages[id]
  }

  predicate SameTarget(a: Invitation, b: Invitation) {
    a.crate == b.crate && a.recipient == b.recipient
  }

  /** At most one invitation for a recipient and package, and levels in range. */
  predicate InvitationsOk(invitations: map<Id, Invitation>) {
    && (forall i, j | i in invitations && j in invitations && SameTarget(invitations[i], invitations[j]) :: i == j)
    && (forall i | i in invitations :: PUBLISH <= invitations[i].level <= OWNER)
  }

  predicate LevelsOk(members: Members) {
    forall k | k in members :: members[k].level <= OWNER
  }

  /** Whether the invitation may be answered, and accepted. */
  predicate Answerable(invitations: map<Id, Invitation>, messages: map<Id, Message>, id: Id, recipient: Username,
                       now: int) {
    && id in invitations && invitations[id].recipient == recipient
    && id in messages && messages[id].recipient == recipient && messages[id].pending
    && (messages[id].expiresAt == 0 || messages[id].expiresAt > now)
  }

  predicate Acceptable(t: Tables, users: map<Username, UserId>, i: Invitation) {
    && i.inviter in users && i.recipient in users
    && (i.crate, users[i.inviter]) in t.members
    && t.members[(i.crate, users[i.inviter])].level >= (if i.level == OWNER then OWNER else MANAGE)
    && (i.crate, users[i.recipient]) !in t.members
  }

  predicate MaySetLevel(t: Tables, users: map<Username, UserId>, c: Crate, actor: Option<Username>, username: Username,
                        level: int) {
    && PUBLISH <= level <= OWNER && username in users && c in t.packages && (c, users[username]) in t.members
    && (actor.Some? ==>
      actor.value in users && (c, users[actor.value]) in t.members &&
        t.members[(c, users[actor.value])].level >= MANAGE)
    && (IsOwner(t.members, c, users[username]) ==> level == OWNER)
    && (actor.Some? && level == OWNER && !IsOwner(t.members, c, users[username]) ==>
          IsOwner(t.members, c, users[actor.value]) && actor.value != username)
  }

  predicate MayForceAdd(t: Tables, users: map<Username, UserId>, c: Crate, usernames: seq<Username>, level: int) {
    && 0 < |usernames| <= 20 && PUBLISH <= level <= OWNER && c in t.packages
    && (forall name | name in usernames :: name in users && (c, users[name]) !in t.members)
    && (level == OWNER ==> forall name | name in usernames :: name == usernames[0])
  }

  predicate SameBatch(a: Invitation, b: Invitation) {
    a.crate == b.crate && a.inviter == b.inviter
  }

  /** The inviter may offer that level, and the recipient is no member yet. */
  predicate MayOffer(t: Tables, users: map<Username, UserId>, i: Invitation) {
    && i.inviter in users && i.recipient in users && PUBLISH <= i.level <= OWNER
    && (i.crate, users[i.inviter]) in t.members
    && t.members[(i.crate, users[i.inviter])].level >= (if i.level == OWNER then OWNER else MANAGE)
    && (i.crate, users[i.recipient]) !in t.members
  }

  /** Whether an earlier invitation to the same recipient still stands. */
  predicate Stands(t: Tables, users: map<Username, UserId>, known: map<Id, Invitation>, carried: map<Id, Message>,
                   id: Id, now: int) {
    && id in known && id in carried
    && carried[id].recipient == known[id].recipient && carried[id].pending && carried[id].expiresAt > now
    && known[id].inviter in users && (known[id].crate, users[known[id].inviter]) in t.members
    && t.members[(known[id].crate, users[known[id].inviter])].level >= MANAGE
  }

  predicate Blocked(t: Tables, users: map<Username, UserId>, known: map<Id, Invitation>, carried: map<Id, Message>,
                    i: Invitation) {
    exists id | id in Pending(known, i.crate, i.recipient) :: Stands(t, users, known, carried, id, i.createdAt)
  }

  /** The invitation may be offered, no earlier one stands, and its identifier is new. */
  predicate MayPlace(t: Tables, users: map<Username, UserId>, known: map<Id, Invitation>, carried: map<Id, Message>,
                     offer: Offer) {
    && MayOffer(t, users, offer.invitation) && !Blocked(t, users, known, carried, offer.invitation)
    && offer.id !in carried && offer.id !in known - Pending(known, offer.invitation.crate, offer.invitation.recipient)
  }

  /** An offer replaces what the recipient was offered for that package before. */
  function WithOffer(known: map<Id, Invitation>, offer: Offer): map<Id, Invitation> {
    (known - Pending(known, offer.invitation.crate, offer.invitation.recipient))[offer.id := offer.invitation]
  }

  function WithMessage(known: map<Id, Invitation>, carried: map<Id, Message>, offer: Offer): map<Id, Message> {
    Cancelled(carried, Pending(known, offer.invitation.crate, offer.invitation.recipient))[offer.id := offer.message]
  }

  predicate MayPlaceAll(t: Tables, users: map<Username, UserId>, known: map<Id, Invitation>, carried: map<Id, Message>,
                        offers: seq<Offer>)
    decreases |offers|
  {
    offers == [] || (
      && MayPlace(t, users, known, carried, offers[0])
      && MayPlaceAll(t, users, WithOffer(known, offers[0]), WithMessage(known, carried, offers[0]), offers[1..]))
  }

  function WithOffers(known: map<Id, Invitation>, offers: seq<Offer>): map<Id, Invitation>
    decreases |offers|
  {
    if offers == [] then known else WithOffers(WithOffer(known, offers[0]), offers[1..])
  }

  function WithMessages(known: map<Id, Invitation>, carried: map<Id, Message>, offers: seq<Offer>): map<Id, Message>
    decreases |offers|
  {
    if offers == [] then carried
    else WithMessages(WithOffer(known, offers[0]), WithMessage(known, carried, offers[0]), offers[1..])
  }

  /** Offer `n` taken by itself: only identifiers depend on the offers before it. */
  predicate MayPlaceAlone(t: Tables, users: map<Username, UserId>, known: map<Id, Invitation>,
                          carried: map<Id, Message>, offers: seq<Offer>, n: nat)
    requires n < |offers|
  {
    var offer := offers[n];
    && MayOffer(t, users, offer.invitation) && !Blocked(t, users, known, carried, offer.invitation)
    && offer.id !in carried && (forall m | 0 <= m < n :: offers[m].id != offer.id)
    && (offer.id in known ==> exists m | 0 <= m <= n :: SameTarget(offers[m].invitation, known[offer.id]))
  }

  /** For different recipients the batch may be placed exactly if each offer may by itself. */
  lemma {:induction false} PlaceEach(t: Tables, users: map<Username, UserId>, known: map<Id, Invitation>,
                                     carried: map<Id, Message>, offers: seq<Offer>)
    requires forall m, n | 0 <= m < n < |offers| :: !SameTarget(offers[m].invitation, offers[n].invitation)
    ensures MayPlaceAll(t, users, known, carried, offers) <==>
              forall n | 0 <= n < |offers| :: MayPlaceAlone(t, users, known, carried, offers, n)
    decreases |offers|
  {
    hide MayOffer, Blocked, Stands;
    if offers != [] {
      var next, carriedNext, rest := WithOffer(known, offers[0]), WithMessage(known, carried, offers[0]), offers[1..];
      PlaceEach(t, users, next, carriedNext, rest);
      PlaceFirst(t, users, known, carried, offers);
      if MayPlace(t, users, known, carried, offers[0]) {
        forall n | 0 <= n < |rest| ensures MayPlaceAlone(t, users, next, carriedNext, rest, n) <==>
          MayPlaceAlone(t, users, known, carried, offers, n + 1) {
          PlaceLater(t, users, known, carried, offers, n);
        }
        if forall n | 0 <= n < |rest| :: MayPlaceAlone(t, users, next, carriedNext, rest, n) {
          forall n | 0 <= n < |offers| ensures MayPlaceAlone(t, users, known, carried, offers, n) {
            if n > 0 { assert MayPlaceAlone(t, users, next, carriedNext, rest, n - 1); }
          }
        }
      }
    }
  }

  lemma PlaceFirst(t: Tables, users: map<Username, UserId>, known: map<Id, Invitation>, carried: map<Id, Message>,
                   offers: seq<Offer>)
    requires offers != []
    ensures MayPlace(t, users, known, carried, offers[0]) <==> MayPlaceAlone(t, users, known, carried, offers, 0)
  {
    hide MayOffer, Blocked;
    var offer := offers[0];
    assert offer.id in known ==>
      (offer.id in Pending(known, offer.invitation.crate, offer.invitation.recipient) <==>
        SameTarget(offer.invitation, known[offer.id]));
  }

  lemma PlaceLater(t: Tables, users: map<Username, UserId>, known: map<Id, Invitation>, carried: map<Id, Message>,
                   offers: seq<Offer>, n: nat)
    requires n + 1 < |offers| && MayPlace(t, users, known, carried, offers[0])
    requires !SameTarget(offers[0].invitation, offers[n + 1].invitation)
    ensures MayPlaceAlone(t, users, WithOffer(known, offers[0]), WithMessage(known, carried, offers[0]), offers[1..],
                          n) <==>
            MayPlaceAlone(t, users, known, carried, offers, n + 1)
  {
    hide MayOffer, Blocked;
    var next, carriedNext, rest, offer := WithOffer(known, offers[0]), WithMessage(known, carried, offers[0]),
      offers[1..], offers[n + 1];
    SameBlocked(t, users, known, carried, offers[0], offer.invitation);
    assert rest[n] == offer && forall m | 0 <= m < |rest| :: rest[m] == offers[m + 1];
    assert offer.id in carriedNext <==> offer.id in carried || offer.id == offers[0].id;
    if offer.id in known && offer.id != offers[0].id {
      assert offer.id in next <==> !SameTarget(offers[0].invitation, known[offer.id]);
      if m :| 0 <= m <= n && SameTarget(rest[m].invitation, known[offer.id]) {
        assert SameTarget(offers[m + 1].invitation, known[offer.id]);
      }
      if m :| 1 <= m <= n + 1 && SameTarget(offers[m].invitation, known[offer.id]) {
        assert SameTarget(rest[m - 1].invitation, known[offer.id]);
      }
    }
  }

  lemma SameBlocked(t: Tables, users: map<Username, UserId>, known: map<Id, Invitation>, carried: map<Id, Message>,
                    offer: Offer, i: Invitation)
    requires MayPlace(t, users, known, carried, offer) && !SameTarget(offer.invitation, i)
    ensures Blocked(t, users, WithOffer(known, offer), WithMessage(known, carried, offer), i) <==>
              Blocked(t, users, known, carried, i)
  {
    hide MayOffer;
    var next, carriedNext := WithOffer(known, offer), WithMessage(known, carried, offer);
    assert Pending(next, i.crate, i.recipient) == Pending(known, i.crate, i.recipient) - {offer.id};
    forall id | id in Pending(known, i.crate, i.recipient) && id != offer.id
      ensures Stands(t, users, next, carriedNext, id, i.createdAt) <==>
                Stands(t, users, known, carried, id, i.createdAt)
    {
    }
  }

  lemma OfferParts(t: Tables, users: map<Username, UserId>, i: Invitation)
    ensures MayOffer(t, users, i) <==>
            (i.inviter in users && i.recipient in users && PUBLISH <= i.level <= OWNER
             && (i.crate, users[i.inviter]) in t.members
             && t.members[(i.crate, users[i.inviter])].level >= MANAGE
             && (i.level == OWNER ==> t.members[(i.crate, users[i.inviter])].level >= OWNER)
             && (i.crate, users[i.recipient]) !in t.members)
  {
  }

  lemma PlaceParts(t: Tables, users: map<Username, UserId>, known: map<Id, Invitation>, carried: map<Id, Message>,
                   offer: Offer)
    requires InvitationsOk(known)
    ensures var ids := Pending(known, offer.invitation.crate, offer.invitation.recipient);
            && (forall id | id in ids :: ids == {id})
            && (MayPlace(t, users, known, carried, offer) <==>
                (MayOffer(t, users, offer.invitation)
                 && (forall id | id in ids :: !Stands(t, users, known, carried, id, offer.invitation.createdAt))
                 && offer.id !in carried && offer.id !in known - ids))
  {
    hide MayOffer, Stands;
    var ids := Pending(known, offer.invitation.crate, offer.invitation.recipient);
    forall id | id in ids ensures ids == {id} {
      forall j | j in ids ensures j == id { assert SameTarget(known[j], known[id]); }
    }
  }

  lemma NothingCancelled(messages: map<Id, Message>)
    ensures Cancelled(messages, {}) == messages
  {
  }

  lemma PlaceNext(t: Tables, users: map<Username, UserId>, known: map<Id, Invitation>, carried: map<Id, Message>,
                  offers: seq<Offer>, n: nat)
    requires n < |offers|
    ensures MayPlaceAll(t, users, known, carried, offers[n..]) <==>
            (MayPlace(t, users, known, carried, offers[n]) &&
             MayPlaceAll(t, users, WithOffer(known, offers[n]), WithMessage(known, carried, offers[n]),
                         offers[n + 1..]))
    ensures WithOffers(known, offers[n..]) == WithOffers(WithOffer(known, offers[n]), offers[n + 1..])
    ensures WithMessages(known, carried, offers[n..]) ==
            WithMessages(WithOffer(known, offers[n]), WithMessage(known, carried, offers[n]), offers[n + 1..])
  {
    hide MayPlace, WithOffer, WithMessage;
    assert offers[n..][1..] == offers[n + 1..];
  }

  lemma NothingToPlace(t: Tables, users: map<Username, UserId>, known: map<Id, Invitation>, carried: map<Id, Message>,
                       offers: seq<Offer>)
    ensures MayPlaceAll(t, users, known, carried, offers[|offers|..])
    ensures WithOffers(known, offers[|offers|..]) == known &&
            WithMessages(known, carried, offers[|offers|..]) == carried
  {
  }

  lemma {:induction false} PlacedOffers(t: Tables, users: map<Username, UserId>, known: map<Id, Invitation>,
                                        carried: map<Id, Message>, offers: seq<Offer>)
    ensures MayPlaceAll(t, users, known, carried, offers) ==>
              forall n | 0 <= n < |offers| :: MayOffer(t, users, offers[n].invitation)
    decreases |offers|
  {
    hide MayOffer;
    if offers != [] {
      PlacedOffers(t, users, WithOffer(known, offers[0]), WithMessage(known, carried, offers[0]), offers[1..]);
    }
  }

  /** After a batch its last offer stands, and invitations to others are as they were. */
  lemma {:induction false} OffersKept(t: Tables, users: map<Username, UserId>, known: map<Id, Invitation>,
                                      carried: map<Id, Message>, offers: seq<Offer>)
    requires MayPlaceAll(t, users, known, carried, offers)
    ensures offers != [] ==> var last := offers[|offers| - 1];
              last.id in WithOffers(known, offers) && WithOffers(known, offers)[last.id] == last.invitation
    ensures forall id | id in known && !(exists i | 0 <= i < |offers| :: SameTarget(offers[i].invitation, known[id])) ::
              id in WithOffers(known, offers) && WithOffers(known, offers)[id] == known[id]
    decreases |offers|
  {
    hide MayOffer, Blocked;
    if offers != [] {
      var next := WithOffer(known, offers[0]);
      OffersKept(t, users, next, WithMessage(known, carried, offers[0]), offers[1..]);
      if |offers| == 1 { assert offers[1..] == []; }
      forall id | id in known && !(exists i | 0 <= i < |offers| :: SameTarget(offers[i].invitation, known[id]))
        ensures id in next && next[id] == known[id] &&
                !(exists i | 0 <= i < |offers[1..]| :: SameTarget(offers[1..][i].invitation, next[id]))
      {
        assert !SameTarget(offers[0].invitation, known[id]);
        assert id !in Pending(known, offers[0].invitation.crate, offers[0].invitation.recipient);
        forall i | 0 <= i < |offers[1..]| ensures !SameTarget(offers[1..][i].invitation, known[id]) {
          assert !SameTarget(offers[i + 1].invitation, known[id]);
        }
      }
    }
  }

  predicate Known(users: map<Username, UserId>, name: Username, user: UserId) {
    name in users && users[name] == user
  }

  class Registry {
    var tables: Tables
    var users: map<Username, UserId>
    var invitations: map<Id, Invitation>
    var messages: map<Id, Message>

    constructor (users: map<Username, UserId>)
      ensures Valid() && FlagsOk(tables) && tables == Tables(map[], map[], map[]) && this.users == users &&
              invitations == map[]
    {
      tables, this.users, invitations, messages := Tables(map[], map[], map[]), users, map[], map[];
    }

    ghost predicate Valid()
      reads this
    {
      tables.Consistent() && OneOwner(tables.members) && LevelsOk(tables.members) && InvitationsOk(invitations)
    }

    /** The level of a user and whether the user is a member, or nothing when there is no package. */
    function EffectivePermission(c: Crate, user: UserId): Option<(int, bool)>
      reads this
    {
      if c !in tables.packages then None
      else if (c, user) in tables.members then Some((tables.members[(c, user)].level, true))
      else Some((0, false))
    }

    // ---- Versions ----

    /** `open`: no resource lock forbids the change. */
    method RecordPublication(c: Crate, pkg: Package, name: VersionName, version: Version, username: Username,
                             open: bool) returns (r: Outcome)
      requires Valid()
      modifies this`tables
      ensures Valid()
      ensures r.Done? <==> open && username in users && MayPublish(old(tables), c, pkg, name, users[username])
      ensures tables == if r.Done? then Published(old(tables), c, pkg, name, version, username, users[username])
              else old(tables)
      ensures r.Done? ==> OwnersKept(old(tables.members), tables.members, User(users[username]))
    {
      if username !in users { return Refused(Denied); }
      var userId := users[username];
      if !open { return Refused(Locked); }
      var t := tables;
      if c !in t.packages {
        t := t.(packages := t.packages[c := NewPackage(pkg)]);
        t := t.(members := t.members[(c, userId) := Member(username, OWNER, pkg.createdAt)]);
      } else {
        if t.packages[c].archived { return Refused(PackageArchived); }
        if t.packages[c].name != pkg.name { return Refused(NameCollision); }
        var permission := EffectivePermission(c, userId);
        if permission == None { return Refused(NotFound); }
        if !permission.value.1 || permission.value.0 < PUBLISH { return Refused(Denied); }
      }
      if (c, name) in t.versions { return Refused(VersionExists); }
      var row := version.(publisher := username, yanked := false, adminYanked := false, archiveYanked := false,
                          mirrored := false);
      t := t.(versions := t.versions[(c, name) := row]);
      t := t.(packages := t.packages[c := Described(t.packages[c], pkg)]);
      PublishedOwners(tables, c, pkg, name, version, username, userId);
      assert t.packages == Published(tables, c, pkg, name, version, username, userId).packages;
      tables := t;
      return Done;
    }

    method RollBackPublicationReview(c: Crate, name: VersionName, previous: Option<Package>) returns (r: Outcome)
      modifies this`tables
      ensures r.Done? <==> MayRollBack(old(tables), c, name, previous)
      ensures tables == if r.Done? then RolledBack(old(tables), c, name, previous) else old(tables)
    {
      var t := tables;
      if (c, name) !in t.versions { return Refused(VersionNotFound); }
      t := t.(versions := t.versions - {(c, name)});
      if previous == None {
        var remaining := |set k | k in t.versions && k.0 == c|;
        ghost var left := set k | k in t.versions && k.0 == c;
        assert remaining == 0 <==> left == {};
        assert left == {} <==> !HasVersions(t.versions, c) by {
          if HasVersions(t.versions, c) { var k :| k in t.versions && k.0 == c; assert k in left; }
        }
        if remaining != 0 { return Refused(ResourceConflict); }
        t := t.(members := MembersWithout(t.members, c));
        t := t.(packages := t.packages - {c});
      } else if c in t.packages {
        t := t.(packages := t.packages[c := previous.value]);
      }
      tables := t;
      return Done;
    }

    method SetVersionYanked(c: Crate, name: VersionName, yanked: bool, administrator: bool) returns (r: Outcome)
      requires tables.Consistent()
      modifies this`tables
      ensures r.Done? <==> MayYank(old(tables), c, name, yanked, administrator)
      ensures tables == if r.Done? then Yanked(old(tables), c, name, yanked, administrator) else old(tables)
      ensures tables.Consistent()
    {
      if c !in tables.packages || (c, name) !in tables.versions { return Refused(VersionNotFound); }
      var adminYanked := tables.versions[(c, name)].adminYanked;
      if !yanked && tables.packages[c].archived { return Refused(PackageArchived); }
      if !yanked && adminYanked && !administrator { return Refused(AdminYanked); }
      var adminValue := adminYanked;
      if administrator {
        adminValue := yanked;
      }
      var row := tables.versions[(c, name)];
      tables := tables.(versions := tables.versions[(c, name) := row.(yanked := yanked, adminYanked := adminValue)]);
      return Done;
    }

    method SetPackageArchived(c: Crate, archived: bool, administrator: bool) returns (r: Outcome)
      requires tables.Consistent()
      modifies this`tables
      ensures r.Done? <==> MayArchive(old(tables), c, archived, administrator)
      ensures tables == if r.Done? then Archived(old(tables), c, archived, administrator) else old(tables)
      ensures tables.Consistent()
    {
      var t := tables;
      if c !in t.packages { return Refused(NotFound); }
      var adminArchived := t.packages[c].adminArchived;
      if !archived && adminArchived && !administrator { return Refused(AdminArchived); }
      if archived {
        t := t.(versions := map k | k in t.versions ::
          if k.0 == c then ArchivedVersion(t.versions[k]) else t.versions[k]);
        if administrator { adminArchived := true; }
      } else {
        t := t.(versions := map k | k in t.versions ::
          if k.0 == c then RestoredVersion(t.versions[k]) else t.versions[k]);
        if administrator { adminArchived := false; }
      }
      t := t.(packages := t.packages[c := t.packages[c].(archived := archived, adminArchived := adminArchived)]);
      assert t.versions == Archived(tables, c, archived, administrator).versions;
      tables := t;
      return Done;
    }

    method DeletePackage(c: Crate) returns (r: Outcome)
      requires Valid()
      modifies this`tables, this`invitations, this`messages
      ensures Valid()
      ensures r.Done? <==> c in old(tables).packages
      ensures tables == if r.Done? then Deleted(old(tables), c) else old(tables)
      ensures r.Done? ==>
                && invitations ==
                   (map id | id in old(invitations) && old(invitations)[id].crate != c :: old(invitations)[id])
                && messages ==
                   Cancelled(old(messages), set id | id in old(invitations) && old(invitations)[id].crate == c)
      ensures r.Refused? ==> invitations == old(invitations) && messages == old(messages)
      ensures forall d :: d != c && HasOwner(old(tables.members), d) ==> HasOwner(tables.members, d)
    {
      if c !in tables.packages { return Refused(NotFound); }
      var ids := set id | id in invitations && invitations[id].crate == c;
      messages := Cancelled(messages, ids);
      invitations := invitations - ids;
      tables := Deleted(tables, c);
      assert forall d, u :: IsOwner(tables.members, d, u) <==> d != c && IsOwner(old(tables.members), d, u);
      return Done;
    }

    method DeleteVersion(c: Crate, name: VersionName) returns (r: Outcome)
      requires Valid()
      modifies this`tables
      ensures Valid()
      ensures r.Done? <==> (c, name) in old(tables).versions
      ensures tables == if r.Done? then VersionDeleted(old(tables), c, name) else old(tables)
    {
      if (c, name) !in tables.versions { return Refused(VersionNotFound); }
      var t := tables.(versions := tables.versions - {(c, name)});
      var count := |set k | k in t.versions && k.0 == c && t.versions[k].mirrored|;
      ghost var left := set k | k in t.versions && k.0 == c && t.versions[k].mirrored;
      assert count == 0 <==> left == {};
      assert left == {} <==> !HasMirrored(t.versions, c) by {
        if HasMirrored(t.versions, c) {
          var k :| k in t.versions && k.0 == c && t.versions[k].mirrored;
          assert k in left;
        }
      }
      t := t.(packages := t.packages[c := t.packages[c].(mirrored := count > 0)]);
      tables := t;
      return Done;
    }

    method DeleteRepository(repository: Repository)
      requires Valid()
      modifies this`tables, this`invitations, this`messages
      ensures Valid() && tables == RepositoryDeleted(old(tables), repository)
      ensures invitations == map id | id in old(invitations) && old(invitations)[id].crate.repository != repository ::
                old(invitations)[id]
      ensures messages ==
              Cancelled(old(messages),
                        set id | id in old(invitations) && old(invitations)[id].crate.repository == repository)
      ensures forall d: Crate ::
                d.repository != repository && HasOwner(old(tables.members), d) ==> HasOwner(tables.members, d)
    {
      var ids := set id | id in invitations && invitations[id].crate.repository == repository;
      messages := Cancelled(messages, ids);
      invitations := invitations - ids;
      tables := RepositoryDeleted(tables, repository);
      assert forall d: Crate, u ::
        IsOwner(tables.members, d, u) <==> d.repository != repository && IsOwner(old(tables.members), d, u);
    }

    // ---- Members ----

    /** Names once each, in order, with their users; nothing when a name has no user. */
    method ResolveUsers(usernames: seq<Username>) returns (r: Option<seq<(Username, UserId)>>)
      ensures r.Some? <==> forall name | name in usernames :: name in users
      ensures r.Some? ==>
                (forall i | 0 <= i < |r.value| :: Known(users, r.value[i].0, r.value[i].1) && r.value[i].0 in usernames)
      ensures r.Some? ==> forall name | name in usernames :: exists i | 0 <= i < |r.value| :: r.value[i].0 == name
      ensures r.Some? ==> forall i, j | 0 <= i < j < |r.value| :: r.value[i].0 != r.value[j].0
    {
      var found: seq<(Username, UserId)> := [];
      var seen: set<Username> := {};
      for n := 0 to |usernames|
        invariant forall name :: name in seen <==> name in usernames[..n]
        invariant forall name | name in seen :: name in users
        invariant forall i | 0 <= i < |found| :: Known(users, found[i].0, found[i].1) && found[i].0 in seen
        invariant forall name | name in seen :: exists i | 0 <= i < |found| :: found[i].0 == name
        invariant forall i, j | 0 <= i < j < |found| :: found[i].0 != found[j].0
      {
        var name := usernames[n];
        assert usernames[..n + 1] == usernames[..n] + [name];
        if name in seen { continue; }
        if name !in users { return None; }
        ghost var before := found;
        seen := seen + {name};
        found := found + [(name, users[name])];
        assert found[|before|].0 == name;
        assert forall i | 0 <= i < |before| :: found[i] == before[i];
      }
      assert usernames[..|usernames|] == usernames;
      return Some(found);
    }

    /** `added` is what was inserted. An insert that meets an existing member fails the transaction. */
    method ForceAddMembers(c: Crate, usernames: seq<Username>, level: int, now: int, open: bool)
      returns (r: Outcome, ghost added: seq<(Username, UserId)>)
      requires Valid()
      modifies this`tables, this`invitations, this`messages
      ensures Valid()
      ensures r.Refused? ==> tables == old(tables) && invitations == old(invitations)
      ensures r.Done? <==> open && MayForceAdd(old(tables), users, c, usernames, level)
      ensures r.Done? ==> added != [] && (level == OWNER ==> |added| == 1)
      ensures r.Done? ==> tables == old(tables).(members := ForceAdded(old(tables).members, c, added, level, now))
      ensures r.Done? ==>
                forall i | 0 <= i < |added| ::
                  Known(users, added[i].0, added[i].1) && added[i].0 in usernames &&
                    (c, added[i].1) !in old(tables).members
      ensures r.Done? ==> forall name | name in usernames :: exists i | 0 <= i < |added| :: added[i].0 == name
      ensures r.Done? ==> OwnersKept(old(tables.members), tables.members, Administrator)
      ensures r.Done? ==> forall name | name in usernames :: Pending(invitations, c, name) == {}
    {
      added := [];
      var error, found := CheckAddition(c, usernames, level, open);
      if error.Some? { r := Refused(error.value); return; }
      var members := tables.members;
      if level == OWNER {
        members := DemoteOwners(members, c, None);
      }
      var newInvitations, newMessages := invitations, messages;
      ghost var demoted := members;
      for n := 0 to |found|
        invariant members == InsertAll(demoted, c, found[..n], level, now)
        invariant Fewer(newInvitations, invitations)
        invariant forall i | 0 <= i < n :: Pending(newInvitations, c, found[i].0) == {}
      {
        assert found[..n + 1][..n] == found[..n];
        members := members[(c, found[n].1) := Member(found[n].0, level, now)];
        var ids := Pending(newInvitations, c, found[n].0);
        newMessages := Cancelled(newMessages, ids);
        newInvitations := newInvitations - ids;
      }
      assert found[..|found|] == found;
      ForceAddedOwners(tables.members, c, found, level, now);
      InsertedOk(tables, demoted, c, found, level, now);
      FewerOk(newInvitations, invitations);
      tables := tables.(members := members);
      invitations, messages := newInvitations, newMessages;
      r, added := Done, found;
    }

    /** What a forced addition checks before its first statement. */
    method CheckAddition(c: Crate, usernames: seq<Username>, level: int, open: bool)
      returns (error: Option<Error>, found: seq<(Username, UserId)>)
      ensures error == None <==> open && MayForceAdd(tables, users, c, usernames, level)
      ensures error == None ==> found != [] && (level == OWNER ==> |found| == 1)
      ensures error == None ==>
                forall i | 0 <= i < |found| ::
                  Known(users, found[i].0, found[i].1) && found[i].0 in usernames && (c, found[i].1) !in tables.members
      ensures error == None ==> forall name | name in usernames :: exists i | 0 <= i < |found| :: found[i].0 == name
    {
      found := [];
      if |usernames| == 0 || |usernames| > 20 { error := Some(InvalidBatch); return; }
      if level < PUBLISH || level > OWNER { error := Some(InvalidLevel); return; }
      var resolved := ResolveUsers(usernames);
      if resolved == None { error := Some(UnknownUser); return; }
      found := resolved.value;
      assert usernames[0] in usernames;
      if |found| == 0 || (level == OWNER && |found| != 1) {
        assert found[0].0 != found[1].0 && found[0].0 in usernames && found[1].0 in usernames;
        error := Some(InvalidBatch);
        return;
      }
      if !open { error := Some(Locked); return; }
      if c !in tables.packages { error := Some(NotFound); return; }
      for n := 0 to |found|
        invariant forall i | 0 <= i < n :: (c, found[i].1) !in tables.members
      {
        if (c, found[n].1) in tables.members { error := Some(MemberExists); return; }
      }
      error := None;
    }

    /** Accepts or rejects an invitation. Accepting needs an inviter who may still give that level. */
    method RespondInvitation(id: Id, recipient: Username, accept: bool, now: int, open: bool) returns (r: Outcome)
      requires Valid()
      modifies this`tables, this`invitations, this`messages
      ensures Valid()
      ensures r.Refused? ==> tables == old(tables) && invitations == old(invitations)
      ensures r.Done? ==> id in old(invitations) && invitations == old(invitations) - {id}
      ensures r.Done? && !accept ==> tables == old(tables)
      ensures r.Done? <==>
              (open && Answerable(old(invitations), old(messages), id, recipient, now) &&
               old(invitations)[id].crate in old(tables).packages &&
                 (accept ==> Acceptable(old(tables), users, old(invitations)[id])))
      ensures r.Done? && accept ==> var i := old(invitations)[id];
                tables == old(tables).(members := Accepted(old(tables).members, i.crate, recipient, users[recipient],
                                                           i.level, now)) &&
                OwnersKept(old(tables.members), tables.members, User(users[i.inviter]))
    {
      if id !in invitations || invitations[id].recipient != recipient { return Refused(InvitationInvalid); }
      var invitation := invitations[id];
      var c := invitation.crate;
      if !open { return Refused(Locked); }
      if c !in tables.packages { return Refused(NotFound); }
      var t := tables;
      if accept {
        if invitation.inviter !in users || recipient !in users { return Refused(InvitationInvalid); }
        var inviterId, recipientId := users[invitation.inviter], users[recipient];
        var permission := EffectivePermission(c, inviterId).value;
        if !permission.1 || permission.0 < MANAGE { return Refused(InvitationInvalid); }
        if invitation.level == OWNER && permission.0 < OWNER { return Refused(InvitationInvalid); }
        if (c, recipientId) in t.members { return Refused(MemberExists); }
        if invitation.level == OWNER {
          t := t.(members := DemoteOwners(t.members, c, Some(recipientId)));
        }
        t := t.(members := t.members[(c, recipientId) := Member(recipient, invitation.level, now)]);
        AcceptedOwners(tables.members, c, recipient, recipientId, invitation.level, now, inviterId);
      }
      if id !in messages || messages[id].recipient != recipient || !messages[id].pending
         || (messages[id].expiresAt != 0 && messages[id].expiresAt <= now) {
        return Refused(InvitationInvalid);
      }
      messages := messages[id := messages[id].(pending := false)];
      invitations := invitations - {id};
      tables := t;
      return Done;
    }

    /** The members do not change; afterwards the last offer stands, and others' invitations are kept. */
    method CreateInvitations(offers: seq<Offer>, open: bool) returns (r: Outcome)
      requires Valid()
      modifies this`invitations, this`messages
      ensures Valid()
      ensures r.Done? <==>
              (open && 0 < |offers| <= 20 &&
               (forall i | 0 <= i < |offers| :: SameBatch(offers[i].invitation, offers[0].invitation)) &&
               MayPlaceAll(tables, users, old(invitations), old(messages), offers))
      ensures r.Done? ==>
                invitations == WithOffers(old(invitations), offers) &&
                  messages == WithMessages(old(invitations), old(messages), offers)
      ensures r.Refused? ==> invitations == old(invitations) && messages == old(messages)
      ensures r.Done? ==> offers != [] && forall i | 0 <= i < |offers| ::
                SameBatch(offers[i].invitation, offers[0].invitation) && MayOffer(tables, users, offers[i].invitation)
      ensures r.Done? ==>
                var last := offers[|offers| - 1]; last.id in invitations && invitations[last.id] == last.invitation
      ensures r.Done? ==>
                forall id | id in old(invitations) &&
                  !(exists i | 0 <= i < |offers| :: SameTarget(offers[i].invitation, old(invitations)[id])) ::
                id in invitations && invitations[id] == old(invitations)[id]
    {
      hide MayPlaceAll, WithOffers, WithMessages, MayPlace, MayOffer, InvitationsOk;
      PlacedOffers(tables, users, invitations, messages, offers);
      if |offers| == 0 || |offers| > 20 { return Refused(InvalidBatch); }
      for n := 0 to |offers|
        invariant invitations == old(invitations) && messages == old(messages)
        invariant forall i | 0 <= i < n ::
                    PUBLISH <= offers[i].invitation.level <= OWNER && offers[i].invitation.recipient in users
      {
        OfferParts(tables, users, offers[n].invitation);
        var level := offers[n].invitation.level;
        if level < PUBLISH || level > OWNER { return Refused(InvalidLevel); }
        if offers[n].invitation.recipient !in users { return Refused(Denied); }
      }
      var first := offers[0].invitation;
      OfferParts(tables, users, first);
      if first.inviter !in users { return Refused(Denied); }
      if !open { return Refused(Locked); }
      if first.crate !in tables.packages { return Refused(NotFound); }
      var permission := EffectivePermission(first.crate, users[first.inviter]).value;
      if !permission.1 || permission.0 < MANAGE { return Refused(Denied); }
      var newInvitations, newMessages := invitations, messages;
      assert offers[0..] == offers;
      for n := 0 to |offers|
        invariant invitations == old(invitations) && messages == old(messages)
        invariant InvitationsOk(newInvitations)
        invariant forall i | 0 <= i < n :: SameBatch(offers[i].invitation, first)
        invariant MayPlaceAll(tables, users, invitations, messages, offers) <==>
                    MayPlaceAll(tables, users, newInvitations, newMessages, offers[n..])
        invariant WithOffers(invitations, offers) == WithOffers(newInvitations, offers[n..])
        invariant WithMessages(invitations, messages, offers) == WithMessages(newInvitations, newMessages, offers[n..])
      {
        var offer := offers[n];
        var i := offer.invitation;
        PlaceNext(tables, users, newInvitations, newMessages, offers, n);
        OfferParts(tables, users, i);
        if i.crate != first.crate || i.inviter != first.inviter { return Refused(InvalidBatch); }
        if i.level == OWNER && permission.0 < OWNER { return Refused(Denied); }
        if (i.crate, users[i.recipient]) in tables.members { return Refused(MemberExists); }
        var ids := Pending(newInvitations, i.crate, i.recipient);
        PlaceParts(tables, users, newInvitations, newMessages, offer);
        ghost var known, carried := newInvitations, newMessages;
        if ids != {} {
          var existing :| existing in ids;
          if Stands(tables, users, newInvitations, newMessages, existing, i.createdAt) {
            return Refused(InvitationExists);
          }
          newMessages := Cancelled(newMessages, ids);
        } else {
          NothingCancelled(newMessages);
        }
        if offer.id in newMessages || offer.id in newInvitations - ids { return Refused(ResourceConflict); }
        OfferOk(newInvitations, offer);
        newMessages := newMessages[offer.id := offer.message];
        newInvitations := (newInvitations - ids)[offer.id := i];
        assert newInvitations == WithOffer(known, offer) && newMessages == WithMessage(known, carried, offer);
      }
      NothingToPlace(tables, users, newInvitations, newMessages, offers);
      OffersKept(tables, users, invitations, messages, offers);
      invitations, messages := newInvitations, newMessages;
      return Done;
    }

    /** `actor` is nothing for an administrator. */
    method SetMemberLevel(c: Crate, actor: Option<Username>, username: Username, level: int, open: bool)
      returns (r: Outcome)
      requires Valid()
      modifies this`tables
      ensures Valid()
      ensures r.Done? <==> open && MaySetLevel(old(tables), users, c, actor, username, level)
      ensures r.Refused? ==> tables == old(tables)
      ensures r.Done? ==> var by_ := if actor.Some? then Some(users[actor.value]) else None;
                tables == old(tables).(members := LevelSet(old(tables).members, c, by_, users[username], level)) &&
                OwnersKept(old(tables.members), tables.members,
                           if actor.Some? then User(users[actor.value]) else Administrator)
    {
      if level < PUBLISH || level > OWNER { return Refused(InvalidLevel); }
      if username !in users { return Refused(NotFound); }
      var targetId := users[username];
      var actorId: Option<UserId> := None;
      if actor.Some? {
        if actor.value !in users { return Refused(Denied); }
        actorId := Some(users[actor.value]);
      }
      if !open { return Refused(Locked); }
      if c !in tables.packages { return Refused(NotFound); }
      var actorLevel := 0;
      if actor.Some? {
        var permission := EffectivePermission(c, actorId.value).value;
        if !permission.1 || permission.0 < MANAGE { return Refused(Denied); }
        actorLevel := permission.0;
      }
      if (c, targetId) !in tables.members { return Refused(NotFound); }
      var members := tables.members;
      var current := members[(c, targetId)].level;
      if current == OWNER && level < OWNER {
        var others := set k | k in members && k.0 == c && members[k].level == OWNER && k.1 != targetId;
        assert others == {} by {
          assert IsOwner(members, c, targetId);
          if k :| k in others { assert IsOwner(members, c, k.1); }
        }
        if |others| == 0 { return Refused(LastOwner); }
      }
      if level == OWNER && current != OWNER {
        if actor.Some? {
          if actorLevel != OWNER || actor.value == username { return Refused(Denied); }
          members := members[(c, actorId.value) := members[(c, actorId.value)].(level := current)];
        } else {
          members := DemoteOwners(members, c, Some(targetId));
        }
      }
      members := members[(c, targetId) := members[(c, targetId)].(level := level)];
      LevelSetOwners(tables.members, c, actorId, targetId, level);
      tables := tables.(members := members);
      return Done;
    }
  }

  lemma {:induction false} InsertedOk(t: Tables, members: Members, c: Crate, added: seq<(Username, UserId)>,
                                      level: int, now: int)
    requires c in t.packages && level <= OWNER &&
             forall k | k in members :: k.0 in t.packages && members[k].level <= OWNER
    ensures LevelsOk(InsertAll(members, c, added, level, now))
    ensures forall k | k in InsertAll(members, c, added, level, now) :: k.0 in t.packages
    decreases |added|
  {
    if added != [] { InsertedOk(t, members, c, added[..|added| - 1], level, now); }
  }

  predicate Fewer(some: map<Id, Invitation>, all: map<Id, Invitation>) {
    forall id | id in some :: id in all && some[id] == all[id]
  }

  lemma FewerOk(some: map<Id, Invitation>, all: map<Id, Invitation>)
    requires Fewer(some, all) && InvitationsOk(all)
    ensures InvitationsOk(some)
  {
    forall i, j | i in some && j in some && SameTarget(some[i], some[j]) ensures i == j {
      assert SameTarget(all[i], all[j]);
    }
  }

  lemma OfferOk(known: map<Id, Invitation>, offer: Offer)
    requires InvitationsOk(known) && PUBLISH <= offer.invitation.level <= OWNER
    requires offer.id !in known - Pending(known, offer.invitation.crate, offer.invitation.recipient)
    ensures InvitationsOk((known - Pending(known, offer.invitation.crate,
                                           offer.invitation.recipient))[offer.id := offer.invitation])
  {
    var rest := known - Pending(known, offer.invitation.crate, offer.invitation.recipient);
    var after := rest[offer.id := offer.invitation];
    forall i, j | i in after && j in after && SameTarget(after[i], after[j]) ensures i == j {
      if i != offer.id && j != offer.id { assert SameTarget(known[i], known[j]); }
    }
  }

  // ---- Runs ----

  /**
   The changes of packages, versions, invitations and levels. Left out are the two whose rows may
   not fit the flags of an archived package, the rollback of a reviewed publication and the record
   of a mirrored version, and the removal of members and accounts.
   */
  datatype Operation =
    | Publish(crate: Crate, pkg: Package, name: VersionName, version: Version, username: Username)
    | Yank(crate: Crate, name: VersionName, yanked: bool, administrator: bool)
    | Archive(crate: Crate, archived: bool, administrator: bool)
    | Delete(crate: Crate)
    | DeleteVersion(crate: Crate, name: VersionName)
    | DeleteRepository(repository: Repository)
    | ForceAdd(crate: Crate, usernames: seq<Username>, level: int, now: int)
    | Invite(offers: seq<Offer>)
    | Respond(id: Id, recipient: Username, accept: bool, now: int)
    | SetLevel(crate: Crate, actor: Option<Username>, username: Username, level: int)

  predicate Deletes(op: Operation, c: Crate) {
    op == Delete(c) || op == DeleteRepository(c.repository)
  }

  /** The operations that end the archive of `c`. */
  predicate Ends(op: Operation, c: Crate) {
    Deletes(op, c) || (op.Archive? && op.crate == c && !op.archived)
  }

  predicate Removes(op: Operation, c: Crate, name: VersionName) {
    Deletes(op, c) || op == DeleteVersion(c, name)
  }

  /** The operations that give `c` another description. */
  predicate Describes(op: Operation, c: Crate) {
    Deletes(op, c) || (op.Publish? && op.crate == c)
  }

  /** What every operation carries on, for any earlier tables, a package and one of its versions. */
  ghost predicate Carried(start: Tables, before: Tables, after: Tables, c: Crate, name: VersionName, op: Operation) {
    && (HasOwner(before.members, c) && !Deletes(op, c) ==> HasOwner(after.members, c))
    && (SinceArchive(start, before, c) && !Ends(op, c) ==> SinceArchive(start, after, c))
    && (KeepsRelease(start, before, c, name) && !Removes(op, c, name) ==> KeepsRelease(start, after, c, name))
    && (KeepsDescription(start, before, c) && !Describes(op, c) ==> KeepsDescription(start, after, c))
  }

  ghost predicate RegistryOk(r: Registry)
    reads r
  {
    r.Valid() && FlagsOk(r.tables)
  }

  /** One operation; `start` is any earlier state of the tables. */
  method Perform(registry: Registry, op: Operation, open: bool, ghost start: Tables, ghost c: Crate,
                 ghost name: VersionName)
    requires RegistryOk(registry)
    modifies registry
    ensures RegistryOk(registry)
    ensures Carried(start, old(registry.tables), registry.tables, c, name, op)
  {
    hide OneOwner, SinceArchive, FlagsOk, Published, Deleted, VersionDeleted, RepositoryDeleted, HasOwner, Yanked,
         Archived, KeepsRelease, KeepsDescription;
    var r: Outcome;
    ghost var t := registry.tables;
    match op {
      case Publish(d, pkg, v, version, username) =>
        r := registry.RecordPublication(d, pkg, v, version, username, open);
        if r.Done? {
          PublishFlags(t, d, pkg, v, version, username, registry.users[username]);
          PublishKeepsRows(start, t, c, name, d, pkg, v, version, username, registry.users[username]);
          if SinceArchive(start, t, c) {
            PublishGoesOn(start, t, c, d, pkg, v, version, username, registry.users[username]);
          }
        }
      case Yank(d, v, yanked, administrator) =>
        r := registry.SetVersionYanked(d, v, yanked, administrator);
        if r.Done? {
          YankFlags(t, d, v, yanked, administrator);
          YankKeepsRows(start, t, c, name, d, v, yanked, administrator);
          if SinceArchive(start, t, c) { ArchiveGoesOn(start, t, c, d, v, yanked, administrator); }
        }
      case Archive(d, archived, administrator) =>
        r := registry.SetPackageArchived(d, archived, administrator);
        if r.Done? {
          ArchiveFlags(t, d, archived, administrator);
          ArchiveKeepsRows(start, t, c, name, d, archived, administrator);
          if SinceArchive(start, t, c) && !Ends(op, c) { RearchiveGoesOn(start, t, c, d, archived, administrator); }
        }
      case Delete(d) =>
        r := registry.DeletePackage(d);
        if r.Done? { DeleteFlags(start, t, c, name, d); }
      case DeleteVersion(d, v) =>
        r := registry.DeleteVersion(d, v);
        if r.Done? { VersionDeletedFlags(start, t, c, name, d, v); }
      case DeleteRepository(repository) =>
        registry.DeleteRepository(repository);
        RepositoryFlags(start, t, c, name, repository);
      case ForceAdd(d, usernames, level, now) =>
        ghost var added;
        r, added := registry.ForceAddMembers(d, usernames, level, now, open);
      case Invite(offers) =>
        r := registry.CreateInvitations(offers, open);
      case Respond(id, recipient, accept, now) =>
        r := registry.RespondInvitation(id, recipient, accept, now, open);
      case SetLevel(d, actor, username, level) =>
        r := registry.SetMemberLevel(d, actor, username, level, open);
    }
    if op.ForceAdd? || op.Invite? || op.Respond? || op.SetLevel? {
      MembersOnly(start, t, registry.tables, c, name);
    }
  }

  /** A publication changes the row of its own package, and adds a version. */
  lemma PublishKeepsRows(start: Tables, t: Tables, c: Crate, name: VersionName,
                         d: Crate, pkg: Package, v: VersionName, version: Version, username: Username, user: UserId)
    requires MayPublish(t, d, pkg, v, user)
    ensures KeepsRelease(start, t, c, name) ==>
              KeepsRelease(start, Published(t, d, pkg, v, version, username, user), c, name)
    ensures KeepsDescription(start, t, c) && d != c ==>
              KeepsDescription(start, Published(t, d, pkg, v, version, username, user), c)
  {
  }

  lemma YankKeepsRows(start: Tables, t: Tables, c: Crate, name: VersionName, d: Crate, v: VersionName, yanked: bool,
                      administrator: bool)
    requires MayYank(t, d, v, yanked, administrator)
    ensures var u := Yanked(t, d, v, yanked, administrator);
            && (KeepsRelease(start, t, c, name) ==> KeepsRelease(start, u, c, name))
            && (KeepsDescription(start, t, c) ==> KeepsDescription(start, u, c)) && u.members == t.members
  {
  }

  lemma ArchiveKeepsRows(start: Tables, t: Tables, c: Crate, name: VersionName, d: Crate, archived: bool,
                         administrator: bool)
    requires MayArchive(t, d, archived, administrator)
    ensures var u := Archived(t, d, archived, administrator);
            && (KeepsRelease(start, t, c, name) ==> KeepsRelease(start, u, c, name))
            && (KeepsDescription(start, t, c) ==> KeepsDescription(start, u, c)) && u.members == t.members
  {
  }

  lemma RearchiveGoesOn(start: Tables, t: Tables, c: Crate, d: Crate, archived: bool, administrator: bool)
    requires SinceArchive(start, t, c) && MayArchive(t, d, archived, administrator) && (d == c ==> archived)
    ensures SinceArchive(start, Archived(t, d, archived, administrator), c)
  {
  }

  /** The member operations do not touch the rows of packages and versions. */
  lemma MembersOnly(start: Tables, t: Tables, u: Tables, c: Crate, name: VersionName)
    requires u.packages == t.packages && u.versions == t.versions
    ensures FlagsOk(u) <==> FlagsOk(t)
    ensures SinceArchive(start, u, c) <==> SinceArchive(start, t, c)
    ensures KeepsRelease(start, u, c, name) <==> KeepsRelease(start, t, c, name)
    ensures KeepsDescription(start, u, c) <==> KeepsDescription(start, t, c)
  {
  }

  lemma DeleteFlags(start: Tables, t: Tables, c: Crate, name: VersionName, d: Crate)
    requires FlagsOk(t)
    ensures FlagsOk(Deleted(t, d))
    ensures d != c && SinceArchive(start, t, c) ==> SinceArchive(start, Deleted(t, d), c)
    ensures d != c && KeepsRelease(start, t, c, name) ==> KeepsRelease(start, Deleted(t, d), c, name)
    ensures d != c && KeepsDescription(start, t, c) ==> KeepsDescription(start, Deleted(t, d), c)
  {
  }

  lemma VersionDeletedFlags(start: Tables, t: Tables, c: Crate, name: VersionName, d: Crate, v: VersionName)
    requires FlagsOk(t)
    ensures FlagsOk(VersionDeleted(t, d, v)) && VersionDeleted(t, d, v).members == t.members
    ensures SinceArchive(start, t, c) ==> SinceArchive(start, VersionDeleted(t, d, v), c)
    ensures (d, v) != (c, name) && KeepsRelease(start, t, c, name) ==>
              KeepsRelease(start, VersionDeleted(t, d, v), c, name)
    ensures KeepsDescription(start, t, c) ==> KeepsDescription(start, VersionDeleted(t, d, v), c)
  {
  }

  lemma RepositoryFlags(start: Tables, t: Tables, c: Crate, name: VersionName, repository: Repository)
    requires FlagsOk(t)
    ensures FlagsOk(RepositoryDeleted(t, repository))
    ensures var u := RepositoryDeleted(t, repository);
            c.repository != repository ==>
              && (SinceArchive(start, t, c) ==> SinceArchive(start, u, c))
              && (KeepsRelease(start, t, c, name) ==> KeepsRelease(start, u, c, name))
              && (KeepsDescription(start, t, c) ==> KeepsDescription(start, u, c))
  {
  }

  /**
   Every run keeps at most one owner for each package; a package that has an owner keeps one until
   it is deleted; a version keeps all but its yank flags until it is deleted; and a package keeps
   its description until the next publication.
   */
  method Run(registry: Registry, ops: seq<Operation>, open: seq<bool>, ghost start: Tables, ghost c: Crate,
             ghost name: VersionName)
    requires RegistryOk(registry) && |open| == |ops|
    modifies registry
    ensures RegistryOk(registry)
    ensures HasOwner(old(registry.tables.members), c) && (forall op | op in ops :: !Deletes(op, c)) ==>
              HasOwner(registry.tables.members, c)
    ensures SinceArchive(start, old(registry.tables), c) && (forall op | op in ops :: !Ends(op, c)) ==>
              SinceArchive(start, registry.tables, c)
    ensures KeepsRelease(start, old(registry.tables), c, name) && (forall op | op in ops :: !Removes(op, c, name)) ==>
              KeepsRelease(start, registry.tables, c, name)
    ensures KeepsDescription(start, old(registry.tables), c) && (forall op | op in ops :: !Describes(op, c)) ==>
              KeepsDescription(start, registry.tables, c)
  {
    hide HasOwner, SinceArchive, KeepsRelease, KeepsDescription, Deletes, Ends, Removes, Describes;
    for i := 0 to |ops|
      invariant RegistryOk(registry)
      invariant HasOwner(old(registry.tables.members), c) && (forall op | op in ops :: !Deletes(op, c)) ==>
                  HasOwner(registry.tables.members, c)
      invariant SinceArchive(start, old(registry.tables), c) && (forall op | op in ops :: !Ends(op, c)) ==>
                  SinceArchive(start, registry.tables, c)
      invariant KeepsRelease(start, old(registry.tables), c, name) && (forall op | op in ops :: !Removes(op, c, name))
                ==> KeepsRelease(start, registry.tables, c, name)
      invariant KeepsDescription(start, old(registry.tables), c) && (forall op | op in ops :: !Describes(op, c)) ==>
                  KeepsDescription(start, registry.tables, c)
    {
      assert ops[i] in ops;
      Perform(registry, ops[i], open[i], start, c, name);
    }
  }

  /**
   After a publication and any run that neither removes the version nor publishes another, readers
   see what was published: the version's data and publisher, and the package's texts, with an empty
   link keeping what an earlier publication gave.
   */
  method PublishAndRun(registry: Registry, c: Crate, pkg: Package, name: VersionName, version: Version,
                       username: Username,
                       ops: seq<Operation>, open: seq<bool>) returns (r: Outcome)
    requires RegistryOk(registry) && |open| == |ops|
    requires forall op | op in ops :: !Removes(op, c, name) && !Describes(op, c)
    modifies registry
    ensures RegistryOk(registry)
    ensures r.Done? ==>
              (c, name) in registry.tables.versions &&
                SameRelease(version.(publisher := username, mirrored := false), registry.tables.versions[(c, name)])
    ensures r.Done? ==> c in registry.tables.packages && var p := registry.tables.packages[c];
              && p.name == pkg.name && p.description == pkg.description && p.readme == pkg.readme &&
                p.updatedAt == pkg.updatedAt
              && (c !in old(registry.tables).packages ==>
                p.homepage == pkg.homepage && p.repositoryUrl == pkg.repositoryUrl &&
                  p.documentation == pkg.documentation)
              && (c in old(registry.tables).packages ==> var q := old(registry.tables).packages[c];
                    && p.homepage == (if pkg.homepage != "" then pkg.homepage else q.homepage)
                    && p.repositoryUrl == (if pkg.repositoryUrl != "" then pkg.repositoryUrl else q.repositoryUrl)
                    && p.documentation == (if pkg.documentation != "" then pkg.documentation else q.documentation)
                    && p.createdAt == q.createdAt && p.teamPrefix == q.teamPrefix)
  {
    hide OneOwner, FlagsOk;
    ghost var t := registry.tables;
    r := registry.RecordPublication(c, pkg, name, version, username, true);
    if r.Done? { PublishFlags(t, c, pkg, name, version, username, registry.users[username]); }
    ghost var start := registry.tables;
    Run(registry, ops, open, start, c, name);
  }

  /**
   Archiving a package, any run that does not end the archive, and its restore: each version that
   is left is yanked exactly when it was before, or when an administrator has yanked it.
   */
  method ArchiveAndRestore(registry: Registry, c: Crate, ghost name: VersionName, ops: seq<Operation>, open: seq<bool>,
                           byAdministrator: bool, restorer: bool) returns (r: Outcome)
    requires RegistryOk(registry) && |open| == |ops|
    requires c in registry.tables.packages && !registry.tables.packages[c].archived
    requires forall op | op in ops :: !Ends(op, c)
    modifies registry
    ensures RegistryOk(registry)
    ensures r.Done? ==> forall k | k in registry.tables.versions && k.0 == c ::
              (k in old(registry.tables).versions &&
               (registry.tables.versions[k].yanked <==>
                 old(registry.tables).versions[k].yanked || registry.tables.versions[k].adminYanked))
  {
    ghost var start := registry.tables;
    ArchiveStarts(start, c, byAdministrator);
    ArchiveFlags(start, c, true, byAdministrator);
    r := registry.SetPackageArchived(c, true, byAdministrator);
    Run(registry, ops, open, start, c, name);
    ghost var t := registry.tables;
    r := registry.SetPackageArchived(c, false, restorer);
    if r.Done? {
      RestoreUndoesArchive(start, t, c, restorer);
      ArchiveFlags(t, c, false, restorer);
    }
  }
}
