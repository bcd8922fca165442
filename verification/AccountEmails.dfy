/**
 The table of owned email addresses and the primary address of each account. An address is modelled
 by its place in the order of normalised addresses; zero stands for the empty text.
 */
module AccountEmails {

  import opened Collections

  type Email = nat
  type UserId(==, !new)

  const MAX_EMAILS := 128
  const PAGE := 256

  datatype Ownership = Ownership(owner: UserId, retained: bool)
  type Addresses = map<Email, Ownership>
  type Primaries = map<UserId, Email>

  datatype Proof = Proof(email: Email, valid: bool, verified: bool)

  datatype Error =
    | InvalidEmail | TooMany | AlreadyExists | VerificationRequired | IsPrimary | NotRetired
    | Deleted | Busy | DatabaseFailed

  datatype Outcome = Done | Refused(error: Error)

  function Owned(addresses: Addresses, u: UserId): set<Email> {
    set e | e in addresses && addresses[e].owner == u
  }

  /** Every primary address is its account's own, and no account has too many. */
  ghost predicate EmailsOk(addresses: Addresses, primary: Primaries) {
    && (forall u | u in primary :: primary[u] in Owned(addresses, u))
    && (forall u :: |Owned(addresses, u)| <= MAX_EMAILS)
    && 0 !in addresses
  }

  predicate OthersKept(before: Addresses, after: Addresses, u: UserId) {
    && (forall e | e in before && before[e].owner != u :: e in after && after[e] == before[e])
    && (forall e | e in after && after[e].owner != u :: e in before && before[e] == after[e])
  }

  // ---- Reserving ----

  function Wanted(proofs: seq<Proof>): set<Email> {
    set i | 0 <= i < |proofs| :: proofs[i].email
  }

  predicate Verified(proofs: seq<Proof>, e: Email) {
    exists i :: 0 <= i < |proofs| && proofs[i].email == e && proofs[i].verified
  }

  predicate MayReserve(addresses: Addresses, u: UserId, proofs: seq<Proof>) {
    && |proofs| <= MAX_EMAILS && (forall i | 0 <= i < |proofs| :: proofs[i].valid && proofs[i].email != 0)
    && (forall e | e in Wanted(proofs) :: if e in addresses then addresses[e].owner == u else Verified(proofs, e))
    && |Owned(addresses, u) + Wanted(proofs)| <= MAX_EMAILS
  }

  function Reserved(addresses: Addresses, u: UserId, emails: set<Email>, retained: bool): Addresses {
    addresses + map e | e in emails :: Ownership(u, retained || (e in addresses && addresses[e].retained))
  }

  /** The addresses an account gains are exactly the wanted ones; nobody else's change. */
  lemma ReservedOwned(addresses: Addresses, u: UserId, emails: set<Email>, retained: bool)
    requires forall e | e in emails && e in addresses :: addresses[e].owner == u
    ensures Owned(Reserved(addresses, u, emails, retained), u) == Owned(addresses, u) + emails
    ensures OthersKept(addresses, Reserved(addresses, u, emails, retained), u)
    ensures forall v | v != u :: Owned(Reserved(addresses, u, emails, retained), v) == Owned(addresses, v)
  {
    var after := Reserved(addresses, u, emails, retained);
    forall v | v != u ensures Owned(after, v) == Owned(addresses, v) {
      forall e ensures e in Owned(after, v) <==> e in Owned(addresses, v) { }
    }
  }

  lemma ReserveKeeps(addresses: Addresses, primary: Primaries, u: UserId, proofs: seq<Proof>, retained: bool)
    requires EmailsOk(addresses, primary) && MayReserve(addresses, u, proofs)
    ensures EmailsOk(Reserved(addresses, u, Wanted(proofs), retained), primary)
  {
    ReservedOwned(addresses, u, Wanted(proofs), retained);
    var after := Reserved(addresses, u, Wanted(proofs), retained);
    forall v ensures |Owned(after, v)| <= MAX_EMAILS {
      if v == u { assert Owned(after, u) == Owned(addresses, u) + Wanted(proofs); }
    }
    forall v | v in primary ensures primary[v] in Owned(after, v) {
      assert primary[v] in Owned(addresses, v);
    }
  }

  /** An address that a reservation adds has a verified proof. */
  lemma NewIsVerified(addresses: Addresses, u: UserId, proofs: seq<Proof>, retained: bool, e: Email)
    requires MayReserve(addresses, u, proofs) && e !in addresses &&
             e in Reserved(addresses, u, Wanted(proofs), retained)
    ensures Verified(proofs, e)
  {
  }

  method Smallest(emails: set<Email>) returns (least: Email)
    requires emails != {}
    ensures least in emails && forall e | e in emails :: least <= e
  {
    least :| least in emails;
    var left := emails - {least};
    while left != {}
      invariant left <= emails && least in emails
      invariant forall e | e in emails && e !in left :: least <= e
      decreases |left|
    {
      var e :| e in left;
      if e < least { least := e; }
      left := left - {e};
    }
  }

  /** `reserveAccountEmailsTx`. The rows change only if every address may be reserved. */
  method Reserve(addresses: Addresses, u: UserId, proofs: seq<Proof>, retained: bool)
    returns (r: Outcome, after: Addresses, changed: bool)
    ensures r.Done? <==> MayReserve(addresses, u, proofs) || proofs == []
    ensures after == if r.Done? then Reserved(addresses, u, Wanted(proofs), retained) else addresses
    ensures changed <==> after != addresses
  {
    hide Verified, Owned, Wanted, Reserved, MayReserve, Free;
    after, changed := addresses, false;
    if |proofs| == 0 {
      r := Done;
      NothingReserved(addresses, u, retained);
      return;
    }
    MayReserveSize(addresses, u, proofs);
    if |proofs| > MAX_EMAILS { r := Refused(TooMany); return; }
    var valid, verified := CollectProofs(proofs);
    if !valid { r := Refused(InvalidEmail); return; }
    FreeToReserve(addresses, u, proofs, verified);
    r, after := ReserveEach(addresses, u, verified, retained);
    changed := after != addresses;
  }

  lemma NothingReserved(addresses: Addresses, u: UserId, retained: bool)
    ensures Reserved(addresses, u, Wanted([]), retained) == addresses
  {
  }

  lemma MayReserveSize(addresses: Addresses, u: UserId, proofs: seq<Proof>)
    ensures MayReserve(addresses, u, proofs) ==>
              |proofs| <= MAX_EMAILS && forall i | 0 <= i < |proofs| :: proofs[i].valid && proofs[i].email != 0
  {
  }

  lemma FreeToReserve(addresses: Addresses, u: UserId, proofs: seq<Proof>, verified: map<Email, bool>)
    requires |proofs| <= MAX_EMAILS && forall i | 0 <= i < |proofs| :: proofs[i].valid && proofs[i].email != 0
    requires verified.Keys == Wanted(proofs) && forall e | e in verified :: verified[e] <==> Verified(proofs, e)
    ensures MayReserve(addresses, u, proofs) <==>
            (Free(addresses, u, verified, verified.Keys) && |Owned(addresses, u) + verified.Keys| <= MAX_EMAILS)
  {
    hide Verified, Owned, Wanted;
    assert forall e :: e in verified.Keys <==> e in Wanted(proofs);
  }

  /** Each address once, verified if any of its proofs is. */
  method CollectProofs(proofs: seq<Proof>) returns (valid: bool, verified: map<Email, bool>)
    ensures valid <==> forall i | 0 <= i < |proofs| :: proofs[i].valid && proofs[i].email != 0
    ensures valid ==>
              verified.Keys == Wanted(proofs) && forall e | e in verified :: verified[e] <==> Verified(proofs, e)
  {
    hide Wanted, Verified;
    verified := map[];
    assert Wanted(proofs[..0]) == {} by { NoProofs(proofs); }
    for n := 0 to |proofs|
      invariant verified.Keys == Wanted(proofs[..n])
      invariant forall e | e in verified :: verified[e] <==> Verified(proofs[..n], e)
      invariant forall i | 0 <= i < n :: proofs[i].valid && proofs[i].email != 0
    {
      var proof := proofs[n];
      if !proof.valid || proof.email == 0 { valid := false; return; }
      OneMoreProof(proofs, n);
      verified := verified[proof.email := (proof.email in verified && verified[proof.email]) || proof.verified];
    }
    assert proofs[..|proofs|] == proofs;
    valid := true;
  }

  lemma NoProofs(proofs: seq<Proof>)
    ensures Wanted(proofs[..0]) == {}
  {
  }

  lemma OneMoreProof(proofs: seq<Proof>, n: nat)
    requires n < |proofs|
    ensures Wanted(proofs[..n + 1]) == Wanted(proofs[..n]) + {proofs[n].email}
    ensures forall e ::
              Verified(proofs[..n + 1], e) <==> Verified(proofs[..n], e) || (e == proofs[n].email && proofs[n].verified)
    ensures forall e :: Verified(proofs[..n], e) ==> e in Wanted(proofs[..n])
  {
    var a, b := proofs[..n], proofs[..n + 1];
    assert b == a + [proofs[n]];
    forall e ensures e in Wanted(b) <==> e in Wanted(a) || e == proofs[n].email {
      if e in Wanted(a) { var i :| 0 <= i < n && a[i].email == e; assert b[i].email == e; }
      if e == proofs[n].email { assert b[n].email == e; }
    }
    forall e ensures Verified(b, e) <==> Verified(a, e) || (e == proofs[n].email && proofs[n].verified) {
      if Verified(a, e) {
        var i :| 0 <= i < |a| && a[i].email == e && a[i].verified;
        assert b[i].email == e && b[i].verified;
      }
      if e == proofs[n].email && proofs[n].verified { assert b[n].email == e && b[n].verified; }
      if Verified(b, e) { var i :| 0 <= i < |b| && b[i].email == e && b[i].verified; assert i < n ==> a[i] == b[i]; }
    }
  }

  /** Checks the addresses in order, counts, and then inserts and promotes. */
  method ReserveEach(addresses: Addresses, u: UserId, verified: map<Email, bool>, retained: bool)
    returns (r: Outcome, after: Addresses)
    ensures r.Done? <==>
              (Free(addresses, u, verified, verified.Keys) && |Owned(addresses, u) + verified.Keys| <= MAX_EMAILS)
    ensures after == if r.Done? then Reserved(addresses, u, verified.Keys, retained) else addresses
  {
    hide Owned;
    after := addresses;
    var error, values, promote := CheckEach(addresses, u, verified, retained);
    if error.Some? { r := Refused(error.value); return; }
    after := after + map e | e in values :: Ownership(u, retained);
    after := map e | e in after :: if e in promote then after[e].(retained := true) else after[e];
    RowsWritten(addresses, u, verified, values, promote, retained, after);
    r := Done;
  }

  lemma RowsWritten(addresses: Addresses, u: UserId, verified: map<Email, bool>, values: set<Email>,
                    promote: set<Email>,
                    retained: bool, after: Addresses)
    requires Free(addresses, u, verified, verified.Keys)
    requires forall e :: e in values <==> e in verified && e !in addresses
    requires forall e :: e in promote <==> e in verified && e in addresses && retained && !addresses[e].retained
    requires forall e :: e in after <==> e in addresses || e in values
    requires forall e | e in after :: after[e] ==
               (if e in values then Ownership(u, retained) else if e in promote then addresses[e].(retained := true)
                 else addresses[e])
    ensures after == Reserved(addresses, u, verified.Keys, retained)
  {
    var expected := Reserved(addresses, u, verified.Keys, retained);
    forall e | e in after ensures e in expected && after[e] == expected[e] {
      if e in verified && e in addresses { assert addresses[e].owner == u; }
    }
  }

  /** Every address is the account's own, or verified and nobody's. */
  predicate Free(addresses: Addresses, u: UserId, verified: map<Email, bool>, emails: set<Email>)
    requires emails <= verified.Keys
  {
    forall e | e in emails :: if e in addresses then addresses[e].owner == u else verified[e]
  }

  /** The addresses to insert and those to promote. */
  method CheckEach(addresses: Addresses, u: UserId, verified: map<Email, bool>, retained: bool)
    returns (error: Option<Error>, values: set<Email>, promote: set<Email>)
    ensures error == None <==>
              (Free(addresses, u, verified, verified.Keys) && |Owned(addresses, u) + verified.Keys| <= MAX_EMAILS)
    ensures error == None ==> forall e :: e in values <==> e in verified && e !in addresses
    ensures error == None ==>
              forall e :: e in promote <==> e in verified && e in addresses && retained && !addresses[e].retained
  {
    hide Owned;
    ghost var own := Owned(addresses, u);
    var ownCount := |Owned(addresses, u)|;
    error, values, promote := None, {}, {};
    var left := verified.Keys;
    while left != {}
      invariant left <= verified.Keys
      invariant Free(addresses, u, verified, verified.Keys - left)
      invariant forall e :: e in values <==> e in verified && e !in left && e !in addresses
      invariant forall e ::
                  e in promote <==> e in verified && e !in left && e in addresses && retained && !addresses[e].retained
      invariant ownCount == |own| + |values|
      decreases |left|
    {
      var email := Smallest(left);
      if email in addresses && addresses[email].owner != u { error := Some(AlreadyExists); return; }
      if !verified[email] && email !in addresses { error := Some(VerificationRequired); return; }
      if email !in addresses {
        ownCount := ownCount + 1;
        values := values + {email};
      } else if retained && !addresses[email].retained {
        promote := promote + {email};
      }
      left := left - {email};
    }
    assert verified.Keys - left == verified.Keys;
    CountOwn(addresses, u, verified, own, values);
    if ownCount > MAX_EMAILS { error := Some(TooMany); }
  }

  /** New addresses are counted beside the owned ones. */
  lemma CountOwn(addresses: Addresses, u: UserId, verified: map<Email, bool>, own: set<Email>, values: set<Email>)
    requires own == Owned(addresses, u) && Free(addresses, u, verified, verified.Keys)
    requires forall e :: e in values <==> e in verified && e !in addresses
    ensures |own + verified.Keys| == |own| + |values|
  {
    assert own + verified.Keys == own + values && own !! values;
  }

  // ---- Changing the primary address ----

  /** The rows left by removing an account's addresses that are not retained, but one. */
  function Pruned(addresses: Addresses, u: UserId, email: Email): Addresses {
    map e | e in addresses && !(addresses[e].owner == u && !addresses[e].retained && e != email) :: addresses[e]
  }

  predicate MayBecomePrimary(addresses: Addresses, u: UserId, email: Email) {
    email == 0 || ((email in addresses ==> addresses[email].owner == u) &&
                   |Owned(Pruned(addresses, u, email), u) + {email}| <= MAX_EMAILS)
  }

  function WithPrimary(addresses: Addresses, u: UserId, email: Email): Addresses {
    if email == 0 then Pruned(addresses, u, email) else Reserved(Pruned(addresses, u, email), u, {email}, false)
  }

  lemma PrunedOwned(addresses: Addresses, u: UserId, email: Email)
    ensures Owned(Pruned(addresses, u, email), u) <= Owned(addresses, u)
    ensures OthersKept(addresses, Pruned(addresses, u, email), u)
    ensures forall v | v != u :: Owned(Pruned(addresses, u, email), v) == Owned(addresses, v)
  {
  }

  lemma PrimaryKeeps(addresses: Addresses, primary: Primaries, u: UserId, email: Email)
    requires EmailsOk(addresses, primary) && MayBecomePrimary(addresses, u, email)
    ensures EmailsOk(WithPrimary(addresses, u, email), if email == 0 then primary - {u} else primary[u := email])
    ensures OthersKept(addresses, WithPrimary(addresses, u, email), u)
  {
    var pruned, after := Pruned(addresses, u, email), WithPrimary(addresses, u, email);
    PrunedOwned(addresses, u, email);
    SubsetSize(Owned(pruned, u), Owned(addresses, u));
    if email != 0 { ReservedOwned(pruned, u, {email}, false); }
    forall v ensures |Owned(after, v)| <= MAX_EMAILS {
      if v != u { assert Owned(after, v) == Owned(addresses, v); }
    }
    var now := if email == 0 then primary - {u} else primary[u := email];
    forall v | v in now ensures now[v] in Owned(after, v) {
      if v != u { assert primary[v] in Owned(addresses, v); }
    }
  }

  // ---- The accounts ----

  class Accounts {
    var addresses: Addresses
    var primary: Primaries
    var retired: set<UserId>
    /** Retired accounts whose addresses have been given up. */
    var released: set<UserId>

    constructor ()
      ensures Valid() && addresses == map[] && primary == map[] && retired == {} == released
    {
      addresses, primary, retired, released := map[], map[], {}, {};
    }

    ghost predicate Valid()
      reads this
    {
      && EmailsOk(addresses, primary)
      && released <= retired && forall u | u in released :: Owned(addresses, u) == {}
    }

    /** An account adds addresses that an identity provider or a code has shown to be its own. */
    method AddEmails(u: UserId, proofs: seq<Proof>, retained: bool) returns (r: Outcome)
      requires Valid()
      modifies this`addresses
      ensures Valid() && OthersKept(old(addresses), addresses, u)
      ensures r.Done? <==> u !in retired && (MayReserve(old(addresses), u, proofs) || proofs == [])
      ensures addresses == if r.Done? then Reserved(old(addresses), u, Wanted(proofs), retained) else old(addresses)
      ensures forall e | e in addresses && e !in old(addresses) :: Verified(proofs, e)
    {
      if u in retired { return Refused(Deleted); }
      var after, changed;
      r, after, changed := Reserve(addresses, u, proofs, retained);
      if MayReserve(addresses, u, proofs) {
        ReserveKeeps(addresses, primary, u, proofs, retained);
        ReservedOwned(addresses, u, Wanted(proofs), retained);
      } else {
        assert proofs == [] ==> Reserved(addresses, u, Wanted(proofs), retained) == addresses;
      }
      addresses := after;
    }

    /** `updateAccountEmailTx`, in its transaction. Zero clears the primary address. */
    method UpdatePrimary(u: UserId, email: Email, valid: bool) returns (r: Outcome)
      requires Valid()
      modifies this`addresses, this`primary
      ensures Valid() && OthersKept(old(addresses), addresses, u)
      ensures r.Done? <==> valid && u !in retired && MayBecomePrimary(old(addresses), u, email)
      ensures addresses == if r.Done? then WithPrimary(old(addresses), u, email) else old(addresses)
      ensures primary ==
              if r.Refused? then old(primary) else if email == 0 then old(primary) - {u} else old(primary)[u := email]
    {
      if !valid { return Refused(InvalidEmail); }
      if u in retired { return Refused(Deleted); }
      var after :=
        map e | e in addresses && !(addresses[e].owner == u && !addresses[e].retained && e != email) :: addresses[e];
      assert after == Pruned(addresses, u, email);
      if email != 0 {
        var changed;
        ghost var proofs := [Proof(email, true, true)];
        SingleProof(after, u, email);
        r, after, changed := Reserve(after, u, [Proof(email, true, true)], false);
        if r.Refused? { return; }
      }
      PrimaryKeeps(addresses, primary, u, email);
      addresses := after;
      primary := if email == 0 then primary - {u} else primary[u := email];
      return Done;
    }

    /** `DeleteAccountEmailAlias`: any address but the primary one. */
    method DeleteAlias(u: UserId, email: Email, valid: bool) returns (r: Outcome)
      requires Valid()
      modifies this`addresses
      ensures Valid() && OthersKept(old(addresses), addresses, u)
      ensures r.Done? <==> valid && email != 0 && u !in retired && !(u in primary && primary[u] == email)
      ensures r.Refused? ==> addresses == old(addresses)
      ensures r.Done? ==> email !in Owned(addresses, u) && Owned(addresses, u) == Owned(old(addresses), u) - {email}
    {
      if !valid || email == 0 { return Refused(InvalidEmail); }
      if u in retired { return Refused(Deleted); }
      if u in primary && primary[u] == email { return Refused(IsPrimary); }
      if email in addresses && addresses[email].owner == u {
        RemoveKeeps(addresses, primary, u, {email});
        addresses := addresses - {email};
      }
      return Done;
    }

    /** `RetireAccount`, given whether its plan is eligible. The account keeps its addresses for now. */
    method Retire(u: UserId, eligible: bool) returns (r: Outcome)
      requires Valid()
      modifies this`retired, this`released
      ensures Valid() && (r.Done? <==> eligible && u !in old(retired))
      ensures retired == if r.Done? then old(retired) + {u} else old(retired)
      ensures released == if r.Done? && Owned(addresses, u) == {} then old(released) + {u} else old(released)
    {
      if u in retired { return Refused(Deleted); }
      if !eligible { return Refused(Busy); }
      retired := retired + {u};
      if Owned(addresses, u) == {} { released := released + {u}; }
      return Done;
    }

    /** `ReleaseRetiredAccountEmail`: a retired account gives up every address. */
    method ReleaseRetired(u: UserId) returns (r: Outcome)
      requires Valid()
      modifies this`addresses, this`primary, this`released
      ensures Valid() && OthersKept(old(addresses), addresses, u)
      ensures r.Done? <==> u in retired
      ensures r.Refused? ==> addresses == old(addresses) && primary == old(primary) && released == old(released)
      ensures r.Done? ==> Owned(addresses, u) == {} && primary == old(primary) - {u} && released == old(released) + {u}
    {
      if u !in retired { return Refused(NotRetired); }
      RemoveKeeps(addresses, primary - {u}, u, Owned(addresses, u));
      addresses, primary, released := addresses - Owned(addresses, u), primary - {u}, released + {u};
      return Done;
    }

    method Perform(op: Operation) returns (r: Outcome)
      requires Valid()
      modifies this
      ensures Valid() && Stepped(old(addresses), addresses, old(retired), op)
      ensures old(retired) <= retired && old(released) <= released
      ensures op.Retire? && r.Done? ==> op.u in retired
      ensures op.Release? && op.u in old(retired) ==> r.Done? && op.u in released
    {
      hide EmailsOk, OthersKept, Stepped, MayReserve, MayBecomePrimary, WithPrimary, Reserved;
      StepsNowhere(addresses, retired, op);
      match op
      case Add(u, proofs, retained) =>
        StepsAdd(addresses, retired, op);
        r := AddEmails(u, proofs, retained);
      case SetPrimary(u, email, valid) =>
        StepsPrimary(addresses, retired, op);
        r := UpdatePrimary(u, email, valid);
      case RemoveAlias(u, email, valid) =>
        r := DeleteAlias(u, email, valid);
        if r.Done? { StepsAway(old(addresses), addresses, retired, op, {email}); }
      case Retire(u, eligible) => r := Retire(u, eligible);
      case Release(u) =>
        r := ReleaseRetired(u);
        if r.Done? { StepsAway(old(addresses), addresses, retired, op, Owned(old(addresses), u)); }
    }
  }

  // ---- Runs ----

  datatype Operation =
    | Add(u: UserId, proofs: seq<Proof>, retained: bool)
    | SetPrimary(u: UserId, email: Email, valid: bool)
    | RemoveAlias(u: UserId, email: Email, valid: bool)
    | Retire(u: UserId, eligible: bool)
    | Release(u: UserId)

  /** The operation shows that the address is the account's own. */
  predicate Proves(op: Operation, u: UserId, e: Email) {
    op.u == u && match op
    case Add(_, proofs, _) => Verified(proofs, e)
    case SetPrimary(_, email, valid) => valid && email == e
    case _ => false
  }

  /** The operation may take the address away from its account. */
  predicate Frees(op: Operation, u: UserId, e: Email) {
    op.u == u && match op
    case SetPrimary(_, email, _) => email != e
    case RemoveAlias(_, email, _) => email == e
    case Release(_) => true
    case _ => false
  }

  ghost predicate Stepped(before: Addresses, after: Addresses, retired: set<UserId>, op: Operation) {
    && (forall e | e in after :: (e in before && before[e].owner == after[e].owner) || Proves(op, after[e].owner, e))
    && (forall e | e in before && !Frees(op, before[e].owner, e) :: e in after && after[e].owner == before[e].owner)
    && (forall u | u in retired && op != Release(u) :: Owned(after, u) == Owned(before, u))
  }

  lemma StepsNowhere(addresses: Addresses, retired: set<UserId>, op: Operation)
    ensures Stepped(addresses, addresses, retired, op)
  {
  }

  lemma StepsAdd(addresses: Addresses, retired: set<UserId>, op: Operation)
    requires op.Add?
    ensures op.u !in retired && (MayReserve(addresses, op.u, op.proofs) || op.proofs == []) ==>
              Stepped(addresses, Reserved(addresses, op.u, Wanted(op.proofs), op.retained), retired, op)
  {
    if op.proofs == [] {
      NothingReserved(addresses, op.u, op.retained);
      assert op == Add(op.u, [], op.retained);
    } else if MayReserve(addresses, op.u, op.proofs) {
      ReservedOwned(addresses, op.u, Wanted(op.proofs), op.retained);
    }
  }

  lemma StepsPrimary(addresses: Addresses, retired: set<UserId>, op: Operation)
    requires op.SetPrimary?
    ensures op.valid && op.u !in retired && MayBecomePrimary(addresses, op.u, op.email) ==>
              Stepped(addresses, WithPrimary(addresses, op.u, op.email), retired, op)
  {
    PrunedOwned(addresses, op.u, op.email);
    if op.email != 0 && MayBecomePrimary(addresses, op.u, op.email) {
      ReservedOwned(Pruned(addresses, op.u, op.email), op.u, {op.email}, false);
    }
  }

  lemma StepsAway(before: Addresses, after: Addresses, retired: set<UserId>, op: Operation, gone: set<Email>)
    requires OthersKept(before, after, op.u) && Owned(after, op.u) == Owned(before, op.u) - gone
    requires forall e | e in gone :: Frees(op, op.u, e)
    requires op.u !in retired || op == Release(op.u)
    ensures Stepped(before, after, retired, op)
  {
    forall v | v != op.u ensures Owned(after, v) == Owned(before, v) { }
    forall e | e in before && !Frees(op, before[e].owner, e) ensures e in after && after[e].owner == before[e].owner {
      if before[e].owner == op.u { assert e in Owned(before, op.u) - gone; }
    }
    forall e | e in after ensures e in before && before[e].owner == after[e].owner {
      if after[e].owner == op.u { assert e in Owned(after, op.u); }
    }
  }

  ghost predicate Proved(ops: seq<Operation>, u: UserId, e: Email) {
    exists op | op in ops :: Proves(op, u, e)
  }

  ghost predicate Freed(ops: seq<Operation>, u: UserId, e: Email) {
    exists op | op in ops :: Frees(op, u, e)
  }

  /** What a run may have done to the addresses. */
  ghost predicate Ran(before: Addresses, after: Addresses, retired: set<UserId>, ops: seq<Operation>) {
    && (forall e | e in after :: (e in before && before[e].owner == after[e].owner) || Proved(ops, after[e].owner, e))
    && (forall e | e in before && !Freed(ops, before[e].owner, e) :: e in after && after[e].owner == before[e].owner)
    && (forall u | u in retired && Release(u) !in ops :: Owned(after, u) == Owned(before, u))
  }

  lemma RanOneMore(before: Addresses, now: Addresses, after: Addresses, retired: set<UserId>, later: set<UserId>,
                   ops: seq<Operation>, op: Operation)
    requires Ran(before, now, retired, ops) && Stepped(now, after, later, op) && retired <= later
    ensures Ran(before, after, retired, ops + [op])
  {
    hide Proves, Frees;
    var more := ops + [op];
    assert op in more && forall o | o in ops :: o in more;
    forall e | e in after
      ensures (e in before && before[e].owner == after[e].owner) || Proved(more, after[e].owner, e)
    {
      if Proved(ops, after[e].owner, e) { var o :| o in ops && Proves(o, after[e].owner, e); assert o in more; }
    }
  }

  /**
   Over any run, an address belongs to the account it belonged to unless that account has freed it;
   whoever has gained one has proved it; and a retired account keeps its addresses until they are
   released, and then owns none for good.
   */
  method Run(accounts: Accounts, ops: seq<Operation>)
    requires accounts.Valid()
    modifies accounts
    ensures accounts.Valid() && Ran(old(accounts.addresses), accounts.addresses, old(accounts.retired), ops)
    ensures old(accounts.retired) <= accounts.retired
    ensures forall u | u in old(accounts.retired) && Release(u) in ops ::
              Owned(accounts.addresses, u) == {} && u !in accounts.primary
  {
    hide Stepped, Ran, EmailsOk;
    RanNothing(accounts.addresses, accounts.retired);
    for i := 0 to |ops|
      invariant accounts.Valid() && Ran(old(accounts.addresses), accounts.addresses, old(accounts.retired), ops[..i])
      invariant old(accounts.retired) <= accounts.retired
      invariant forall u | u in old(accounts.retired) && Release(u) in ops[..i] :: u in accounts.released
    {
      ghost var now, later := accounts.addresses, accounts.retired;
      var r := accounts.Perform(ops[i]);
      RanOneMore(old(accounts.addresses), now, accounts.addresses, old(accounts.retired), later, ops[..i], ops[i]);
      assert ops[..i + 1] == ops[..i] + [ops[i]];
    }
    assert ops[..|ops|] == ops;
    NoPrimary(accounts.addresses, accounts.primary);
  }

  lemma RanNothing(addresses: Addresses, retired: set<UserId>)
    ensures Ran(addresses, addresses, retired, [])
  {
  }

  lemma NoPrimary(addresses: Addresses, primary: Primaries)
    requires EmailsOk(addresses, primary)
    ensures forall u | Owned(addresses, u) == {} :: u !in primary
  {
  }

  // ---- Migration of the primary addresses ----

  predicate Unique(primary: Primaries) {
    && (forall u, v | u in primary && v in primary && primary[u] == primary[v] :: u == v)
    && (forall u | u in primary :: primary[u] != 0)
  }

  /** The primary addresses after a cursor that no row holds yet. */
  function Missing(addresses: Addresses, primary: Primaries, after: Email): map<Email, UserId>
    requires Unique(primary)
  {
    map u | u in primary && primary[u] > after && primary[u] !in addresses :: primary[u] := u
  }

  lemma MissingHas(addresses: Addresses, primary: Primaries, after: Email)
    requires Unique(primary)
    ensures forall e | e in Missing(addresses, primary, after) ::
              (e > after && e !in addresses && Missing(addresses, primary, after)[e] in primary &&
                primary[Missing(addresses, primary, after)[e]] == e)
    ensures forall u | u in primary && primary[u] > after && primary[u] !in addresses ::
              primary[u] in Missing(addresses, primary, after)
  {
    var missing := Missing(addresses, primary, after);
    forall e | e in missing ensures e > after && e !in addresses && missing[e] in primary && primary[missing[e]] == e {
      var u :| u in primary && primary[u] > after && primary[u] !in addresses && primary[u] == e;
    }
  }

  predicate Conflicts(addresses: Addresses, primary: Primaries) {
    exists u :: u in primary && primary[u] in addresses && addresses[primary[u]].owner != u
  }

  /** The smallest addresses, at most a page of them; what is left out is greater than the last. */
  method Page(missing: set<Email>) returns (page: set<Email>, last: Email)
    requires missing != {}
    ensures page != {} && page <= missing && last in page && |page| <= PAGE
    ensures forall e | e in missing :: e in page <==> e <= last
  {
    last := Smallest(missing);
    page := {last};
    var left, count := missing - {last}, 1;
    while left != {} && count < PAGE
      invariant left <= missing && page == missing - left && last in page
      invariant count == |page| <= PAGE
      invariant forall e | e in missing :: e in left <==> last < e
      decreases |left|
    {
      last := Smallest(left);
      page, left, count := page + {last}, left - {last}, count + 1;
    }
  }

  function Migrated(addresses: Addresses, missing: map<Email, UserId>, page: set<Email>): Addresses
    requires page <= missing.Keys
  {
    addresses + map e | e in page :: Ownership(missing[e], false)
  }

  /** Old rows are kept, and new rows are primary addresses with their accounts. */
  ghost predicate Extends(before: Addresses, after: Addresses, primary: Primaries) {
    && (forall e | e in before :: e in after && after[e] == before[e])
    && (forall e | e in after && e !in before ::
      exists u :: u in primary && primary[u] == e && after[e] == Ownership(u, false))
  }

  predicate Settled(addresses: Addresses, primary: Primaries, cursor: Email) {
    forall u | u in primary && primary[u] <= cursor :: primary[u] in addresses
  }

  /** `migrateAccountEmails`. `works`: which inserts succeed; every page is committed by itself. */
  method Migrate(addresses: Addresses, primary: Primaries, works: nat -> bool) returns (r: Outcome, after: Addresses)
    requires Unique(primary)
    ensures Extends(addresses, after, primary)
    ensures r == Refused(AlreadyExists) <==> Conflicts(addresses, primary)
    ensures Conflicts(addresses, primary) ==> after == addresses
    ensures r.Done? ==> forall u | u in primary :: primary[u] in Owned(after, u)
    ensures (forall n :: works(n)) && !Conflicts(addresses, primary) ==> r.Done?
  {
    hide Missing, Migrated, Extends, Settled, Owned;
    after := addresses;
    StartMigration(addresses, primary);
    var conflicts := set u | u in primary && primary[u] in addresses && addresses[primary[u]].owner != u;
    ConflictsCounted(addresses, primary, conflicts);
    if |conflicts| > 0 {
      r := Refused(AlreadyExists);
      return;
    }
    var cursor, pages := 0, 0;
    while true
      invariant Extends(addresses, after, primary) && !Conflicts(after, primary) && Settled(after, primary, cursor)
      decreases |Missing(after, primary, 0)|
    {
      var missing := Missing(after, primary, cursor);
      if missing == map[] {
        AllThere(after, primary, cursor);
        r := Done;
        return;
      }
      var page, last := Page(missing.Keys);
      if !works(pages) { r := Refused(DatabaseFailed); return; }
      PageMoves(after, primary, cursor, page, last);
      PageExtends(addresses, after, primary, cursor, page);
      PageCounts(after, primary, cursor, page);
      after := Migrated(after, missing, page);
      cursor, pages := last, pages + 1;
    }
  }

  lemma StartMigration(addresses: Addresses, primary: Primaries)
    requires Unique(primary)
    ensures Extends(addresses, addresses, primary) && Settled(addresses, primary, 0)
  {
  }

  lemma ConflictsCounted(addresses: Addresses, primary: Primaries, conflicts: set<UserId>)
    requires conflicts == set u | u in primary && primary[u] in addresses && addresses[primary[u]].owner != u
    ensures |conflicts| > 0 <==> Conflicts(addresses, primary)
  {
    if Conflicts(addresses, primary) {
      var u :| u in primary && primary[u] in addresses && addresses[primary[u]].owner != u;
      assert u in conflicts;
    } else {
      assert conflicts == {};
    }
  }

  lemma AllThere(after: Addresses, primary: Primaries, cursor: Email)
    requires Unique(primary) && Missing(after, primary, cursor) == map[] && !Conflicts(after, primary)
    requires Settled(after, primary, cursor)
    ensures forall u | u in primary :: primary[u] in Owned(after, u)
  {
    MissingHas(after, primary, cursor);
  }

  /** A page settles everything up to its last address. */
  lemma PageMoves(after: Addresses, primary: Primaries, cursor: Email, page: set<Email>, last: Email)
    requires Unique(primary) && !Conflicts(after, primary) && Settled(after, primary, cursor)
    requires page <= Missing(after, primary, cursor).Keys
    requires forall e | e in Missing(after, primary, cursor).Keys :: e in page <==> e <= last
    ensures var next := Migrated(after, Missing(after, primary, cursor), page);
            !Conflicts(next, primary) && Settled(next, primary, last)
  {
    var missing := Missing(after, primary, cursor);
    hide Missing;
    MissingHas(after, primary, cursor);
    var next := Migrated(after, missing, page);
    forall u | u in primary && primary[u] in next ensures next[primary[u]].owner == u {
      if primary[u] in page { assert missing[primary[u]] == u; }
    }
  }

  lemma PageExtends(addresses: Addresses, after: Addresses, primary: Primaries, cursor: Email, page: set<Email>)
    requires Unique(primary) && Extends(addresses, after, primary) && page <= Missing(after, primary, cursor).Keys
    ensures Extends(addresses, Migrated(after, Missing(after, primary, cursor), page), primary)
  {
    hide Missing;
    MissingHas(after, primary, cursor);
  }

  lemma PageCounts(before: Addresses, primary: Primaries, cursor: Email, page: set<Email>)
    requires Unique(primary) && page != {} && page <= Missing(before, primary, cursor).Keys
    ensures |Missing(Migrated(before, Missing(before, primary, cursor), page), primary, 0)| <
            |Missing(before, primary, 0)|
  {
    hide Missing, Migrated, Unique;
    var next := Migrated(before, Missing(before, primary, cursor), page);
    MigratedKeys(before, Missing(before, primary, cursor), page);
    var e :| e in page;
    var a, b := Missing(next, primary, 0).Keys, Missing(before, primary, 0).Keys;
    MissingOne(before, primary, cursor, e);
    MissingOne(before, primary, 0, e);
    forall x | x in a ensures x in b - {e} {
      MissingOne(next, primary, 0, x);
      MissingOne(before, primary, 0, x);
    }
    SubsetSize(a, b - {e});
  }

  lemma MigratedKeys(addresses: Addresses, missing: map<Email, UserId>, page: set<Email>)
    requires page <= missing.Keys
    ensures Migrated(addresses, missing, page).Keys == addresses.Keys + page
  {
  }

  lemma MissingOne(addresses: Addresses, primary: Primaries, cursor: Email, e: Email)
    requires Unique(primary)
    ensures e in Missing(addresses, primary, cursor) <==> e > cursor && e !in addresses && e in primary.Values
  {
    if e > cursor && e !in addresses && e in primary.Values {
      var u :| u in primary && primary[u] == e;
      assert u in primary && primary[u] > cursor && primary[u] !in addresses;
    }
  }

  lemma SingleProof(addresses: Addresses, u: UserId, email: Email)
    requires email != 0
    ensures Wanted([Proof(email, true, true)]) == {email}
    ensures MayReserve(addresses, u, [Proof(email, true, true)]) <==>
            ((email in addresses ==> addresses[email].owner == u) && |Owned(addresses, u) + {email}| <= MAX_EMAILS)
  {
    var proofs := [Proof(email, true, true)];
    assert proofs[0].email == email && proofs[0].verified;
    assert Verified(proofs, email);
    assert Wanted(proofs) == {email};
  }

  /** Rows of one account may go, unless its primary address is among them. */
  lemma RemoveKeeps(addresses: Addresses, primary: Primaries, u: UserId, gone: set<Email>)
    requires (forall v | v in primary && v != u :: primary[v] in Owned(addresses, v)) && 0 !in addresses
    requires forall v :: |Owned(addresses, v)| <= MAX_EMAILS
    requires gone <= Owned(addresses, u) && (u in primary ==> primary[u] in Owned(addresses, u) && primary[u] !in gone)
    ensures EmailsOk(addresses - gone, primary) && OthersKept(addresses, addresses - gone, u)
    ensures Owned(addresses - gone, u) == Owned(addresses, u) - gone
  {
    forall v ensures |Owned(addresses - gone, v)| <= MAX_EMAILS {
      SubsetSize(Owned(addresses - gone, v), Owned(addresses, v));
    }
  }
}
