/**
 The ACME issuance protocol as a transition system: any number of finalize
 requests, challenge triggers and background validators, interleaved at every
 commit, with a crash allowed between any two of their steps
 (acme/api_finalize.py, acme/api_order.py, acme/validation/__init__.py).
 */
module AcmeProtocol {
  import opened Prelude
  import opened AcmeModel

  /** Where a request or a background job stands. A task that has answered,
      given up or crashed is no longer in the task table. */
  datatype Task =
    | Arrived(order: Id)                   // finalize: verified, not yet looked at
    | Loaded(order: Id, row: Order)        // finalize: holds the order row it read
    | Checked(order: Id)                   // finalize: readiness and CSR accepted
    | Claimed(order: Id)                   // finalize: won the claim
    | SignFailed(order: Id)                // finalize: rolled back, claim not yet released
    | Signed(order: Id, certificate: Id)   // finalize: certificate committed, not yet attached
    | Triggered(challenge: Id)             // trigger: read a pending challenge
    | Scheduled(challenge: Id)             // validator: queued by the winning trigger
    | Running(challenge: Id, authz: Id)    // validator: talking to the network

  datatype System = System(db: Db, tasks: map<Id, Task>, now: Time)

  datatype Event =
    | Tick(to: Time)
    | Register(issuer: Id)
    | NewOrder(account: Id, identifiers: seq<Identifier>)
    | IssueElsewhere(issuer: Id, sans: seq<San>)
    | Arrive(task: Id, order: Id)
    | LoadOrder(task: Id)
    | CheckReady(task: Id, csrMatches: bool)
    | Claim(task: Id)
    | Sign(task: Id, signable: bool)
    | Release(task: Id)
    | Attach(task: Id)
    | Trigger(task: Id, challenge: Id)
    | Begin(task: Id)
    | LoadChallenge(task: Id)
    | Succeed(task: Id)
    | Fail(task: Id)
    | Crash(task: Id)

  /** The state after `e`, or None when `e` cannot happen in `s`. */
  function Fire(s: System, e: Event): Option<System>
  {
    match e
    case Tick(to) => if s.now <= to then Some(s.(now := to)) else None
    case Register(issuer) =>
      Some(s.(db := s.db.(accounts := s.db.accounts[s.db.nextId := Account(issuer)], nextId := s.db.nextId + 1)))
    case NewOrder(account, identifiers) =>
      if account in s.db.accounts then Some(s.(db := CreateOrder(s.db, account, identifiers, s.now))) else None
    case IssueElsewhere(issuer, sans) =>
      Some(s.(db := s.db.(certs := s.db.certs[s.db.nextId := Certificate(issuer, sans, OtherDoor)], nextId := s.db.nextId + 1)))
    case Arrive(t, order) =>
      if t !in s.tasks && order in s.db.orders then Some(s.(tasks := s.tasks[t := Arrived(order)])) else None
    case Trigger(t, challenge) =>
      if t in s.tasks || challenge !in s.db.challenges || s.db.challenges[challenge].authz !in s.db.authzs then None
      else if TriggerDecision(s.db.challenges[challenge], s.db.authzs[s.db.challenges[challenge].authz], s.now) == Ok(true)
      then Some(s.(tasks := s.tasks[t := Triggered(challenge)]))
      else Some(s)
    case Crash(t) => if t in s.tasks then Some(s.(tasks := s.tasks - {t})) else None
    case _ => if e.task in s.tasks then Resume(s, e, e.task, s.tasks[e.task]) else None
  }

  /** A task already under way takes its next step. */
  function Resume(s: System, e: Event, t: Id, task: Task): Option<System>
  {
    match (e, task)
    case (LoadOrder(_), Arrived(order)) =>
      if order !in s.db.orders then None
      else if s.db.orders[order].certificate != None then Some(s.(tasks := s.tasks - {t}))
      else Some(s.(tasks := s.tasks[t := Loaded(order, s.db.orders[order])]))
    case (CheckReady(_, csrMatches), Loaded(order, row)) =>
      if OrderReads(s.db, order, row, s.now) == OrderReady && csrMatches then Some(s.(tasks := s.tasks[t := Checked(order)]))
      else Some(s.(tasks := s.tasks - {t}))
    case (Claim(_), Checked(order)) =>
      var (db, won) := ClaimOrder(s.db, order);
      Some(s.(db := db, tasks := if won then s.tasks[t := Claimed(order)] else s.tasks - {t}))
    case (Sign(_, signable), Claimed(order)) =>
      if order !in s.db.orders || s.db.orders[order].account !in s.db.accounts then None
      else if signable then
        Some(s.(db := StoreAcmeCertificate(s.db, order), tasks := s.tasks[t := Signed(order, s.db.nextId)]))
      else Some(s.(tasks := s.tasks[t := SignFailed(order)]))
    case (Release(_), SignFailed(order)) =>
      if order !in s.db.orders then None
      else Some(s.(db := ReleaseClaim(s.db, order), tasks := s.tasks - {t}))
    case (Attach(_), Signed(order, certificate)) =>
      if order !in s.db.orders then None
      else Some(s.(db := AttachCertificate(s.db, order, certificate), tasks := s.tasks - {t}))
    case (Begin(_), Triggered(challenge)) =>
      var (db, won) := BeginChallenge(s.db, challenge);
      Some(s.(db := db, tasks := if won then s.tasks[t := Scheduled(challenge)] else s.tasks - {t}))
    case (LoadChallenge(_), Scheduled(challenge)) =>
      if challenge in s.db.challenges && s.db.challenges[challenge].status == ChallengeProcessing
      then Some(s.(tasks := s.tasks[t := Running(challenge, s.db.challenges[challenge].authz)]))
      else Some(s.(tasks := s.tasks - {t}))
    case (Succeed(_), Running(challenge, authz)) =>
      if challenge !in s.db.challenges || authz !in s.db.authzs then None
      else Some(s.(db := RecordSuccess(s.db, challenge, authz), tasks := s.tasks - {t}))
    case (Fail(_), Running(challenge, _)) =>
      Some(s.(db := RecordFailure(s.db, challenge), tasks := s.tasks - {t}))
    case _ => None
  }

  ghost predicate Init(s: System)
  {
    s.db == Db(map[], map[], map[], map[], map[], 0) && s.tasks == map[]
  }

  ghost predicate Next(s: System, s': System)
  {
    exists e :: Fire(s, e) == Some(s')
  }

  /** A behaviour of the server: it starts empty and every state follows from
      the one before it. */
  ghost predicate Run(r: seq<System>)
  {
    && |r| > 0
    && Init(r[0])
    && forall i :: 0 < i < |r| ==> Next(r[i - 1], r[i])
  }

  // ----- the invariant -----------------------------------------------------------

  ghost predicate Names(a: Authz, identifier: Identifier)
  {
    a.kind == identifier.kind && a.value == identifier.baseValue && a.wildcard == identifier.wildcard
  }

  ghost predicate Covered(db: Db, order: Id, identifier: Identifier)
  {
    exists a :: a in db.authzs && db.authzs[a].order == order && Names(db.authzs[a], identifier)
  }

  /** Rows refer to rows that exist, ids below the counter are the used ones,
      and every identifier of an order has its authorization. */
  ghost predicate Structure(db: Db)
  {
    && (forall o :: o in db.orders ==> o < db.nextId && db.orders[o].account in db.accounts)
    && (forall a :: a in db.authzs ==>
          a < db.nextId && db.authzs[a].order in db.orders && db.authzs[a].expires == db.orders[db.authzs[a].order].expires)
    && (forall c :: c in db.challenges ==>
          && c < db.nextId && db.challenges[c].authz in db.authzs
          && db.challenges[c].kind in ChallengeTypesFor(db.authzs[db.challenges[c].authz].kind, db.authzs[db.challenges[c].authz].wildcard))
    && (forall k :: k in db.certs ==> k < db.nextId)
    && (forall a :: a in db.accounts ==> a < db.nextId)
    && (forall o, i :: o in db.orders && i in db.orders[o].identifiers ==> Covered(db, o, i))
  }

  ghost predicate HasValidChallenge(db: Db, authz: Id)
  {
    exists c :: c in db.challenges && db.challenges[c].authz == authz && db.challenges[c].status == ChallengeValid
  }

  /** Which statuses are ever stored, and what a stored `valid` means. */
  ghost predicate Statuses(db: Db)
  {
    && (forall o :: o in db.orders ==> db.orders[o].status in {OrderPending, OrderProcessing, OrderValid})
    && (forall o :: o in db.orders ==> (db.orders[o].status == OrderValid <==> db.orders[o].certificate != None))
    && (forall a :: a in db.authzs ==> db.authzs[a].status in {AuthzPending, AuthzValid})
    && (forall a :: a in db.authzs ==> (db.authzs[a].status == AuthzValid <==> HasValidChallenge(db, a)))
  }

  predicate IssuedFor(db: Db, certificate: Id, order: Id)
  {
    certificate in db.certs && db.certs[certificate].source == Acme(order)
  }

  /** The order has authorizations and every one of them is stored valid. */
  ghost predicate Proven(db: Db, order: Id)
  {
    && (exists a :: a in db.authzs && db.authzs[a].order == order)
    && (forall a :: a in db.authzs && db.authzs[a].order == order ==> db.authzs[a].status == AuthzValid)
  }

  /** At most one certificate per order; it is what the order and its account
      say; an order that was ever claimed successfully is proven. */
  ghost predicate Certificates(db: Db)
  {
    && (forall k, l, o :: IssuedFor(db, k, o) && IssuedFor(db, l, o) ==> k == l)
    && (forall k, o :: IssuedFor(db, k, o) ==>
          && o in db.orders && db.orders[o].status in {OrderProcessing, OrderValid}
          && db.orders[o].account in db.accounts
          && db.certs[k].issuer == db.accounts[db.orders[o].account].issuer
          && db.certs[k].sans == SansOf(db.orders[o].identifiers))
    && (forall o :: o in db.orders && db.orders[o].certificate != None ==> IssuedFor(db, db.orders[o].certificate.value, o))
    && (forall o :: o in db.orders && db.orders[o].status in {OrderProcessing, OrderValid} ==> Proven(db, o))
  }

  ghost predicate Sound(db: Db)
  {
    Structure(db) && Statuses(db) && Certificates(db)
  }

  /** A finalize request between its claim and its answer owns its order. */
  predicate Owns(task: Task)
  {
    task.Claimed? || task.SignFailed? || task.Signed?
  }

  predicate Validates(task: Task)
  {
    task.Scheduled? || task.Running?
  }

  /** What a task may rely on, whatever the other tasks do. */
  ghost predicate Justified(db: Db, task: Task)
  {
    match task
    case Arrived(o) => o in db.orders
    case Loaded(o, row) =>
      o in db.orders && row.identifiers == db.orders[o].identifiers && row.status in {OrderPending, OrderProcessing, OrderValid}
    case Checked(o) => o in db.orders && Proven(db, o)
    case Claimed(o) => Held(db, o) && forall k :: !IssuedFor(db, k, o)
    case SignFailed(o) => Held(db, o) && forall k :: !IssuedFor(db, k, o)
    case Signed(o, k) => Held(db, o) && IssuedFor(db, k, o)
    case Triggered(_) => true
    case Scheduled(c) => c in db.challenges && db.challenges[c].status == ChallengeProcessing
    case Running(c, a) =>
      c in db.challenges && db.challenges[c].status == ChallengeProcessing && a == db.challenges[c].authz
  }

  predicate Held(db: Db, order: Id)
  {
    order in db.orders && db.orders[order].status == OrderProcessing && db.orders[order].certificate == None
  }

  /** One owner per order, one validator per challenge. */
  predicate Compatible(a: Task, b: Task)
  {
    && !(Owns(a) && Owns(b) && a.order == b.order)
    && !(Validates(a) && Validates(b) && a.challenge == b.challenge)
  }

  ghost predicate Inv(s: System)
  {
    && Sound(s.db)
    && (forall t :: t in s.tasks ==> Justified(s.db, s.tasks[t]))
    && (forall t, u :: t in s.tasks && u in s.tasks && t != u ==> Compatible(s.tasks[t], s.tasks[u]))
  }

  // ----- new-order adds rows and touches none -------------------------------------

  /** What placing an order adds to the tables that already hold its row. */
  ghost predicate Grown(was: Db, db: Db, order: Id, identifiers: seq<Identifier>, expires: Time)
  {
    && db.accounts == was.accounts && db.orders == was.orders && db.certs == was.certs && was.nextId <= db.nextId
    && (forall a :: a in was.authzs ==> a in db.authzs && db.authzs[a] == was.authzs[a])
    && (forall c :: c in was.challenges ==> c in db.challenges && db.challenges[c] == was.challenges[c])
    && (forall a :: a in db.authzs && a !in was.authzs ==>
          && was.nextId <= a < db.nextId && db.authzs[a].order == order
          && db.authzs[a].status == AuthzPending && db.authzs[a].expires == expires)
    && (forall i :: i in identifiers ==> exists a :: a in db.authzs && a !in was.authzs && Names(db.authzs[a], i))
    && (forall c :: c in db.challenges && c !in was.challenges ==>
          && was.nextId <= c < db.nextId && db.challenges[c].status == ChallengePending
          && db.challenges[c].authz in db.authzs && db.challenges[c].authz !in was.authzs
          && db.challenges[c].kind in ChallengeTypesFor(db.authzs[db.challenges[c].authz].kind, db.authzs[db.challenges[c].authz].wildcard))
  }

  ghost predicate Fresh(db: Db)
  {
    && (forall a :: a in db.authzs ==> a < db.nextId)
    && (forall c :: c in db.challenges ==> c < db.nextId)
  }

  lemma {:induction false} AddChallengesGrows(db: Db, authz: Id, types: seq<ChallengeType>)
    requires Fresh(db) && authz in db.authzs
    requires forall k :: k in types ==> k in ChallengeTypesFor(db.authzs[authz].kind, db.authzs[authz].wildcard)
    ensures
      var db' := AddChallenges(db, authz, types);
      && db' == db.(challenges := db'.challenges, nextId := db.nextId + |types|)
      && Fresh(db')
      && (forall c :: c in db.challenges ==> c in db'.challenges && db'.challenges[c] == db.challenges[c])
      && (forall c :: c in db'.challenges && c !in db.challenges ==>
            && db.nextId <= c && db'.challenges[c].authz == authz && db'.challenges[c].status == ChallengePending
            && db'.challenges[c].kind in types)
    decreases |types|
  {
    if types != [] {
      var next := db.(challenges := db.challenges[db.nextId := Challenge(authz, types[0], ChallengePending)], nextId := db.nextId + 1);
      AddChallengesGrows(next, authz, types[1..]);
    }
  }

  lemma AddAuthzGrows(db: Db, order: Id, i: Identifier, expires: Time)
    requires Fresh(db)
    ensures Grown(db, AddAuthz(db, order, i, expires), order, [i], expires)
    ensures Fresh(AddAuthz(db, order, i, expires))
  {
    var placed := db.(authzs := db.authzs[db.nextId := Authz(order, i.kind, i.baseValue, i.wildcard, AuthzPending, expires)], nextId := db.nextId + 1);
    AddChallengesGrows(placed, db.nextId, ChallengeTypesFor(i.kind, i.wildcard));
    var one := AddAuthz(db, order, i, expires);
    assert one.authzs == placed.authzs;
    assert db.nextId !in db.authzs && Names(one.authzs[db.nextId], i);
  }

  lemma GrownTwice(a: Db, b: Db, c: Db, order: Id, i: Identifier, rest: seq<Identifier>, expires: Time)
    requires Fresh(a) && Fresh(b)
    requires Grown(a, b, order, [i], expires) && Grown(b, c, order, rest, expires)
    ensures Grown(a, c, order, [i] + rest, expires)
  {
    forall j | j in [i] + rest
      ensures exists k :: k in c.authzs && k !in a.authzs && Names(c.authzs[k], j)
    {
      if j in rest {
        var k :| k in c.authzs && k !in b.authzs && Names(c.authzs[k], j);
      } else {
        assert j in [i];
        var k :| k in b.authzs && k !in a.authzs && Names(b.authzs[k], j);
        assert k in c.authzs && Names(c.authzs[k], j);
      }
    }
  }

  lemma {:induction false} AddAuthzsGrows(db: Db, order: Id, identifiers: seq<Identifier>, expires: Time)
    requires Fresh(db)
    ensures Grown(db, AddAuthzs(db, order, identifiers, expires), order, identifiers, expires)
    ensures Fresh(AddAuthzs(db, order, identifiers, expires))
    decreases |identifiers|
  {
    if identifiers != [] {
      hide Grown, AddAuthz, Fresh;
      var one := AddAuthz(db, order, identifiers[0], expires);
      AddAuthzGrows(db, order, identifiers[0], expires);
      AddAuthzsGrows(one, order, identifiers[1..], expires);
      GrownTwice(db, one, AddAuthzs(one, order, identifiers[1..], expires), order, identifiers[0], identifiers[1..], expires);
      assert [identifiers[0]] + identifiers[1..] == identifiers;
    }
  }
}
