/**
 Every step of the issuance protocol keeps the invariant. The work is done one
 transaction at a time: what it does to the tables, and what it leaves every
 other task to rely on.
 */
module AcmeInvariant {
  import opened Prelude
  import opened AcmeModel
  import opened AcmeProtocol

  // ----- reading ------------------------------------------------------------------

  /** The readiness check sees every authorization of the order valid. */
  lemma ReadyIsProven(db: Db, o: Id, row: Order, now: Time)
    requires OrderReads(db, o, row, now) == OrderReady && row.status in {OrderPending, OrderProcessing, OrderValid}
    ensures Proven(db, o) && row.status == OrderPending && now < row.expires
    ensures forall a :: a in db.authzs && db.authzs[a].order == o ==> now < db.authzs[a].expires
  {
    assert AuthzsOf(db, o) != {};
    var a :| a in AuthzsOf(db, o);
    forall a | a in db.authzs && db.authzs[a].order == o
      ensures db.authzs[a].status == AuthzValid && now < db.authzs[a].expires
    {
      assert a in AuthzsOf(db, o);
    }
  }

  // ----- frames -------------------------------------------------------------------

  /** Only statuses, certificates of orders, accounts and certificate rows may
      differ, and of these accounts only grow. */
  ghost predicate SameShape(db: Db, db': Db)
  {
    && db.nextId <= db'.nextId
    && db'.orders.Keys == db.orders.Keys && db'.authzs.Keys == db.authzs.Keys && db'.challenges.Keys == db.challenges.Keys
    && (forall a :: a in db.accounts ==> a in db'.accounts && db'.accounts[a] == db.accounts[a])
    && (forall o :: o in db.orders ==>
          && db'.orders[o].account == db.orders[o].account && db'.orders[o].identifiers == db.orders[o].identifiers
          && db'.orders[o].expires == db.orders[o].expires)
    && (forall a :: a in db.authzs ==> db'.authzs[a] == db.authzs[a].(status := db'.authzs[a].status))
    && (forall c :: c in db.challenges ==> db'.challenges[c] == db.challenges[c].(status := db'.challenges[c].status))
  }

  lemma StructureFrame(db: Db, db': Db)
    requires Structure(db) && SameShape(db, db')
    requires forall k :: k in db'.certs ==> k < db'.nextId
    requires forall a :: a in db'.accounts ==> a < db'.nextId
    ensures Structure(db')
  {
    forall o, i | o in db'.orders && i in db'.orders[o].identifiers
      ensures Covered(db', o, i)
    {
      assert Covered(db, o, i);
      var a :| a in db.authzs && db.authzs[a].order == o && Names(db.authzs[a], i);
      assert a in db'.authzs && Names(db'.authzs[a], i);
    }
  }

  lemma StatusesFrame(db: Db, db': Db)
    requires Statuses(db) && db'.authzs == db.authzs && db'.challenges == db.challenges
    requires forall o :: o in db'.orders ==>
               && db'.orders[o].status in {OrderPending, OrderProcessing, OrderValid}
               && (db'.orders[o].status == OrderValid <==> db'.orders[o].certificate != None)
    ensures Statuses(db')
  {
    forall a | a in db'.authzs
      ensures db'.authzs[a].status == AuthzValid <==> HasValidChallenge(db', a)
    {
      assert HasValidChallenge(db', a) == HasValidChallenge(db, a);
    }
  }

  /** The certificate table is untouched; orders that have a certificate stay
      claimed, and claimed orders are proven. */
  lemma CertificatesFrame(db: Db, db': Db)
    requires Certificates(db) && db'.certs == db.certs
    requires forall a :: a in db.accounts ==> a in db'.accounts && db'.accounts[a] == db.accounts[a]
    requires forall o :: o in db.orders ==>
               o in db'.orders && db'.orders[o].account == db.orders[o].account && db'.orders[o].identifiers == db.orders[o].identifiers
    requires forall o :: o in db'.orders && db'.orders[o].certificate != None ==> IssuedFor(db, db'.orders[o].certificate.value, o)
    requires forall k, o :: IssuedFor(db, k, o) ==> o in db'.orders && db'.orders[o].status in {OrderProcessing, OrderValid}
    requires forall o :: o in db'.orders && db'.orders[o].status in {OrderProcessing, OrderValid} ==> Proven(db', o)
    ensures Certificates(db')
  {
    assert forall k, o :: IssuedFor(db', k, o) == IssuedFor(db, k, o);
  }

  /** Tasks other than validators rely only on orders, certificates and proofs. */
  lemma JustifiedFrame(db: Db, db': Db, task: Task)
    requires Justified(db, task)
    requires !task.Triggered? && !Validates(task) ==>
               && task.order in db'.orders
               && db'.orders[task.order].identifiers == db.orders[task.order].identifiers
               && (Owns(task) ==> db'.orders[task.order] == db.orders[task.order])
               && (Owns(task) ==> forall k :: IssuedFor(db', k, task.order) == IssuedFor(db, k, task.order))
               && (task.Checked? ==> Proven(db', task.order))
    requires Validates(task) ==> task.challenge in db'.challenges && db'.challenges[task.challenge] == db.challenges[task.challenge]
    ensures Justified(db', task)
  {
  }

  lemma ProvenFrame(db: Db, db': Db, o: Id)
    requires Proven(db, o)
    requires forall a :: a in db.authzs ==> a in db'.authzs && db'.authzs[a].order == db.authzs[a].order
    requires forall a :: a in db'.authzs && db'.authzs[a].order == o ==> a in db.authzs
    requires forall a :: a in db.authzs && db.authzs[a].status == AuthzValid ==> db'.authzs[a].status == AuthzValid
    ensures Proven(db', o)
  {
    var a :| a in db.authzs && db.authzs[a].order == o;
    assert a in db'.authzs && db'.authzs[a].order == o;
  }

  // ----- new-order -----------------------------------------------------------------

  /** New-order, as one fact about the tables. */
  lemma NewOrderGrows(db: Db, account: Id, identifiers: seq<Identifier>, now: Time)
    requires Structure(db)
    ensures
      var row := Order(account, OrderPending, identifiers, now + ORDER_LIFETIME, None);
      && db.nextId !in db.orders
      && Grown(db.(orders := db.orders[db.nextId := row], nextId := db.nextId + 1),
               CreateOrder(db, account, identifiers, now), db.nextId, identifiers, now + AUTHZ_LIFETIME)
  {
    var row := Order(account, OrderPending, identifiers, now + ORDER_LIFETIME, None);
    AddAuthzsGrows(db.(orders := db.orders[db.nextId := row], nextId := db.nextId + 1),
                   db.nextId, identifiers, now + AUTHZ_LIFETIME);
  }

  /** The same fact with the placing of the row undone. */
  ghost predicate OrderAdded(db: Db, db': Db, id: Id, row: Order)
  {
    && id == db.nextId && id !in db.orders
    && db'.accounts == db.accounts && db'.certs == db.certs && db'.orders == db.orders[id := row] && id < db'.nextId
    && row.status == OrderPending && row.certificate == None
    && (forall a :: a in db.authzs ==> a in db'.authzs && db'.authzs[a] == db.authzs[a])
    && (forall c :: c in db.challenges ==> c in db'.challenges && db'.challenges[c] == db.challenges[c])
    && (forall a :: a in db'.authzs && a !in db.authzs ==>
          && a < db'.nextId && db'.authzs[a].order == id
          && db'.authzs[a].status == AuthzPending && db'.authzs[a].expires == row.expires)
    && (forall i :: i in row.identifiers ==> exists a :: a in db'.authzs && a !in db.authzs && Names(db'.authzs[a], i))
    && (forall c :: c in db'.challenges && c !in db.challenges ==>
          && c < db'.nextId && db'.challenges[c].status == ChallengePending
          && db'.challenges[c].authz in db'.authzs && db'.challenges[c].authz !in db.authzs
          && db'.challenges[c].kind in ChallengeTypesFor(db'.authzs[db'.challenges[c].authz].kind, db'.authzs[db'.challenges[c].authz].wildcard))
  }

  lemma NewOrderAdds(db: Db, account: Id, identifiers: seq<Identifier>, now: Time)
    requires Structure(db)
    ensures OrderAdded(db, CreateOrder(db, account, identifiers, now), db.nextId,
                       Order(account, OrderPending, identifiers, now + ORDER_LIFETIME, None))
  {
    NewOrderGrows(db, account, identifiers, now);
  }

  lemma OrderAddedStructure(db: Db, db': Db, id: Id, row: Order)
    requires Structure(db) && OrderAdded(db, db', id, row) && row.account in db.accounts
    ensures Structure(db')
  {
    forall o, i | o in db'.orders && i in db'.orders[o].identifiers
      ensures Covered(db', o, i)
    {
      if o == id {
        var a :| a in db'.authzs && a !in db.authzs && Names(db'.authzs[a], i);
      } else {
        assert Covered(db, o, i);
      }
    }
  }

  lemma OrderAddedStatuses(db: Db, db': Db, id: Id, row: Order)
    requires Structure(db) && Statuses(db) && OrderAdded(db, db', id, row)
    ensures Statuses(db')
  {
    forall a | a in db'.authzs
      ensures db'.authzs[a].status == AuthzValid <==> HasValidChallenge(db', a)
    {
      if a in db.authzs && HasValidChallenge(db, a) {
        var c :| c in db.challenges && db.challenges[c].authz == a && db.challenges[c].status == ChallengeValid;
        assert c in db'.challenges && db'.challenges[c] == db.challenges[c];
      }
    }
  }

  lemma OrderAddedProven(db: Db, db': Db, id: Id, row: Order, o: Id)
    requires Structure(db) && OrderAdded(db, db', id, row) && o in db.orders && Proven(db, o)
    ensures Proven(db', o)
  {
    ProvenFrame(db, db', o);
  }

  lemma OrderAddedSound(db: Db, db': Db, id: Id, row: Order)
    requires Sound(db) && OrderAdded(db, db', id, row) && row.account in db.accounts
    ensures Sound(db')
  {
    hide Covered, HasValidChallenge, Proven;
    OrderAddedStructure(db, db', id, row);
    OrderAddedStatuses(db, db', id, row);
    OrderAddedCertificates(db, db', id, row);
  }

  lemma OrderAddedCertificates(db: Db, db': Db, id: Id, row: Order)
    requires Structure(db) && Certificates(db) && OrderAdded(db, db', id, row)
    ensures Certificates(db')
  {
    hide Covered, Proven;
    forall o | o in db.orders && Proven(db, o)
      ensures Proven(db', o)
    {
      OrderAddedProven(db, db', id, row, o);
    }
    CertificatesFrame(db, db');
  }

  lemma OrderAddedJustified(db: Db, db': Db, id: Id, row: Order, task: Task)
    requires Sound(db) && Justified(db, task) && OrderAdded(db, db', id, row)
    ensures Justified(db', task)
  {
    hide Covered, HasValidChallenge, Certificates, Statuses;
    if task.Checked? {
      OrderAddedProven(db, db', id, row, task.order);
    }
    JustifiedFrame(db, db', task);
  }

  // ----- challenges ------------------------------------------------------------------

  /** A transaction that rewrites the status of challenge `c` and, at most, makes
      authorizations valid. */
  ghost predicate ProofMoves(db: Db, db': Db, c: Id)
  {
    && db' == db.(authzs := db'.authzs, challenges := db'.challenges)
    && db'.authzs.Keys == db.authzs.Keys && db'.challenges.Keys == db.challenges.Keys
    && (forall a :: a in db.authzs ==> db'.authzs[a] == db.authzs[a] || db'.authzs[a] == db.authzs[a].(status := AuthzValid))
    && (forall d :: d in db.challenges ==> db'.challenges[d] == db.challenges[d].(status := db'.challenges[d].status))
    && (forall d :: d in db.challenges && d != c ==> db'.challenges[d] == db.challenges[d])
  }

  lemma ProofMovesProven(db: Db, db': Db, c: Id, o: Id)
    requires ProofMoves(db, db', c) && Proven(db, o)
    ensures Proven(db', o)
  {
    ProvenFrame(db, db', o);
  }

  lemma ProofMovesSound(db: Db, db': Db, c: Id)
    requires Sound(db) && ProofMoves(db, db', c) && Statuses(db')
    ensures Sound(db')
  {
    hide Covered, HasValidChallenge, Proven;
    StructureFrame(db, db');
    forall o | Proven(db, o)
      ensures Proven(db', o)
    {
      ProofMovesProven(db, db', c, o);
    }
    CertificatesFrame(db, db');
  }

  lemma ChallengeRow(db: Db, c: Id)
    requires Sound(db) && c in db.challenges
    ensures Statuses(db) && db.challenges[c].authz in db.authzs
  {
  }

  /** One challenge is rewritten, not out of or into valid. */
  lemma ChallengeMoves(db: Db, c: Id, status: ChallengeStatus)
    requires Statuses(db) && c in db.challenges && db.challenges[c].status != ChallengeValid && status != ChallengeValid
    ensures
      var db' := db.(challenges := db.challenges[c := db.challenges[c].(status := status)]);
      ProofMoves(db, db', c) && Statuses(db')
  {
    var db' := db.(challenges := db.challenges[c := db.challenges[c].(status := status)]);
    forall a | a in db'.authzs
      ensures HasValidChallenge(db', a) == HasValidChallenge(db, a)
    {
      if HasValidChallenge(db, a) {
        var d :| d in db.challenges && db.challenges[d].authz == a && db.challenges[d].status == ChallengeValid;
        assert db'.challenges[d] == db.challenges[d];
      }
    }
  }

  lemma SuccessMoves(db: Db, c: Id, a: Id)
    requires Statuses(db) && c in db.challenges && db.challenges[c].authz == a && a in db.authzs
    ensures ProofMoves(db, RecordSuccess(db, c, a), c) && Statuses(RecordSuccess(db, c, a))
  {
    var db' := RecordSuccess(db, c, a);
    assert db'.challenges[c].status == ChallengeValid;
    forall b | b in db'.authzs
      ensures db'.authzs[b].status == AuthzValid <==> HasValidChallenge(db', b)
    {
      if HasValidChallenge(db, b) {
        var d :| d in db.challenges && db.challenges[d].authz == b && db.challenges[d].status == ChallengeValid;
        assert db'.challenges[d].status == ChallengeValid;
      }
    }
  }

  /** Rewriting one challenge disturbs no task but its own validator. */
  lemma ProofMovesJustified(db: Db, db': Db, c: Id, task: Task)
    requires ProofMoves(db, db', c) && Justified(db, task) && (Validates(task) ==> task.challenge != c)
    ensures Justified(db', task)
  {
    if task.Checked? {
      ProofMovesProven(db, db', c, task.order);
    }
    JustifiedFrame(db, db', task);
  }

  // ----- orders and certificates -------------------------------------------------------

  /** One order row changes its status and, perhaps, gets its certificate. */
  function WithOrder(db: Db, o: Id, status: OrderStatus, certificate: Option<Id>): Db
    requires o in db.orders
  {
    db.(orders := db.orders[o := db.orders[o].(status := status, certificate := certificate)])
  }

  lemma OrderMoves(db: Db, o: Id, status: OrderStatus, certificate: Option<Id>)
    requires Sound(db) && o in db.orders && Proven(db, o)
    requires status in {OrderPending, OrderProcessing, OrderValid}
    requires status == OrderValid <==> certificate != None
    requires certificate != None ==> IssuedFor(db, certificate.value, o)
    requires status == OrderPending ==> forall k :: !IssuedFor(db, k, o)
    ensures Sound(WithOrder(db, o, status, certificate))
  {
    hide Covered, Proven, HasValidChallenge;
    var db' := WithOrder(db, o, status, certificate);
    StructureFrame(db, db');
    StatusesFrame(db, db');
    OrderMovesCertificates(db, o, status, certificate);
  }

  lemma OrderMovesCertificates(db: Db, o: Id, status: OrderStatus, certificate: Option<Id>)
    requires Certificates(db) && o in db.orders && Proven(db, o)
    requires certificate != None ==> IssuedFor(db, certificate.value, o)
    requires status in {OrderPending, OrderProcessing, OrderValid}
    requires status == OrderPending ==> forall k :: !IssuedFor(db, k, o)
    ensures Certificates(WithOrder(db, o, status, certificate))
  {
    var db' := WithOrder(db, o, status, certificate);
    forall p | Proven(db, p)
      ensures Proven(db', p)
    {
      ProvenFrame(db, db', p);
    }
    hide Proven;
    CertificatesFrame(db, db');
  }

  /** ... and disturbs no task but the order's owner. */
  lemma OrderMovesJustified(db: Db, o: Id, status: OrderStatus, certificate: Option<Id>, task: Task)
    requires Justified(db, task) && o in db.orders && (Owns(task) ==> task.order != o)
    ensures Justified(WithOrder(db, o, status, certificate), task)
  {
    var db' := WithOrder(db, o, status, certificate);
    if task.Checked? {
      ProvenFrame(db, db', task.order);
    }
    JustifiedFrame(db, db', task);
  }

  function WithCertificate(db: Db, certificate: Certificate): Db
  {
    db.(certs := db.certs[db.nextId := certificate], nextId := db.nextId + 1)
  }

  /** A certificate row for an order that has none yet, saying what the order
      and its account say; or one from another front door. */
  ghost predicate Storable(db: Db, certificate: Certificate)
  {
    certificate.source.Acme? ==>
      var o := certificate.source.order;
      && Held(db, o)
      && db.orders[o].account in db.accounts
      && certificate.issuer == db.accounts[db.orders[o].account].issuer
      && certificate.sans == SansOf(db.orders[o].identifiers)
      && forall k :: !IssuedFor(db, k, o)
  }

  lemma StoreCertificates(db: Db, certificate: Certificate)
    requires Structure(db) && Certificates(db) && Storable(db, certificate)
    ensures Certificates(WithCertificate(db, certificate))
  {
    hide Covered;
    var db' := WithCertificate(db, certificate);
    assert db.nextId !in db.certs;
    assert forall k, o :: IssuedFor(db', k, o) <==> IssuedFor(db, k, o) || (k == db.nextId && certificate.source == Acme(o));
    forall o | Proven(db, o)
      ensures Proven(db', o)
    {
      ProvenFrame(db, db', o);
    }
  }

  lemma FreshCertificate(db: Db)
    requires Sound(db)
    ensures db.nextId !in db.certs
  {
  }

  lemma StoreSound(db: Db, certificate: Certificate)
    requires Sound(db) && Storable(db, certificate)
    ensures Sound(WithCertificate(db, certificate))
  {
    StructureFrame(db, WithCertificate(db, certificate));
    StatusesFrame(db, WithCertificate(db, certificate));
    StoreCertificates(db, certificate);
  }

  lemma StoreJustified(db: Db, certificate: Certificate, task: Task)
    requires Sound(db) && Justified(db, task)
    requires Owns(task) ==> certificate.source != Acme(task.order)
    ensures Justified(WithCertificate(db, certificate), task)
  {
    hide Sound;
    var db' := WithCertificate(db, certificate);
    FreshCertificate(db);
    if task.Checked? {
      ProvenFrame(db, db', task.order);
    }
    JustifiedFrame(db, db', task);
  }

  function WithAccount(db: Db, account: Account): Db
  {
    db.(accounts := db.accounts[db.nextId := account], nextId := db.nextId + 1)
  }

  lemma RegisterSound(db: Db, account: Account)
    requires Sound(db)
    ensures Sound(WithAccount(db, account))
  {
    hide Covered, HasValidChallenge;
    var db' := WithAccount(db, account);
    StructureFrame(db, db');
    StatusesFrame(db, db');
    forall o | Proven(db, o)
      ensures Proven(db', o)
    {
      ProvenFrame(db, db', o);
    }
    CertificatesFrame(db, db');
  }

  lemma RegisterJustified(db: Db, account: Account, task: Task)
    requires Justified(db, task)
    ensures Justified(WithAccount(db, account), task)
  {
    if task.Checked? {
      ProvenFrame(db, WithAccount(db, account), task.order);
    }
    JustifiedFrame(db, WithAccount(db, account), task);
  }

  // ----- one step of the system ------------------------------------------------------

  /** A task moves to its next point over tables the others can still rely on. */
  lemma TaskMoves(s: System, db': Db, t: Id, task: Task)
    requires Inv(s) && Sound(db') && Justified(db', task)
    requires forall u :: u in s.tasks && u != t ==> Justified(db', s.tasks[u]) && Compatible(task, s.tasks[u])
    ensures Inv(System(db', s.tasks[t := task], s.now))
  {
    hide Sound, Justified;
  }

  lemma TaskEnds(s: System, db': Db, t: Id)
    requires Inv(s) && Sound(db')
    requires forall u :: u in s.tasks && u != t ==> Justified(db', s.tasks[u])
    ensures Inv(System(db', s.tasks - {t}, s.now))
  {
    hide Sound, Justified, Compatible;
  }

  lemma OwnerHolds(db: Db, task: Task)
    requires Justified(db, task)
    ensures Owns(task) ==> Held(db, task.order)
    ensures Validates(task) ==> task.challenge in db.challenges && db.challenges[task.challenge].status == ChallengeProcessing
  {
  }

  lemma NewOrderStep(s: System, account: Id, identifiers: seq<Identifier>)
    requires Inv(s) && account in s.db.accounts
    ensures Inv(s.(db := CreateOrder(s.db, account, identifiers, s.now)))
  {
    var db' := CreateOrder(s.db, account, identifiers, s.now);
    var row := Order(account, OrderPending, identifiers, s.now + ORDER_LIFETIME, None);
    NewOrderAdds(s.db, account, identifiers, s.now);
    OrderAddedSound(s.db, db', s.db.nextId, row);
    forall t | t in s.tasks
      ensures Justified(db', s.tasks[t])
    {
      OrderAddedJustified(s.db, db', s.db.nextId, row, s.tasks[t]);
    }
  }

  lemma RegisterStep(s: System, account: Account)
    requires Inv(s)
    ensures Inv(s.(db := WithAccount(s.db, account)))
  {
    RegisterSound(s.db, account);
    forall t | t in s.tasks
      ensures Justified(WithAccount(s.db, account), s.tasks[t])
    {
      RegisterJustified(s.db, account, s.tasks[t]);
    }
  }

  lemma IssueElsewhereStep(s: System, certificate: Certificate)
    requires Inv(s) && certificate.source.OtherDoor?
    ensures Inv(s.(db := WithCertificate(s.db, certificate)))
  {
    StoreSound(s.db, certificate);
    forall t | t in s.tasks
      ensures Justified(WithCertificate(s.db, certificate), s.tasks[t])
    {
      StoreJustified(s.db, certificate, s.tasks[t]);
    }
  }

  lemma EnvironmentStep(s: System, e: Event, s': System)
    requires Inv(s) && Fire(s, e) == Some(s')
    requires e.Tick? || e.Register? || e.NewOrder? || e.IssueElsewhere? || e.Arrive? || e.Trigger? || e.Crash?
    ensures Inv(s')
  {
    hide Sound, CreateOrder;
    match e
    case Register(issuer) => RegisterStep(s, Account(issuer));
    case NewOrder(account, identifiers) => NewOrderStep(s, account, identifiers);
    case IssueElsewhere(issuer, sans) => IssueElsewhereStep(s, Certificate(issuer, sans, OtherDoor));
    case Arrive(t, order) => TaskMoves(s, s.db, t, Arrived(order));
    case Trigger(t, challenge) =>
      if s' != s {
        TaskMoves(s, s.db, t, Triggered(challenge));
      }
    case Crash(t) => TaskEnds(s, s.db, t);
    case Tick(_) =>
  }

  /** Task `t` rewrites order `o`, which is its own or which nobody owns. */
  lemma OrderStep(s: System, t: Id, o: Id, status: OrderStatus, certificate: Option<Id>)
    requires Inv(s) && t in s.tasks && o in s.db.orders && Proven(s.db, o)
    requires (Owns(s.tasks[t]) && s.tasks[t].order == o) || s.db.orders[o].status != OrderProcessing
    requires status in {OrderPending, OrderProcessing, OrderValid}
    requires status == OrderValid <==> certificate != None
    requires certificate != None ==> IssuedFor(s.db, certificate.value, o)
    requires status == OrderPending ==> forall k :: !IssuedFor(s.db, k, o)
    ensures Sound(WithOrder(s.db, o, status, certificate))
    ensures forall u :: u in s.tasks && u != t ==>
              Justified(WithOrder(s.db, o, status, certificate), s.tasks[u]) && (Owns(s.tasks[u]) ==> s.tasks[u].order != o)
  {
    hide Sound, Justified, Proven;
    OrderMoves(s.db, o, status, certificate);
    forall u | u in s.tasks && u != t
      ensures Justified(WithOrder(s.db, o, status, certificate), s.tasks[u]) && (Owns(s.tasks[u]) ==> s.tasks[u].order != o)
    {
      assert Justified(s.db, s.tasks[u]);
      OwnerHolds(s.db, s.tasks[u]);
      assert Compatible(s.tasks[t], s.tasks[u]);
      OrderMovesJustified(s.db, o, status, certificate, s.tasks[u]);
    }
  }

  lemma ClaimStep(s: System, t: Id)
    requires Inv(s) && t in s.tasks && s.tasks[t].Checked? && ClaimOrder(s.db, s.tasks[t].order).1
    ensures Inv(s.(db := ClaimOrder(s.db, s.tasks[t].order).0, tasks := s.tasks[t := Claimed(s.tasks[t].order)]))
  {
    hide Sound, Proven;
    var o := s.tasks[t].order;
    var db' := WithOrder(s.db, o, OrderProcessing, None);
    StoredStatus(s.db, o);
    assert Justified(s.db, s.tasks[t]);
    assert db' == ClaimOrder(s.db, o).0;
    OrderStep(s, t, o, OrderProcessing, None);
    assert forall k :: IssuedFor(db', k, o) == IssuedFor(s.db, k, o);
    TaskMoves(s, db', t, Claimed(o));
  }

  lemma SignStep(s: System, t: Id)
    requires Inv(s) && t in s.tasks && s.tasks[t].Claimed? && s.db.orders[s.tasks[t].order].account in s.db.accounts
    ensures Inv(s.(db := StoreAcmeCertificate(s.db, s.tasks[t].order), tasks := s.tasks[t := Signed(s.tasks[t].order, s.db.nextId)]))
  {
    hide Sound, Proven;
    var o := s.tasks[t].order;
    assert Justified(s.db, s.tasks[t]);
    assert s.db.nextId !in s.db.certs by {
      FreshCertificate(s.db);
    }
    var row := Certificate(s.db.accounts[s.db.orders[o].account].issuer, SansOf(s.db.orders[o].identifiers), Acme(o));
    StoreSound(s.db, row);
    forall u | u in s.tasks && u != t
      ensures Justified(WithCertificate(s.db, row), s.tasks[u]) && Compatible(Signed(o, s.db.nextId), s.tasks[u])
    {
      assert Compatible(s.tasks[t], s.tasks[u]);
      StoreJustified(s.db, row, s.tasks[u]);
    }
    TaskMoves(s, WithCertificate(s.db, row), t, Signed(o, s.db.nextId));
  }

  /** The steps a finalize request takes without writing an order. */
  lemma ReadStep(s: System, e: Event, s': System)
    requires Inv(s) && Fire(s, e) == Some(s') && (e.LoadOrder? || e.CheckReady?)
    ensures Inv(s')
  {
    hide Sound;
    var t, task := e.task, s.tasks[e.task];
    assert Justified(s.db, task);
    if t !in s'.tasks {
      TaskEnds(s, s.db, t);
    } else {
      if e.LoadOrder? {
        StoredStatus(s.db, task.order);
      } else {
        ReadyIsProven(s.db, task.order, task.row, s.now);
      }
      TaskMoves(s, s.db, t, s'.tasks[t]);
    }
  }

  lemma StoredStatus(db: Db, o: Id)
    requires Sound(db) && o in db.orders
    ensures db.orders[o].status in {OrderPending, OrderProcessing, OrderValid}
    ensures Held(db, o) ==> Proven(db, o)
    ensures db.orders[o].status == OrderPending ==> forall k :: !IssuedFor(db, k, o)
  {
  }

  lemma SignFailStep(s: System, t: Id)
    requires Inv(s) && t in s.tasks && s.tasks[t].Claimed?
    ensures Inv(s.(tasks := s.tasks[t := SignFailed(s.tasks[t].order)]))
  {
    hide Sound;
    assert Justified(s.db, s.tasks[t]);
    forall u | u in s.tasks && u != t
      ensures Compatible(SignFailed(s.tasks[t].order), s.tasks[u])
    {
      assert Compatible(s.tasks[t], s.tasks[u]);
    }
    TaskMoves(s, s.db, t, SignFailed(s.tasks[t].order));
  }

  /** The owner of an order gives it back or completes it, and is done. */
  lemma OwnerEndsStep(s: System, t: Id, status: OrderStatus, certificate: Option<Id>)
    requires Inv(s) && t in s.tasks
    requires
      var task := s.tasks[t];
      || (task.SignFailed? && status == OrderPending && certificate == None)
      || (task.Signed? && status == OrderValid && certificate == Some(task.certificate))
    ensures s.tasks[t].order in s.db.orders
    ensures Inv(s.(db := WithOrder(s.db, s.tasks[t].order, status, certificate), tasks := s.tasks - {t}))
  {
    hide Sound, Proven;
    assert Justified(s.db, s.tasks[t]);
    StoredStatus(s.db, s.tasks[t].order);
    OrderStep(s, t, s.tasks[t].order, status, certificate);
    TaskEnds(s, WithOrder(s.db, s.tasks[t].order, status, certificate), t);
  }

  lemma FinalizeStep(s: System, e: Event, s': System)
    requires Inv(s) && Fire(s, e) == Some(s')
    requires e.Claim? || e.Sign? || e.Release? || e.Attach?
    ensures Inv(s')
  {
    hide Sound, Justified, Compatible;
    var t := e.task;
    match e
    case Claim(_) =>
      if t in s'.tasks {
        ClaimStep(s, t);
      } else {
        TaskEnds(s, s.db, t);
      }
    case Sign(_, signable) =>
      if signable {
        SignStep(s, t);
      } else {
        SignFailStep(s, t);
      }
    case Release(_) =>
      OwnerEndsStep(s, t, OrderPending, None);
      NoCertificateYet(s, t);
    case Attach(_) =>
      OwnerEndsStep(s, t, OrderValid, Some(s.tasks[t].certificate));
  }

  lemma NoCertificateYet(s: System, t: Id)
    requires Inv(s) && t in s.tasks && s.tasks[t].SignFailed?
    ensures s.tasks[t].order in s.db.orders && s.db.orders[s.tasks[t].order].certificate == None
  {
    assert Justified(s.db, s.tasks[t]);
  }

  /** Task `t` rewrites challenge `c`, which it validates or which nobody does. */
  lemma ProofStep(s: System, db': Db, t: Id, c: Id)
    requires Inv(s) && t in s.tasks && ProofMoves(s.db, db', c) && Statuses(db') && c in s.db.challenges
    requires (Validates(s.tasks[t]) && s.tasks[t].challenge == c) || s.db.challenges[c].status != ChallengeProcessing
    ensures Sound(db')
    ensures forall u :: u in s.tasks && u != t ==>
              Justified(db', s.tasks[u]) && (Validates(s.tasks[u]) ==> s.tasks[u].challenge != c)
  {
    hide Sound, Justified, Statuses, ProofMoves;
    ProofMovesSound(s.db, db', c);
    forall u | u in s.tasks && u != t
      ensures Justified(db', s.tasks[u]) && (Validates(s.tasks[u]) ==> s.tasks[u].challenge != c)
    {
      assert Justified(s.db, s.tasks[u]);
      OwnerHolds(s.db, s.tasks[u]);
      assert Compatible(s.tasks[t], s.tasks[u]);
      ProofMovesJustified(s.db, db', c, s.tasks[u]);
    }
  }

  /** The winning trigger hands its challenge to a validator. */
  lemma BeginStep(s: System, t: Id)
    requires Inv(s) && t in s.tasks && s.tasks[t].Triggered? && BeginChallenge(s.db, s.tasks[t].challenge).1
    ensures Inv(s.(db := BeginChallenge(s.db, s.tasks[t].challenge).0, tasks := s.tasks[t := Scheduled(s.tasks[t].challenge)]))
  {
    hide Sound, Statuses, ProofMoves;
    var c, db' := s.tasks[t].challenge, BeginChallenge(s.db, s.tasks[t].challenge).0;
    ChallengeRow(s.db, c);
    ChallengeMoves(s.db, c, ChallengeProcessing);
    ProofStep(s, db', t, c);
    TaskMoves(s, db', t, Scheduled(c));
  }

  lemma LoadChallengeStep(s: System, t: Id)
    requires Inv(s) && t in s.tasks && s.tasks[t].Scheduled? && s.tasks[t].challenge in s.db.challenges
    ensures Inv(s.(tasks := s.tasks[t := Running(s.tasks[t].challenge, s.db.challenges[s.tasks[t].challenge].authz)]))
  {
    hide Sound;
    var c := s.tasks[t].challenge;
    assert Justified(s.db, s.tasks[t]);
    forall u | u in s.tasks && u != t
      ensures Compatible(Running(c, s.db.challenges[c].authz), s.tasks[u])
    {
      assert Compatible(s.tasks[t], s.tasks[u]);
    }
    TaskMoves(s, s.db, t, Running(c, s.db.challenges[c].authz));
  }

  lemma VerdictStep(s: System, t: Id, proof: bool)
    requires Inv(s) && t in s.tasks && s.tasks[t].Running?
    ensures s.tasks[t].challenge in s.db.challenges && s.tasks[t].authz in s.db.authzs
    ensures
      var db' := if proof then RecordSuccess(s.db, s.tasks[t].challenge, s.tasks[t].authz) else RecordFailure(s.db, s.tasks[t].challenge);
      Inv(s.(db := db', tasks := s.tasks - {t}))
  {
    hide Sound, Statuses, ProofMoves;
    var c := s.tasks[t].challenge;
    assert Justified(s.db, s.tasks[t]);
    ChallengeRow(s.db, c);
    var db' := if proof then RecordSuccess(s.db, c, s.tasks[t].authz) else RecordFailure(s.db, c);
    if proof {
      SuccessMoves(s.db, c, s.tasks[t].authz);
    } else {
      ChallengeMoves(s.db, c, ChallengeInvalid);
    }
    ProofStep(s, db', t, c);
    TaskEnds(s, db', t);
  }

  lemma ValidationStep(s: System, e: Event, s': System)
    requires Inv(s) && Fire(s, e) == Some(s')
    requires e.Begin? || e.LoadChallenge? || e.Succeed? || e.Fail?
    ensures Inv(s')
  {
    hide Sound, Justified, Compatible;
    var t := e.task;
    match e
    case Begin(_) =>
      if t in s'.tasks {
        BeginStep(s, t);
      } else {
        TaskEnds(s, s.db, t);
      }
    case LoadChallenge(_) =>
      if t in s'.tasks {
        LoadChallengeStep(s, t);
      } else {
        TaskEnds(s, s.db, t);
      }
    case Succeed(_) => VerdictStep(s, t, true);
    case Fail(_) => VerdictStep(s, t, false);
  }

  /** The invariant holds at the start, and every step keeps it. */
  lemma InvariantIsInductive(s: System, e: Event, s': System)
    ensures Init(s) ==> Inv(s)
    ensures Inv(s) && Fire(s, e) == Some(s') ==> Inv(s')
  {
    if Inv(s) && Fire(s, e) == Some(s') {
      hide Inv, Fire;
      if e.LoadOrder? || e.CheckReady? {
        ReadStep(s, e, s');
      } else if e.Claim? || e.Sign? || e.Release? || e.Attach? {
        FinalizeStep(s, e, s');
      } else if e.Begin? || e.LoadChallenge? || e.Succeed? || e.Fail? {
        ValidationStep(s, e, s');
      } else {
        EnvironmentStep(s, e, s');
      }
    }
  }

  lemma {:induction false} RunKeepsInvariant(r: seq<System>, i: nat)
    requires Run(r) && i < |r|
    ensures Inv(r[i])
  {
    if i == 0 {
      InvariantIsInductive(r[0], Tick(0), r[0]);
    } else {
      RunKeepsInvariant(r, i - 1);
      assert Next(r[i - 1], r[i]);
      var e :| Fire(r[i - 1], e) == Some(r[i]);
      InvariantIsInductive(r[i - 1], e, r[i]);
    }
  }
}
