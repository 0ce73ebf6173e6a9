/** The few shapes a step's effect on the tables can have. */
module AcmeEffects {
  import opened Prelude
  import opened AcmeModel
  import opened AcmeProtocol
  import opened AcmeInvariant

  datatype Effect =
    | Nothing
    | Placed(order: Order)
    | Opened(account: Account)
    | Stored(row: Certificate)
    | Rewrote(target: Id, status: OrderStatus, certificate: Option<Id>)
    | Moved(challenge: Id, outcome: ChallengeStatus)

  ghost predicate Has(db: Db, db': Db, effect: Effect)
  {
    match effect
    case Nothing => db' == db
    case Placed(row) => OrderAdded(db, db', db.nextId, row)
    case Opened(account) => db.nextId !in db.accounts && db' == WithAccount(db, account)
    case Stored(certificate) => db.nextId !in db.certs && db' == WithCertificate(db, certificate)
    case Rewrote(o, status, certificate) =>
      && o in db.orders && db' == WithOrder(db, o, status, certificate)
      && db.orders[o].certificate == None
      && (status == OrderValid <==> certificate != None)
      && ((db.orders[o].status == OrderPending && status == OrderProcessing)
          || (db.orders[o].status == OrderProcessing && status in {OrderPending, OrderValid}))
    case Moved(c, status) =>
      && ProofMoves(db, db', c)
      && c in db.challenges && db'.challenges[c].status == status
      && ((db.challenges[c].status == ChallengePending && status == ChallengeProcessing)
          || (db.challenges[c].status == ChallengeProcessing && status in {ChallengeValid, ChallengeInvalid}))
  }

  /** Ownership and validation are taken up and laid down only by the steps that
      write the order or the challenge in question, or by a crash. */
  ghost predicate HandsOver(s: System, s': System, effect: Effect, crash: bool)
  {
    && (forall t :: t in s'.tasks && Owns(s'.tasks[t]) ==>
          || (t in s.tasks && Owns(s.tasks[t]) && s.tasks[t].order == s'.tasks[t].order)
          || effect == Rewrote(s'.tasks[t].order, OrderProcessing, None))
    && (effect.Rewrote? && effect.status != OrderProcessing ==> Owned(s, effect.target))
    && (effect.Rewrote? && effect.status == OrderProcessing ==> Owned(s', effect.target))
    && (effect.Stored? && effect.row.source.Acme? ==> Owned(s, effect.row.source.order))
    && (effect.Moved? && effect.outcome == ChallengeProcessing ==> Validated(s', effect.challenge))
    && (!crash ==> forall t :: t in s.tasks && Owns(s.tasks[t]) ==>
          || Owned(s', s.tasks[t].order)
          || (effect.Rewrote? && effect.target == s.tasks[t].order && effect.status != OrderProcessing))
    && (!crash ==> forall t :: t in s.tasks && Validates(s.tasks[t]) ==>
          || Validated(s', s.tasks[t].challenge)
          || (effect.Moved? && effect.challenge == s.tasks[t].challenge && effect.outcome != ChallengeProcessing))
  }

  ghost predicate Owned(s: System, o: Id)
  {
    exists t :: t in s.tasks && Owns(s.tasks[t]) && s.tasks[t].order == o
  }

  ghost predicate Validated(s: System, c: Id)
  {
    exists t :: t in s.tasks && Validates(s.tasks[t]) && s.tasks[t].challenge == c
  }

  lemma TaskKept(s: System, s': System, t: Id)
    requires t in s'.tasks
    ensures Owns(s'.tasks[t]) ==> Owned(s', s'.tasks[t].order)
    ensures Validates(s'.tasks[t]) ==> Validated(s', s'.tasks[t].challenge)
  {
  }

  /** A step that leaves every other task alone. */
  ghost predicate OnlyTask(s: System, s': System, t: Id)
  {
    forall u :: u != t ==> (u in s.tasks <==> u in s'.tasks) && (u in s.tasks ==> s'.tasks[u] == s.tasks[u])
  }

  /** The hand-over of one task is the hand-over of the system. */
  lemma HandOver(s: System, s': System, t: Id, effect: Effect, crash: bool)
    requires OnlyTask(s, s', t)
    requires t in s'.tasks && Owns(s'.tasks[t]) ==>
               || (t in s.tasks && Owns(s.tasks[t]) && s.tasks[t].order == s'.tasks[t].order)
               || effect == Rewrote(s'.tasks[t].order, OrderProcessing, None)
    requires effect.Rewrote? && effect.status != OrderProcessing ==> t in s.tasks && Owns(s.tasks[t]) && s.tasks[t].order == effect.target
    requires effect.Rewrote? && effect.status == OrderProcessing ==> t in s'.tasks && Owns(s'.tasks[t]) && s'.tasks[t].order == effect.target
    requires effect.Stored? && effect.row.source.Acme? ==>
               t in s.tasks && Owns(s.tasks[t]) && s.tasks[t].order == effect.row.source.order
    requires effect.Moved? && effect.outcome == ChallengeProcessing ==>
               t in s'.tasks && Validates(s'.tasks[t]) && s'.tasks[t].challenge == effect.challenge
    requires !crash && t in s.tasks && Owns(s.tasks[t]) ==>
               || (t in s'.tasks && Owns(s'.tasks[t]) && s'.tasks[t].order == s.tasks[t].order)
               || (effect.Rewrote? && effect.target == s.tasks[t].order && effect.status != OrderProcessing)
    requires !crash && t in s.tasks && Validates(s.tasks[t]) ==>
               || (t in s'.tasks && Validates(s'.tasks[t]) && s'.tasks[t].challenge == s.tasks[t].challenge)
               || (effect.Moved? && effect.challenge == s.tasks[t].challenge && effect.outcome != ChallengeProcessing)
    ensures HandsOver(s, s', effect, crash)
  {
    forall u | u in s'.tasks
      ensures Owns(s'.tasks[u]) ==> Owned(s', s'.tasks[u].order)
      ensures Validates(s'.tasks[u]) ==> Validated(s', s'.tasks[u].challenge)
    {
      TaskKept(s, s', u);
    }
    forall u | u in s.tasks
      ensures Owns(s.tasks[u]) ==> Owned(s, s.tasks[u].order)
    {
      TaskKept(s, s, u);
    }
  }

  lemma FreshIds(db: Db)
    requires Structure(db)
    ensures db.nextId !in db.accounts && db.nextId !in db.certs
  {
  }

  /** Rows that come from outside the two protocols. */
  lemma AdditionEffect(s: System, e: Event, s': System) returns (effect: Effect)
    requires Inv(s) && Fire(s, e) == Some(s')
    requires e.Register? || e.NewOrder? || e.IssueElsewhere?
    ensures Has(s.db, s'.db, effect) && HandsOver(s, s', effect, false)
    ensures !effect.Rewrote?
  {
    hide CreateOrder, Structure, Statuses, Certificates, Justified, Compatible, HandsOver;
    FreshIds(s.db);
    match e {
      case Register(issuer) =>
        effect := Opened(Account(issuer));
      case NewOrder(account, identifiers) =>
        NewOrderAdds(s.db, account, identifiers, s.now);
        effect := Placed(Order(account, OrderPending, identifiers, s.now + ORDER_LIFETIME, None));
      case IssueElsewhere(issuer, sans) =>
        effect := Stored(Certificate(issuer, sans, OtherDoor));
    }
    HandOver(s, s', 0, effect, false);
  }

  lemma QuietEffect(s: System, e: Event, s': System)
    requires Inv(s) && Fire(s, e) == Some(s')
    requires e.Tick? || e.Arrive? || e.Trigger? || e.Crash?
    ensures Has(s.db, s'.db, Nothing) && HandsOver(s, s', Nothing, e.Crash?)
  {
    hide Structure, Statuses, Certificates, Justified, Compatible, HandsOver;
    match e
    case Arrive(t, _) => HandOver(s, s', t, Nothing, false);
    case Trigger(t, _) => HandOver(s, s', t, Nothing, false);
    case Crash(t) => HandOver(s, s', t, Nothing, true);
    case Tick(_) => HandOver(s, s', 0, Nothing, false);
  }

  lemma ReadEffect(s: System, e: Event, s': System)
    requires Inv(s) && Fire(s, e) == Some(s') && (e.LoadOrder? || e.CheckReady? || e.LoadChallenge?)
    ensures Has(s.db, s'.db, Nothing) && HandsOver(s, s', Nothing, false)
  {
    hide Sound, Compatible, OrderReads;
    assert Justified(s.db, s.tasks[e.task]);
    HandOver(s, s', e.task, Nothing, false);
  }

  lemma ClaimEffect(s: System, e: Event, s': System) returns (effect: Effect)
    requires Inv(s) && Fire(s, e) == Some(s') && e.Claim?
    ensures Has(s.db, s'.db, effect) && HandsOver(s, s', effect, false)
    ensures effect.Rewrote? ==> effect.status == OrderProcessing && e.task in s.tasks && s.tasks[e.task] == Checked(effect.target)
  {
    hide Sound, Proven, Compatible, HandsOver;
    var t, o := e.task, s.tasks[e.task].order;
    assert Justified(s.db, s.tasks[t]);
    StoredStatus(s.db, o);
    effect := if t in s'.tasks then Rewrote(o, OrderProcessing, None) else Nothing;
    HandOver(s, s', t, effect, false);
  }

  lemma SignEffect(s: System, e: Event, s': System) returns (effect: Effect)
    requires Inv(s) && Fire(s, e) == Some(s') && e.Sign?
    ensures Has(s.db, s'.db, effect) && HandsOver(s, s', effect, false)
    ensures !effect.Rewrote?
  {
    hide Sound, Proven, Justified, Compatible, HandsOver, IssuedFor;
    var t, o := e.task, s.tasks[e.task].order;
    FreshCertificate(s.db);
    effect := if e.signable then Stored(Certificate(s.db.accounts[s.db.orders[o].account].issuer, SansOf(s.db.orders[o].identifiers), Acme(o)))
              else Nothing;
    HandOver(s, s', t, effect, false);
  }

  lemma EndEffect(s: System, e: Event, s': System) returns (effect: Effect)
    requires Inv(s) && Fire(s, e) == Some(s') && (e.Release? || e.Attach?)
    ensures Has(s.db, s'.db, effect) && HandsOver(s, s', effect, false)
    ensures effect.Rewrote? && effect.status == if e.Release? then OrderPending else OrderValid
    ensures e.Release? ==> e.task in s.tasks && s.tasks[e.task] == SignFailed(effect.target)
  {
    hide Sound, Proven, Compatible, HandsOver, IssuedFor;
    var t, task := e.task, s.tasks[e.task];
    assert Justified(s.db, task);
    effect := if e.Release? then Rewrote(task.order, OrderPending, None) else Rewrote(task.order, OrderValid, Some(task.certificate));
    HandOver(s, s', t, effect, false);
  }

  lemma BeginEffect(s: System, e: Event, s': System) returns (effect: Effect)
    requires Inv(s) && Fire(s, e) == Some(s') && e.Begin?
    ensures Has(s.db, s'.db, effect) && HandsOver(s, s', effect, false)
    ensures !effect.Rewrote?
  {
    hide Sound, Justified, Compatible, HandsOver;
    effect := if e.task in s'.tasks then Moved(s.tasks[e.task].challenge, ChallengeProcessing) else Nothing;
    HandOver(s, s', e.task, effect, false);
  }

  lemma VerdictEffect(s: System, e: Event, s': System) returns (effect: Effect)
    requires Inv(s) && Fire(s, e) == Some(s') && (e.Succeed? || e.Fail?)
    ensures Has(s.db, s'.db, effect) && HandsOver(s, s', effect, false)
    ensures !effect.Rewrote?
  {
    hide Sound, Compatible, HandsOver;
    assert Justified(s.db, s.tasks[e.task]);
    effect := Moved(s.tasks[e.task].challenge, if e.Succeed? then ChallengeValid else ChallengeInvalid);
    HandOver(s, s', e.task, effect, false);
  }

  /** Every step has one of the listed effects. */
  lemma EffectOf(s: System, e: Event, s': System) returns (effect: Effect)
    requires Inv(s) && Fire(s, e) == Some(s')
    ensures Has(s.db, s'.db, effect) && HandsOver(s, s', effect, e.Crash?)
    ensures effect.Rewrote? && effect.status == OrderProcessing ==>
              e.Claim? && e.task in s.tasks && s.tasks[e.task] == Checked(effect.target)
    ensures e.Release? <==> effect.Rewrote? && effect.status == OrderPending
    ensures e.Release? ==> e.task in s.tasks && s.tasks[e.task] == SignFailed(effect.target)
  {
    hide Inv, Fire, Has, HandsOver;
    match e
    case LoadOrder(_) => ReadEffect(s, e, s'); effect := Nothing;
    case CheckReady(_, _) => ReadEffect(s, e, s'); effect := Nothing;
    case LoadChallenge(_) => ReadEffect(s, e, s'); effect := Nothing;
    case Claim(_) => effect := ClaimEffect(s, e, s');
    case Sign(_, _) => effect := SignEffect(s, e, s');
    case Release(_) => effect := EndEffect(s, e, s');
    case Attach(_) => effect := EndEffect(s, e, s');
    case Begin(_) => effect := BeginEffect(s, e, s');
    case Succeed(_) => effect := VerdictEffect(s, e, s');
    case Fail(_) => effect := VerdictEffect(s, e, s');
    case Register(_) => effect := AdditionEffect(s, e, s');
    case NewOrder(_, _) => effect := AdditionEffect(s, e, s');
    case IssueElsewhere(_, _) => effect := AdditionEffect(s, e, s');
    case _ => QuietEffect(s, e, s'); effect := Nothing;
  }
}
