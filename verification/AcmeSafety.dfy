/** What the invariant means over whole runs of the issuance protocol. */
module AcmeSafety {
  import opened Prelude
  import opened AcmeModel
  import opened AcmeProtocol
  import opened AcmeInvariant
  import opened AcmeEffects

  // ----- columns that never change ------------------------------------------------

  /** Orders keep their account, identifiers and expiry, and keep a certificate
      once they have one; accounts keep their issuer; certificate rows stay. */
  ghost predicate Keeps(s: System, s': System)
  {
    && (forall o :: o in s.db.orders ==>
          && o in s'.db.orders
          && s'.db.orders[o].account == s.db.orders[o].account
          && s'.db.orders[o].identifiers == s.db.orders[o].identifiers
          && s'.db.orders[o].expires == s.db.orders[o].expires
          && (s.db.orders[o].certificate != None ==> s'.db.orders[o].certificate == s.db.orders[o].certificate))
    && (forall a :: a in s.db.accounts ==> a in s'.db.accounts && s'.db.accounts[a] == s.db.accounts[a])
    && (forall k :: k in s.db.certs ==> k in s'.db.certs && s'.db.certs[k] == s.db.certs[k])
    && s.now <= s'.now
  }

  lemma ClockAdvances(s: System, e: Event, s': System)
    requires Fire(s, e) == Some(s')
    ensures s.now <= s'.now
  {
    hide CreateOrder, ClaimOrder, BeginChallenge, OrderReads;
  }

  lemma StepKeepsColumns(s: System, e: Event, s': System)
    requires Inv(s) && Fire(s, e) == Some(s')
    ensures Keeps(s, s')
  {
    hide Inv, Fire, HandsOver, Has;
    ClockAdvances(s, e, s');
    var effect := EffectOf(s, e, s');
    EffectKeepsColumns(s, s', effect);
  }

  lemma EffectKeepsColumns(s: System, s': System, effect: Effect)
    requires Has(s.db, s'.db, effect) && s.now <= s'.now
    ensures Keeps(s, s')
  {
  }

  lemma {:induction false} RunKeepsColumns(r: seq<System>, i: nat, j: nat)
    requires Run(r) && i <= j < |r|
    ensures Keeps(r[i], r[j])
    decreases j
  {
    hide Inv, Fire;
    if i < j {
      RunKeepsColumns(r, i, j - 1);
      RunKeepsInvariant(r, j - 1);
      assert Next(r[j - 1], r[j]);
      var e :| Fire(r[j - 1], e) == Some(r[j]);
      StepKeepsColumns(r[j - 1], e, r[j]);
    }
  }

  // ----- one certificate per order --------------------------------------------------

  /** However requests interleave and crash, two certificates stored for one
      order, at any two moments of a run, are the same certificate. */
  lemma OneCertificatePerOrder(r: seq<System>, i: nat, j: nat, k: Id, l: Id, o: Id)
    requires Run(r) && i <= j < |r|
    requires IssuedFor(r[i].db, k, o) && IssuedFor(r[j].db, l, o)
    ensures k == l
  {
    hide Covered, Proven, Justified, Compatible;
    RunKeepsColumns(r, i, j);
    RunKeepsInvariant(r, j);
    assert IssuedFor(r[j].db, k, o);
  }

  /** The order's certificate is written once, names a certificate issued for
      that order, and is set exactly while the stored status is valid. */
  lemma CertificateWrittenOnce(r: seq<System>, i: nat, j: nat, o: Id)
    requires Run(r) && i <= j < |r| && o in r[i].db.orders
    ensures o in r[j].db.orders
    ensures r[i].db.orders[o].status == OrderValid <==> r[i].db.orders[o].certificate != None
    ensures r[i].db.orders[o].certificate != None ==>
              && r[j].db.orders[o].certificate == r[i].db.orders[o].certificate
              && r[j].db.orders[o].status == OrderValid
              && IssuedFor(r[j].db, r[j].db.orders[o].certificate.value, o)
  {
    hide Covered, Proven, Justified, Compatible;
    RunKeepsColumns(r, i, j);
    RunKeepsInvariant(r, i);
    RunKeepsInvariant(r, j);
  }

  // ----- challenges -------------------------------------------------------------------

  /** The edges a stored challenge may take (section 7.1.6 of RFC 8555). */
  predicate ChallengeEdge(before: ChallengeStatus, after: ChallengeStatus)
  {
    || before == after
    || (before == ChallengePending && after == ChallengeProcessing)
    || (before == ChallengeProcessing && after in {ChallengeValid, ChallengeInvalid})
  }

  ghost predicate ChallengesMove(db: Db, db': Db)
  {
    && (forall c :: c in db.challenges ==>
          && c in db'.challenges && db'.challenges[c].authz == db.challenges[c].authz
          && db'.challenges[c].kind == db.challenges[c].kind
          && ChallengeEdge(db.challenges[c].status, db'.challenges[c].status))
    && (forall c :: c in db'.challenges && c !in db.challenges ==> db'.challenges[c].status == ChallengePending)
  }

  lemma EffectMovesChallenges(db: Db, db': Db, effect: Effect)
    requires Has(db, db', effect)
    ensures ChallengesMove(db, db')
  {
  }

  lemma RunMovesChallenges(r: seq<System>, i: nat)
    requires Run(r) && i + 1 < |r|
    ensures ChallengesMove(r[i].db, r[i + 1].db)
  {
    RunKeepsInvariant(r, i);
    assert Next(r[i], r[i + 1]);
    var e :| Fire(r[i], e) == Some(r[i + 1]);
    hide Inv, Fire, Has, HandsOver, ChallengesMove;
    var effect := EffectOf(r[i], e, r[i + 1]);
    EffectMovesChallenges(r[i].db, r[i + 1].db, effect);
  }

  /** A finished challenge never changes again; a challenge never returns to
      pending. */
  lemma {:induction false} FinishedChallengesStay(r: seq<System>, i: nat, j: nat, c: Id)
    requires Run(r) && i <= j < |r| && c in r[i].db.challenges
    ensures c in r[j].db.challenges
    ensures r[i].db.challenges[c].status in {ChallengeValid, ChallengeInvalid} ==> r[j].db.challenges[c] == r[i].db.challenges[c]
    ensures r[i].db.challenges[c].status != ChallengePending ==> r[j].db.challenges[c].status != ChallengePending
    decreases j
  {
    if i < j {
      FinishedChallengesStay(r, i, j - 1, c);
      RunMovesChallenges(r, j - 1);
    }
  }

  /** The step from `s` to `s'` is the one that won challenge `c`. */
  predicate Wins(s: System, s': System, c: Id)
  {
    && c in s.db.challenges && s.db.challenges[c].status == ChallengePending
    && c in s'.db.challenges && s'.db.challenges[c].status == ChallengeProcessing
  }

  /** Each challenge is won at most once in a run, however many triggers race,
      and is never worked on by two validators at a time. */
  lemma ChallengeWonOnce(r: seq<System>, i: nat, j: nat, c: Id)
    requires Run(r) && i + 1 < |r| && j + 1 < |r| && Wins(r[i], r[i + 1], c) && Wins(r[j], r[j + 1], c)
    ensures i == j
    ensures forall t, u ::
              && t in r[i].tasks && u in r[i].tasks
              && Validates(r[i].tasks[t]) && Validates(r[i].tasks[u])
              && r[i].tasks[t].challenge == r[i].tasks[u].challenge
              ==> t == u
  {
    hide Sound, Justified;
    if i < j {
      FinishedChallengesStay(r, i + 1, j, c);
    } else if j < i {
      FinishedChallengesStay(r, j + 1, i, c);
    }
    RunKeepsInvariant(r, i);
  }

  /** A valid challenge has been pending and then processing before. */
  ghost predicate WasProven(r: seq<System>, n: nat, c: Id)
    requires n < |r|
  {
    exists p, q ::
      && 0 <= p < q < n
      && c in r[p].db.challenges && r[p].db.challenges[c].status == ChallengePending
      && c in r[q].db.challenges && r[q].db.challenges[c].status == ChallengeProcessing
  }

  lemma {:induction false} ProcessingWasPending(r: seq<System>, n: nat, c: Id) returns (p: nat)
    requires Run(r) && n < |r| && c in r[n].db.challenges && r[n].db.challenges[c].status == ChallengeProcessing
    ensures p < n && c in r[p].db.challenges && r[p].db.challenges[c].status == ChallengePending
  {
    assert n > 0;
    RunMovesChallenges(r, n - 1);
    if r[n - 1].db.challenges[c].status == ChallengePending {
      p := n - 1;
    } else {
      p := ProcessingWasPending(r, n - 1, c);
    }
  }

  lemma {:induction false} ValidWasProven(r: seq<System>, n: nat, c: Id)
    requires Run(r) && n < |r| && c in r[n].db.challenges && r[n].db.challenges[c].status == ChallengeValid
    ensures WasProven(r, n, c)
  {
    assert n > 0;
    RunMovesChallenges(r, n - 1);
    if r[n - 1].db.challenges[c].status == ChallengeValid {
      ValidWasProven(r, n - 1, c);
      var p, q :|
        && 0 <= p < q < n - 1
        && c in r[p].db.challenges && r[p].db.challenges[c].status == ChallengePending
        && c in r[q].db.challenges && r[q].db.challenges[c].status == ChallengeProcessing;
    } else {
      var p := ProcessingWasPending(r, n - 1, c);
    }
  }

  /** An authorization is stored valid exactly when one of its challenges is. */
  lemma ValidAuthorizationIsProven(r: seq<System>, n: nat, a: Id)
    requires Run(r) && n < |r| && a in r[n].db.authzs
    ensures r[n].db.authzs[a].status == AuthzValid <==>
            exists c :: c in r[n].db.challenges && r[n].db.challenges[c].authz == a && r[n].db.challenges[c].status == ChallengeValid
  {
    hide Covered, Certificates, Structure, Justified, Compatible;
    RunKeepsInvariant(r, n);
    assert HasValidChallenge(r[n].db, a) == (r[n].db.authzs[a].status == AuthzValid);
  }

  // ----- what a certificate is worth ---------------------------------------------------

  /** Challenge `c` proves `identifier` of order `o`: it belongs to the order's
      authorization for that name and is of a kind the name admits. */
  predicate Proves(db: Db, c: Id, o: Id, identifier: Identifier)
  {
    && c in db.challenges && db.challenges[c].status == ChallengeValid
    && db.challenges[c].authz in db.authzs
    && var a := db.authzs[db.challenges[c].authz];
       && a.order == o && a.status == AuthzValid
       && a.kind == identifier.kind && a.value == identifier.baseValue && a.wildcard == identifier.wildcard
       && db.challenges[c].kind in ChallengeTypesFor(identifier.kind, identifier.wildcard)
  }

  lemma IdentifierProven(db: Db, o: Id, identifier: Identifier)
    requires Structure(db) && Statuses(db) && o in db.orders && Proven(db, o) && identifier in db.orders[o].identifiers
    ensures exists c :: Proves(db, c, o, identifier)
  {
    assert Covered(db, o, identifier);
    var a :| a in db.authzs && db.authzs[a].order == o && Names(db.authzs[a], identifier);
    assert HasValidChallenge(db, a);
    var c :| c in db.challenges && db.challenges[c].authz == a && db.challenges[c].status == ChallengeValid;
    assert Proves(db, c, o, identifier);
  }

  /** Every certificate stored over ACME names exactly its order's identifiers,
      comes from the issuer of the order's account, and every one of its names
      was proven by a challenge of an admissible kind that went pending,
      processing, valid. */
  lemma IssuedCertificatesAreEarned(r: seq<System>, n: nat, k: Id, o: Id)
    requires Run(r) && n < |r| && IssuedFor(r[n].db, k, o)
    ensures o in r[n].db.orders && r[n].db.orders[o].account in r[n].db.accounts
    ensures r[n].db.certs[k].issuer == r[n].db.accounts[r[n].db.orders[o].account].issuer
    ensures forall san :: san in r[n].db.certs[k].sans <==>
              exists identifier :: identifier in r[n].db.orders[o].identifiers && san == San(identifier.kind, identifier.value)
    ensures forall identifier :: identifier in r[n].db.orders[o].identifiers ==>
              exists c :: Proves(r[n].db, c, o, identifier) && WasProven(r, n, c)
  {
    var db := r[n].db;
    RunKeepsInvariant(r, n);
    assert db.certs[k].sans == SansOf(db.orders[o].identifiers);
    forall identifier | identifier in db.orders[o].identifiers
      ensures San(identifier.kind, identifier.value) in db.certs[k].sans
      ensures exists c :: Proves(db, c, o, identifier) && WasProven(r, n, c)
    {
      var at :| 0 <= at < |db.orders[o].identifiers| && db.orders[o].identifiers[at] == identifier;
      assert db.certs[k].sans[at] == San(identifier.kind, identifier.value);
      IdentifierProven(db, o, identifier);
      var c :| Proves(db, c, o, identifier);
      ValidWasProven(r, n, c);
    }
    forall san | san in db.certs[k].sans
      ensures exists identifier :: identifier in db.orders[o].identifiers && san == San(identifier.kind, identifier.value)
    {
      var at :| 0 <= at < |db.certs[k].sans| && db.certs[k].sans[at] == san;
      assert db.orders[o].identifiers[at] in db.orders[o].identifiers;
    }
  }

  // ----- the crash window ----------------------------------------------------------------

  /** Processing, with nobody left to finish or release it. */
  ghost predicate Stranded(s: System, o: Id)
  {
    Held(s.db, o) && !Owned(s, o)
  }

  lemma StrandedStep(s: System, s': System, effect: Effect, crash: bool, o: Id)
    requires Has(s.db, s'.db, effect) && HandsOver(s, s', effect, crash) && Stranded(s, o)
    ensures Stranded(s', o)
    ensures forall k :: IssuedFor(s'.db, k, o) ==> IssuedFor(s.db, k, o)
  {
    assert Owned(s', o) ==> Owned(s, o);
  }

  /** A crash between claim and attach leaves the order processing for good: no
      later step finishes it, releases it or issues for it again. */
  lemma {:induction false} StrandedForever(r: seq<System>, i: nat, j: nat, o: Id)
    requires Run(r) && i <= j < |r| && Stranded(r[i], o)
    ensures Stranded(r[j], o)
    ensures forall k :: IssuedFor(r[j].db, k, o) ==> IssuedFor(r[i].db, k, o)
    decreases j
  {
    if i < j {
      StrandedForever(r, i, j - 1, o);
      RunKeepsInvariant(r, j - 1);
      assert Next(r[j - 1], r[j]);
      var e :| Fire(r[j - 1], e) == Some(r[j]);
      hide Inv, Fire, Stranded, Has, HandsOver;
      var effect := EffectOf(r[j - 1], e, r[j]);
      StrandedStep(r[j - 1], r[j], effect, e.Crash?, o);
    }
  }

  /** Whoever is processing is being worked on. */
  ghost predicate Attended(s: System)
  {
    && (forall o :: Held(s.db, o) ==> Owned(s, o))
    && (forall c :: c in s.db.challenges && s.db.challenges[c].status == ChallengeProcessing ==> Validated(s, c))
  }

  lemma AttendedStep(s: System, s': System, effect: Effect)
    requires Has(s.db, s'.db, effect) && HandsOver(s, s', effect, false) && Attended(s)
    ensures Attended(s')
  {
    forall o | Held(s'.db, o)
      ensures Owned(s', o)
    {
      if Held(s.db, o) {
        var t :| t in s.tasks && Owns(s.tasks[t]) && s.tasks[t].order == o;
      }
    }
    forall c | c in s'.db.challenges && s'.db.challenges[c].status == ChallengeProcessing
      ensures Validated(s', c)
    {
      if c in s.db.challenges && s.db.challenges[c].status == ChallengeProcessing {
        var t :| t in s.tasks && Validates(s.tasks[t]) && s.tasks[t].challenge == c;
      }
    }
  }

  lemma AttendedNext(s: System, e: Event, s': System)
    requires Inv(s) && Fire(s, e) == Some(s') && !e.Crash? && Attended(s)
    ensures Attended(s')
  {
    hide Inv, Fire, Has, HandsOver, Attended;
    var effect := EffectOf(s, e, s');
    AttendedStep(s, s', effect);
  }

  ghost predicate CrashFree(r: seq<System>)
  {
    Run(r) && forall i :: 0 < i < |r| ==> exists e: Event :: !e.Crash? && Fire(r[i - 1], e) == Some(r[i])
  }

  /** Only a crash strands anything: without one, every processing order has its
      request and every processing challenge its validator. */
  lemma {:induction false} OnlyCrashesStrand(r: seq<System>, n: nat)
    requires CrashFree(r) && n < |r|
    ensures Attended(r[n])
    ensures forall o :: !Stranded(r[n], o)
  {
    hide Inv, Fire, Attended, Init, Stranded;
    if n == 0 {
      StartIsAttended(r[0]);
    } else {
      OnlyCrashesStrand(r, n - 1);
      RunKeepsInvariant(r, n - 1);
      var e: Event :| !e.Crash? && Fire(r[n - 1], e) == Some(r[n]);
      AttendedNext(r[n - 1], e, r[n]);
    }
    NothingStranded(r[n]);
  }

  lemma StartIsAttended(s: System)
    requires Init(s)
    ensures Attended(s)
  {
  }

  lemma NothingStranded(s: System)
    requires Attended(s)
    ensures forall o :: !Stranded(s, o)
  {
  }
}
