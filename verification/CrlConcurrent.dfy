/**
 Concurrent revocations and refreshes (ca/crl.py), one statement at a time.

 A transaction loads the certificate it is about to revoke, opens the CRL row
 (taking the row lock if the row exists), reads what is revoked, and commits.
 Any transaction may be rolled back at any point before its commit, by a key that
 cannot be used or by a crash. A step that is not enabled changes nothing: a
 transaction waiting for a lock simply tries again later.
 */
module CrlConcurrent {
  import opened Prelude
  import opened Crl

  type TxnId = nat

  /** Where a transaction stands. `locked` says whether it found a row to lock;
      without one the first CRL's number is 1. */
  datatype Phase =
    | Loaded
    | Opened(number: nat, locked: bool)
    | Built(number: nat, locked: bool, crl: CrlState)

  /** `mark` is the revocation the transaction carries; a refresh carries none. */
  datatype Txn = Txn(issuer: IssuerId, mark: Option<(nat, Revocation)>, moment: Time, phase: Phase)

  datatype System = System(tables: Tables, txns: map<TxnId, Txn>)

  datatype Event =
    | IssueCertificate(issuer: IssuerId, serial: nat)
    | StartRevocation(txn: TxnId, cert: nat, reason: Reason, moment: Time)
    | StartRefresh(txn: TxnId, issuer: IssuerId, moment: Time)
    | Open(txn: TxnId)
    | ReadRevoked(txn: TxnId)
    | Commit(txn: TxnId)
    | Rollback(txn: TxnId)

  function Init(): System
  {
    System(Tables([], map[]), map[])
  }

  /** Another transaction holds the lock on this issuer's row. */
  predicate LockTaken(sys: System, issuer: IssuerId)
  {
    exists t :: t in sys.txns && Holds(sys.txns[t], issuer)
  }

  predicate Holds(txn: Txn, issuer: IssuerId)
  {
    txn.issuer == issuer && txn.phase != Loaded && txn.phase.locked
  }

  /** The certificate rows a transaction sees: the committed ones and its own mark. */
  function Seen(certs: seq<Row>, txn: Txn): seq<Row>
  {
    match txn.mark
    case None => certs
    case Some((c, revocation)) => if c < |certs| then Mark(certs, c, revocation) else certs
  }

  /** A transaction that found no row inserts one: the primary key lets only the
      first of them in. */
  predicate Conflicts(tables: Tables, txn: Txn)
    requires txn.phase.Built?
  {
    !txn.phase.locked && txn.issuer in tables.crls
  }

  predicate Commits(sys: System, t: TxnId)
  {
    t in sys.txns && sys.txns[t].phase.Built? && !Conflicts(sys.tables, sys.txns[t])
  }

  function Step(sys: System, e: Event): System
  {
    match e
    case IssueCertificate(issuer, serial) =>
      sys.(tables := sys.tables.(certs := sys.tables.certs + [Row(issuer, serial, None)]))
    case StartRevocation(t, c, reason, moment) =>
      if t !in sys.txns && c < |sys.tables.certs| && sys.tables.certs[c].revoked == None then
        sys.(txns := sys.txns[t := Txn(sys.tables.certs[c].issuer, Some((c, Revocation(moment, reason))), moment, Loaded)])
      else sys
    case StartRefresh(t, issuer, moment) =>
      if t !in sys.txns then sys.(txns := sys.txns[t := Txn(issuer, None, moment, Loaded)]) else sys
    case Open(t) =>
      if t in sys.txns && sys.txns[t].phase == Loaded && !LockTaken(sys, sys.txns[t].issuer) then
        var txn := sys.txns[t];
        sys.(txns := sys.txns[t := txn.(phase := Opened(Number(sys.tables, txn.issuer) + 1, txn.issuer in sys.tables.crls))])
      else sys
    case ReadRevoked(t) =>
      if t in sys.txns && sys.txns[t].phase.Opened? then
        var txn := sys.txns[t];
        var crl := Build(Seen(sys.tables.certs, txn), txn.issuer, txn.phase.number, txn.moment);
        sys.(txns := sys.txns[t := txn.(phase := Built(txn.phase.number, txn.phase.locked, crl))])
      else sys
    case Commit(t) =>
      if t in sys.txns && sys.txns[t].phase.Built? then
        System(if Conflicts(sys.tables, sys.txns[t]) then sys.tables else Committed(sys.tables, sys.txns[t]), sys.txns - {t})
      else sys
    case Rollback(t) =>
      sys.(txns := sys.txns - {t})
  }

  function Committed(tables: Tables, txn: Txn): Tables
    requires txn.phase.Built?
  {
    Tables(Seen(tables.certs, txn), tables.crls[txn.issuer := txn.phase.crl])
  }

  function Run(events: seq<Event>): System
  {
    if events == [] then Init() else Step(Run(events[..|events| - 1]), events[|events| - 1])
  }

  // ----- the invariant --------------------------------------------------------------

  /** What a running transaction may rely on. Once it holds the lock, or while no
      CRL of its issuer exists, nobody else can change what it has read. */
  ghost predicate TxnOk(tables: Tables, txn: Txn)
  {
    && (txn.mark.Some? ==> txn.mark.value.0 < |tables.certs| && tables.certs[txn.mark.value.0].issuer == txn.issuer)
    && (!txn.phase.Loaded? && txn.phase.locked ==> txn.issuer in tables.crls && txn.phase.number == Number(tables, txn.issuer) + 1)
    && (!txn.phase.Loaded? && !txn.phase.locked ==> txn.phase.number == 1)
    && (txn.phase.Built? && !Conflicts(tables, txn) ==>
          txn.phase.crl == Build(Seen(tables.certs, txn), txn.issuer, txn.phase.number, txn.moment))
  }

  ghost predicate Exclusive(txns: map<TxnId, Txn>)
  {
    forall t, u, i {:trigger Holds(txns[t], i), Holds(txns[u], i)} ::
      t in txns && u in txns && t != u && Holds(txns[t], i) ==> !Holds(txns[u], i)
  }

  ghost predicate Inv(sys: System)
  {
    && Consistent(sys.tables)
    && Exclusive(sys.txns)
    && forall t :: t in sys.txns ==> TxnOk(sys.tables, sys.txns[t])
  }

  lemma IssuingListsNothing(certs: seq<Row>, issuer: IssuerId, serial: nat, other: IssuerId)
    ensures RevokedEntries(certs + [Row(issuer, serial, None)], other) == RevokedEntries(certs, other)
  {
    assert (certs + [Row(issuer, serial, None)])[..|certs|] == certs;
  }

  lemma IssuingKeepsInv(sys: System, issuer: IssuerId, serial: nat)
    requires Inv(sys)
    ensures Inv(Step(sys, IssueCertificate(issuer, serial)))
  {
    var certs, row := sys.tables.certs, Row(issuer, serial, None);
    var after := Step(sys, IssueCertificate(issuer, serial));
    forall i ensures RevokedEntries(after.tables.certs, i) == RevokedEntries(certs, i) {
      IssuingListsNothing(certs, issuer, serial, i);
    }
    forall t | t in sys.txns ensures TxnOk(after.tables, sys.txns[t]) {
      assert TxnOk(sys.tables, sys.txns[t]);
      assert Seen(certs + [row], sys.txns[t]) == Seen(certs, sys.txns[t]) + [row];
      IssuingListsNothing(Seen(certs, sys.txns[t]), issuer, serial, sys.txns[t].issuer);
    }
  }

  /** A commit leaves alone what every other issuer must list. */
  lemma CommitIsLocal(tables: Tables, txn: Txn, other: IssuerId)
    requires TxnOk(tables, txn) && other != txn.issuer
    ensures RevokedEntries(Seen(tables.certs, txn), other) == RevokedEntries(tables.certs, other)
  {
    if txn.mark.Some? {
      var (c, revocation) := txn.mark.value;
      OtherIssuersUnaffected(tables.certs, c, Some(revocation), other);
    }
  }

  lemma CommitKeepsConsistency(tables: Tables, txn: Txn)
    requires Consistent(tables) && TxnOk(tables, txn) && txn.phase.Built? && !Conflicts(tables, txn)
    ensures Consistent(Committed(tables, txn))
  {
    var after := Committed(tables, txn);
    forall i | i != txn.issuer ensures RevokedEntries(after.certs, i) == RevokedEntries(tables.certs, i) {
      CommitIsLocal(tables, txn, i);
    }
  }

  /** ... and what a transaction of another issuer has read or will publish. */
  lemma CommitKeepsStrangers(tables: Tables, txn: Txn, other: Txn)
    requires TxnOk(tables, txn) && txn.phase.Built? && !Conflicts(tables, txn)
    requires TxnOk(tables, other) && other.issuer != txn.issuer
    ensures TxnOk(Committed(tables, txn), other)
  {
    if other.mark.Some? {
      var both := Seen(Seen(tables.certs, txn), other);
      var swapped := Seen(Seen(tables.certs, other), txn);
      assert both == swapped;
      if txn.mark.Some? {
        var (c, revocation) := txn.mark.value;
        OtherIssuersUnaffected(Seen(tables.certs, other), c, Some(revocation), other.issuer);
      }
    } else {
      CommitIsLocal(tables, txn, other.issuer);
    }
  }

  /** A transaction of the same issuer held no lock, so it has read nothing it may
      still publish: either it has not opened the row or its insert will conflict. */
  lemma CommitKeepsRivals(tables: Tables, txn: Txn, rival: Txn)
    requires TxnOk(tables, txn) && txn.phase.Built? && !Conflicts(tables, txn)
    requires TxnOk(tables, rival) && rival.issuer == txn.issuer
    requires !(Holds(txn, txn.issuer) && Holds(rival, txn.issuer))
    ensures TxnOk(Committed(tables, txn), rival)
  {
  }

  lemma CommitKeepsInv(sys: System, t: TxnId)
    requires Inv(sys)
    ensures Inv(Step(sys, Commit(t)))
  {
    hide TxnOk, Consistent;
    if Commits(sys, t) {
      var after := Step(sys, Commit(t));
      var txn := sys.txns[t];
      CommitKeepsConsistency(sys.tables, txn);
      forall u | u in after.txns ensures TxnOk(after.tables, after.txns[u]) {
        var other := sys.txns[u];
        assert after.txns[u] == other && t != u;
        if other.issuer == txn.issuer {
          CommitKeepsRivals(sys.tables, txn, other);
        } else {
          CommitKeepsStrangers(sys.tables, txn, other);
        }
      }
    }
  }

  lemma OpenKeepsInv(sys: System, t: TxnId)
    requires Inv(sys)
    ensures Inv(Step(sys, Open(t)))
  {
    hide Consistent;
    var after := Step(sys, Open(t));
    if after != sys {
      forall u | u in after.txns ensures TxnOk(after.tables, after.txns[u]) {
        assert TxnOk(sys.tables, sys.txns[u]);
      }
    }
  }

  lemma ReadKeepsInv(sys: System, t: TxnId)
    requires Inv(sys)
    ensures Inv(Step(sys, ReadRevoked(t)))
  {
    hide Consistent, RevokedEntries;
    var after := Step(sys, ReadRevoked(t));
    if after != sys {
      forall u | u in after.txns ensures TxnOk(after.tables, after.txns[u]) {
        assert TxnOk(sys.tables, sys.txns[u]);
      }
      forall u, i | u in after.txns && Holds(after.txns[u], i) ensures Holds(sys.txns[u], i) {
      }
    }
  }

  lemma InvariantIsInductive(sys: System, e: Event)
    requires Inv(sys)
    ensures Inv(Step(sys, e))
  {
    hide Consistent, RevokedEntries;
    match e
    case IssueCertificate(issuer, serial) => IssuingKeepsInv(sys, issuer, serial);
    case Open(t) => OpenKeepsInv(sys, t);
    case ReadRevoked(t) => ReadKeepsInv(sys, t);
    case Commit(t) => CommitKeepsInv(sys, t);
    case StartRevocation(t, _, _, _) =>
    case StartRefresh(t, _, _) =>
    case Rollback(t) =>
  }

  lemma {:induction false} RunKeepsInvariant(events: seq<Event>)
    ensures Inv(Run(events))
  {
    if events != [] {
      RunKeepsInvariant(events[..|events| - 1]);
      InvariantIsInductive(Run(events[..|events| - 1]), events[|events| - 1]);
    }
  }

  // ----- what holds over every run --------------------------------------------------

  /** In every committed state of every interleaving, a stored CRL lists an entry
      if and only if a committed row of that issuer is revoked with it; a revoked
      row's issuer always has a CRL. */
  lemma EveryRevocationIsPublished(events: seq<Event>, issuer: IssuerId, e: Entry)
    ensures
      var tables := Run(events).tables;
      && (issuer in tables.crls ==>
            (e in tables.crls[issuer].document.entries
             <==> exists c :: 0 <= c < |tables.certs| && tables.certs[c] == Row(issuer, e.serial, Some(e.revocation))))
      && ((exists c :: 0 <= c < |tables.certs| && tables.certs[c] == Row(issuer, e.serial, Some(e.revocation)))
          ==> issuer in tables.crls)
  {
    RunKeepsInvariant(events);
    ListedIffRevoked(Run(events).tables.certs, issuer, e);
  }

  /** How often a CRL of this issuer was committed. */
  function CommitsOf(events: seq<Event>, issuer: IssuerId): nat
  {
    if events == [] then 0
    else
      var before := events[..|events| - 1];
      var e := events[|events| - 1];
      CommitsOf(before, issuer)
      + if e.Commit? && Commits(Run(before), e.txn) && Run(before).txns[e.txn].issuer == issuer then 1 else 0
  }

  lemma CommitRaisesNumber(sys: System, t: TxnId, issuer: IssuerId)
    requires Inv(sys)
    ensures Number(Step(sys, Commit(t)).tables, issuer)
         == Number(sys.tables, issuer) + if Commits(sys, t) && sys.txns[t].issuer == issuer then 1 else 0
  {
    hide RevokedEntries;
    if t in sys.txns {
      assert TxnOk(sys.tables, sys.txns[t]);
    }
  }

  /** The CRL number of an issuer counts its published CRLs: every publication
      raises it by exactly one, nothing else moves it, and no number repeats. */
  lemma {:induction false} NumberCountsPublications(events: seq<Event>, issuer: IssuerId)
    ensures Number(Run(events).tables, issuer) == CommitsOf(events, issuer)
  {
    hide Consistent, RevokedEntries;
    if events != [] {
      var before, e := events[..|events| - 1], events[|events| - 1];
      NumberCountsPublications(before, issuer);
      RunKeepsInvariant(before);
      if e.Commit? {
        CommitRaisesNumber(Run(before), e.txn, issuer);
      }
    }
  }

  /** A CRL row changes only by a publication for that issuer, and its number rises. */
  lemma OtherRowsUntouched(sys: System, e: Event, issuer: IssuerId)
    requires Inv(sys) && issuer in sys.tables.crls
    ensures issuer in Step(sys, e).tables.crls
    ensures Step(sys, e).tables.crls[issuer] != sys.tables.crls[issuer] ==>
              && e.Commit? && Commits(sys, e.txn) && sys.txns[e.txn].issuer == issuer
              && Step(sys, e).tables.crls[issuer].number == sys.tables.crls[issuer].number + 1
  {
    hide Consistent, RevokedEntries;
    if e.Commit? {
      CommitRaisesNumber(sys, e.txn, issuer);
    }
  }

  // ----- whether a revocation is written once ---------------------------------------

  predicate Rewrites(sys: System, e: Event, c: nat)
  {
    && c < |sys.tables.certs| && sys.tables.certs[c].revoked.Some?
    && Step(sys, e).tables.certs[c].revoked != sys.tables.certs[c].revoked
  }

  /** A step moves a revocation a relying party may have been told about if and
      only if it commits a different mark loaded before that one was committed. */
  lemma RewritesExactlyWhenStale(sys: System, e: Event, c: nat)
    requires Inv(sys) && c < |sys.tables.certs|
    ensures c < |Step(sys, e).tables.certs|
    ensures Rewrites(sys, e, c)
       <==> && e.Commit? && Commits(sys, e.txn)
            && sys.txns[e.txn].mark.Some? && sys.txns[e.txn].mark.value.0 == c
            && sys.tables.certs[c].revoked.Some?
            && sys.tables.certs[c].revoked.value != sys.txns[e.txn].mark.value.1
  {
    hide Consistent, RevokedEntries;
    if e.Commit? && e.txn in sys.txns {
      assert TxnOk(sys.tables, sys.txns[e.txn]);
    }
  }

  /** Two overlapping revocations of one certificate: both load it unrevoked, and
      the second to commit replaces the published date and reason. */
  function OverlappingRevocations(): seq<Event>
  {
    [IssueCertificate(0, 7), StartRevocation(1, 0, KeyCompromise, 100), StartRevocation(2, 0, Superseded, 200),
     Open(1), ReadRevoked(1), Commit(1), Open(2), ReadRevoked(2), Commit(2)]
  }

  lemma {:induction false} RunInTwo(a: seq<Event>, e: Event)
    ensures Run(a + [e]) == Step(Run(a), e)
  {
    assert (a + [e])[..|a|] == a;
  }

  /** A transaction that opens, reads and commits in one go publishes what the
      sequential operation would. */
  lemma InOneGo(sys: System, t: TxnId)
    requires t in sys.txns && sys.txns[t].phase == Loaded && !LockTaken(sys, sys.txns[t].issuer)
    ensures
      var txn := sys.txns[t];
      var s3 := Step(Step(Step(sys, Open(t)), ReadRevoked(t)), Commit(t));
      s3 == System(Regenerate(sys.tables.(certs := Seen(sys.tables.certs, txn)), txn.issuer, txn.moment), sys.txns - {t})
  {
    hide RevokedEntries;
    var txn := sys.txns[t];
    var number, locked := Number(sys.tables, txn.issuer) + 1, txn.issuer in sys.tables.crls;
    var s1 := Step(sys, Open(t));
    assert s1 == sys.(txns := sys.txns[t := txn.(phase := Opened(number, locked))]);
    var s2 := Step(s1, ReadRevoked(t));
    var crl := Build(Seen(sys.tables.certs, txn), txn.issuer, number, txn.moment);
    assert s2 == sys.(txns := sys.txns[t := txn.(phase := Built(number, locked, crl))]);
    assert Step(s2, Commit(t)).txns == sys.txns - {t};
  }

  lemma ThreeSteps(a: seq<Event>, x: Event, y: Event, z: Event)
    ensures Run(a + [x, y, z]) == Step(Step(Step(Run(a), x), y), z)
  {
    RunInTwo(a, x);
    RunInTwo(a + [x], y);
    RunInTwo(a + [x] + [y], z);
    assert a + [x] + [y] + [z] == a + [x, y, z];
  }

  lemma OverlapMovesRevocation()
    ensures
      var events := OverlappingRevocations();
      && Run(events[..6]).tables.certs == [Row(0, 7, Some(Revocation(100, KeyCompromise)))]
      && Run(events).tables.certs == [Row(0, 7, Some(Revocation(200, Superseded)))]
  {
    hide RevokedEntries, Step, Run;
    var ev := OverlappingRevocations();
    var t1 := Txn(0, Some((0, Revocation(100, KeyCompromise))), 100, Loaded);
    var t2 := Txn(0, Some((0, Revocation(200, Superseded))), 200, Loaded);
    var s0 := System(Tables([Row(0, 7, None)], map[]), map[1 := t1, 2 := t2]);
    assert ev[..3] == [] + [ev[0], ev[1], ev[2]];
    assert ev[..6] == ev[..3] + [ev[3], ev[4], ev[5]];
    assert ev == ev[..6] + [ev[6], ev[7], ev[8]];
    ThreeSteps([], ev[0], ev[1], ev[2]);
    BothLoad();
    ThreeSteps(ev[..3], ev[3], ev[4], ev[5]);
    InOneGo(s0, 1);
    var s1 := Run(ev[..6]);
    assert s1.txns == map[2 := t2];
    ThreeSteps(ev[..6], ev[6], ev[7], ev[8]);
    InOneGo(s1, 2);
  }

  lemma BothLoad()
    ensures
      var ev := OverlappingRevocations();
      && Step(Step(Step(Run([]), ev[0]), ev[1]), ev[2])
         == System(Tables([Row(0, 7, None)], map[]),
                   map[1 := Txn(0, Some((0, Revocation(100, KeyCompromise))), 100, Loaded),
                       2 := Txn(0, Some((0, Revocation(200, Superseded))), 200, Loaded)])
  {
  }

  /** Revocations of the same certificate do not overlap: none starts while
      another one is under way. */
  predicate Separate(events: seq<Event>)
  {
    forall k :: 0 <= k < |events| && events[k].StartRevocation? ==>
      !UnderWay(Run(events[..k]), events[k].cert)
  }

  predicate UnderWay(sys: System, c: nat)
  {
    exists t :: t in sys.txns && Carries(sys.txns[t], c)
  }

  predicate Carries(txn: Txn, c: nat)
  {
    txn.mark.Some? && txn.mark.value.0 == c
  }

  /** Then the row a transaction is about to mark is still unmarked. */
  ghost predicate Fresh(sys: System)
  {
    && (forall t, c: nat :: t in sys.txns && c < |sys.tables.certs| && Carries(sys.txns[t], c) ==> sys.tables.certs[c].revoked == None)
    && (forall t, u, c: nat {:trigger Carries(sys.txns[t], c), Carries(sys.txns[u], c)} ::
          t in sys.txns && u in sys.txns && t != u && Carries(sys.txns[t], c) ==> !Carries(sys.txns[u], c))
  }

  lemma StepKeepsFresh(sys: System, e: Event)
    requires Inv(sys) && Fresh(sys)
    requires e.StartRevocation? ==> !UnderWay(sys, e.cert)
    ensures Fresh(Step(sys, e))
  {
    hide Consistent, RevokedEntries;
    var after := Step(sys, e);
    forall t, c: nat | t in after.txns && c < |after.tables.certs| && Carries(after.txns[t], c)
      ensures after.tables.certs[c].revoked == None
    {
      if t in sys.txns {
        assert TxnOk(sys.tables, sys.txns[t]);
        assert Carries(sys.txns[t], c);
        if e.Commit? && e.txn in sys.txns && e.txn != t {
          assert !Carries(sys.txns[e.txn], c);
        }
      }
    }
    forall t, u, c: nat | t in after.txns && u in after.txns && t != u && Carries(after.txns[t], c)
      ensures !Carries(after.txns[u], c)
    {
      if t in sys.txns && u in sys.txns {
        assert Carries(sys.txns[t], c) ==> !Carries(sys.txns[u], c);
      }
    }
  }

  lemma {:induction false} SeparateRunsStayFresh(events: seq<Event>)
    requires Separate(events)
    ensures Fresh(Run(events))
  {
    if events != [] {
      var before, e := events[..|events| - 1], events[|events| - 1];
      assert forall k :: 0 <= k < |before| ==> before[..k] == events[..k];
      SeparateRunsStayFresh(before);
      RunKeepsInvariant(before);
      StepKeepsFresh(Run(before), e);
    }
  }

  lemma NothingRewritten(events: seq<Event>, c: nat)
    requires |events| > 0 && Separate(events)
    ensures !Rewrites(Run(events[..|events| - 1]), events[|events| - 1], c)
  {
    var before, e := events[..|events| - 1], events[|events| - 1];
    assert forall k :: 0 <= k < |before| ==> before[..k] == events[..k];
    SeparateRunsStayFresh(before);
    RunKeepsInvariant(before);
    if c < |Run(before).tables.certs| {
      RewritesExactlyWhenStale(Run(before), e, c);
      assert e.Commit? && Commits(Run(before), e.txn) ==> TxnOk(Run(before).tables, Run(before).txns[e.txn]);
    }
  }

  /** While revocations of one certificate do not overlap, the date and reason of a
      revocation are the same at any two moments after it, whatever else interleaves. */
  lemma {:induction false} RevokedOnceForAll(events: seq<Event>, i: nat, j: nat, c: nat)
    requires i <= j <= |events| && Separate(events)
    requires c < |Run(events[..i]).tables.certs| && Run(events[..i]).tables.certs[c].revoked.Some?
    ensures c < |Run(events[..j]).tables.certs|
    ensures Run(events[..j]).tables.certs[c].revoked == Run(events[..i]).tables.certs[c].revoked
  {
    hide Step, Consistent, Separate;
    if i < j {
      RevokedOnceForAll(events, i, j - 1, c);
      var upTo := events[..j];
      assert upTo[..j - 1] == events[..j - 1] && upTo[j - 1] == events[j - 1];
      SeparatePrefix(events, j);
      NothingRewritten(upTo, c);
      RunKeepsInvariant(events[..j - 1]);
      RewritesExactlyWhenStale(Run(events[..j - 1]), events[j - 1], c);
    }
  }

  lemma SeparatePrefix(events: seq<Event>, j: nat)
    requires j <= |events| && Separate(events)
    ensures Separate(events[..j])
  {
    assert forall k :: 0 <= k < j ==> events[..j][..k] == events[..k];
  }

  // ----- one call with nobody else running is the sequential operation ---------------

  lemma AloneIsSequential(tables: Tables, t: TxnId, c: nat, reason: Reason, moment: Time)
    requires Consistent(tables) && c < |tables.certs| && tables.certs[c].revoked == None
    ensures
      var s1 := Step(System(tables, map[]), StartRevocation(t, c, reason, moment));
      var s4 := Step(Step(Step(s1, Open(t)), ReadRevoked(t)), Commit(t));
      s4 == System(Revoke(tables, c, reason, i => true, i => true, moment).1, map[])
  {
    hide RevokedEntries;
    var s1 := Step(System(tables, map[]), StartRevocation(t, c, reason, moment));
    assert s1 == System(tables, map[t := Txn(tables.certs[c].issuer, Some((c, Revocation(moment, reason))), moment, Loaded)]);
    InOneGo(s1, t);
    assert s1.txns - {t} == map[];
  }
}
