/**
 The order status a client reads, over time, against the diagram of section 7.1.6
 of RFC 8555. There are exactly two ways off that diagram: the readiness check and
 the claim are separate commits, so a claim may come after the order has expired;
 and a claim that could not be signed is released, where the diagram knows no way
 back from processing to ready.
 */
module AcmeStatus {
  import opened Prelude
  import opened AcmeModel
  import opened AcmeProtocol
  import opened AcmeInvariant
  import opened AcmeEffects
  import opened AcmeSafety

  function Reads(s: System, o: Id): OrderStatus
    requires o in s.db.orders
  {
    OrderReads(s.db, o, s.db.orders[o], s.now)
  }

  /** The diagram of section 7.1.6 of RFC 8555: any error ends in `invalid`, and
      `valid` and `invalid` are final. */
  predicate Edge(before: OrderStatus, after: OrderStatus)
  {
    match before
    case OrderPending => after in {OrderPending, OrderReady, OrderInvalid}
    case OrderReady => after in {OrderReady, OrderProcessing, OrderInvalid}
    case OrderProcessing => after in {OrderProcessing, OrderInvalid, OrderValid}
    case OrderValid => after == OrderValid
    case OrderInvalid => after == OrderInvalid
  }

  /** Of a stored-pending order, in closed form: expiry decides `invalid`, and
      the authorizations decide between `ready` and `pending`. */
  lemma PendingReads(db: Db, o: Id, now: Time)
    requires Structure(db) && Statuses(db) && o in db.orders && db.orders[o].status == OrderPending
    ensures
      OrderReads(db, o, db.orders[o], now) ==
      if db.orders[o].expires <= now then OrderInvalid else if Proven(db, o) then OrderReady else OrderPending
  {
    hide Covered, HasValidChallenge;
    if now < db.orders[o].expires {
      forall a | a in AuthzsOf(db, o)
        ensures AuthzReads(db.authzs[a], now) == db.authzs[a].status
      {
      }
      if Proven(db, o) {
        var a :| a in db.authzs && db.authzs[a].order == o;
        assert a in AuthzsOf(db, o);
      } else if AuthzsOf(db, o) != {} {
        var a :| a in AuthzsOf(db, o);
        assert exists b :: b in db.authzs && db.authzs[b].order == o;
        var b :| b in db.authzs && db.authzs[b].order == o && db.authzs[b].status != AuthzValid;
        assert b in AuthzsOf(db, o) && AuthzReads(db.authzs[b], now) != AuthzValid;
      }
    }
  }

  /** What a client reads, in terms of what is stored. */
  function Summary(stored: OrderStatus, expired: bool, proven: bool): OrderStatus
  {
    if stored != OrderPending then stored
    else if expired then OrderInvalid
    else if proven then OrderReady
    else OrderPending
  }

  ghost function Summarized(s: System, o: Id): OrderStatus
    requires o in s.db.orders
  {
    Summary(s.db.orders[o].status, s.db.orders[o].expires <= s.now, Proven(s.db, o))
  }

  lemma ReadsSummary(s: System, o: Id)
    requires Inv(s) && o in s.db.orders
    ensures Reads(s, o) == Summarized(s, o)
    ensures s.db.orders[o].status in {OrderPending, OrderProcessing, OrderValid}
    ensures s.db.orders[o].status != OrderPending ==> Proven(s.db, o)
  {
    hide Covered, HasValidChallenge, Justified, Compatible, Proven;
    if s.db.orders[o].status == OrderPending {
      hide Structure, Statuses, Certificates;
      SoundParts(s.db);
      PendingReads(s.db, o, s.now);
    }
  }

  lemma SoundParts(db: Db)
    requires Sound(db)
    ensures Structure(db) && Statuses(db)
  {
  }

  lemma EffectKeepsProven(db: Db, db': Db, effect: Effect, o: Id)
    requires Has(db, db', effect) && o in db.orders && Proven(db, o)
    ensures Proven(db', o)
  {
    ProvenFrame(db, db', o);
  }

  /** A claim that succeeds after the order has expired. */
  predicate LateClaim(s: System, e: Event)
  {
    && e.Claim? && e.task in s.tasks && s.tasks[e.task].Checked?
    && s.tasks[e.task].order in s.db.orders
    && ClaimOrder(s.db, s.tasks[e.task].order).1
    && s.db.orders[s.tasks[e.task].order].expires <= s.now
  }

  lemma LateClaimsProcess(s: System, e: Event, s': System)
    requires LateClaim(s, e) && Fire(s, e) == Some(s')
    ensures s'.db.orders[s.tasks[e.task].order].status == OrderProcessing
  {
    hide Reads;
  }

  /** A client reads `invalid` just before such a claim. */
  lemma LateClaimLeavesInvalid(s: System, e: Event)
    requires Inv(s) && LateClaim(s, e)
    ensures Reads(s, s.tasks[e.task].order) == OrderInvalid
  {
    hide Structure, Certificates, Justified, Compatible;
    ReadsSummary(s, s.tasks[e.task].order);
  }

  /** A claim on `o` is released, after signing failed, while the order still runs. */
  predicate EarlyRelease(s: System, e: Event, o: Id)
  {
    && e.Release? && e.task in s.tasks && s.tasks[e.task] == SignFailed(o)
    && o in s.db.orders && s.now < s.db.orders[o].expires
  }

  /** The move such a release shows to a client. */
  predicate ReleaseEdge(before: OrderStatus, after: OrderStatus)
  {
    before == OrderProcessing && after == OrderReady
  }

  /** A step moves what a client reads off the diagram if and only if it claims the
      order after it has expired, or releases its claim before. */
  lemma OffDiagramExactly(s: System, e: Event, s': System, o: Id)
    requires Inv(s) && Fire(s, e) == Some(s') && o in s.db.orders
    ensures o in s'.db.orders
    ensures Edge(Reads(s, o), Reads(s', o))
       <==> !(LateClaim(s, e) && s.tasks[e.task].order == o) && !EarlyRelease(s, e, o)
    ensures EarlyRelease(s, e, o) ==> ReleaseEdge(Reads(s, o), Reads(s', o))
  {
    hide Inv, Fire, Has, HandsOver, Reads, Proven, ClaimOrder;
    InvariantIsInductive(s, e, s');
    StepKeepsColumns(s, e, s');
    ReadsSummary(s, o);
    ReadsSummary(s', o);
    var effect := EffectOf(s, e, s');
    if e.Release? {
      ReleaseKeepsClock(s, e, s');
    }
    if Proven(s.db, o) {
      EffectKeepsProven(s.db, s'.db, effect, o);
    }
    if LateClaim(s, e) {
      LateClaimsProcess(s, e, s');
      LateClaimLeavesInvalid(s, e);
    }
    StoredMoves(s.db, s'.db, effect, o);
    if effect == Rewrote(o, OrderProcessing, None) {
      ClaimWins(s, e, s', o);
    }
  }

  lemma ReleaseKeepsClock(s: System, e: Event, s': System)
    requires Fire(s, e) == Some(s') && e.Release?
    ensures s'.now == s.now
  {
  }

  lemma ClaimWins(s: System, e: Event, s': System, o: Id)
    requires Inv(s) && Fire(s, e) == Some(s') && e.Claim? && s.tasks[e.task] == Checked(o)
    requires o in s.db.orders && o in s'.db.orders && s.db.orders[o].status == OrderPending && s'.db.orders[o].status == OrderProcessing
    ensures ClaimOrder(s.db, o).1 && Proven(s.db, o)
  {
    hide Sound, Compatible;
    assert Justified(s.db, s.tasks[e.task]);
  }

  lemma StoredMoves(db: Db, db': Db, effect: Effect, o: Id)
    requires Has(db, db', effect) && o in db.orders && o in db'.orders
    ensures db.orders[o].status == OrderPending ==> db'.orders[o].status in {OrderPending, OrderProcessing}
    ensures db.orders[o].status == OrderPending && db'.orders[o].status == OrderProcessing <==> effect == Rewrote(o, OrderProcessing, None)
    ensures db.orders[o].status == OrderProcessing ==> db'.orders[o].status in {OrderPending, OrderProcessing, OrderValid}
    ensures db.orders[o].status == OrderProcessing && db'.orders[o].status == OrderPending
       <==> effect.Rewrote? && effect.target == o && effect.status == OrderPending
    ensures db.orders[o].status !in {OrderPending, OrderProcessing} ==> db'.orders[o].status == db.orders[o].status
  {
  }

  /** A step in which the claim is made only on an order that reads ready: the
      readiness check and the claim taken as one. */
  ghost predicate MergedNext(s: System, s': System)
  {
    exists e :: Fire(s, e) == Some(s') && !LateClaim(s, e)
  }

  ghost predicate MergedRun(r: seq<System>)
  {
    Run(r) && forall i :: 0 < i < |r| ==> MergedNext(r[i - 1], r[i])
  }

  /** With check and claim as one step, `valid` and `invalid` are final, and every
      step in between follows the diagram or releases a claim. */
  lemma {:induction false} FinalStatusesAreFinal(r: seq<System>, i: nat, j: nat, o: Id)
    requires MergedRun(r) && i <= j < |r| && o in r[i].db.orders
    ensures o in r[j].db.orders
    ensures Reads(r[i], o) in {OrderValid, OrderInvalid} ==> Reads(r[j], o) == Reads(r[i], o)
    ensures i + 1 == j ==> Edge(Reads(r[i], o), Reads(r[j], o)) || ReleaseEdge(Reads(r[i], o), Reads(r[j], o))
    decreases j
  {
    hide Inv, Fire, Reads, LateClaim;
    if i < j {
      FinalStatusesAreFinal(r, i, j - 1, o);
      RunKeepsInvariant(r, j - 1);
      assert MergedNext(r[j - 1], r[j]);
      var e :| Fire(r[j - 1], e) == Some(r[j]) && !LateClaim(r[j - 1], e);
      OffDiagramExactly(r[j - 1], e, r[j], o);
    }
  }

  /** In the protocol as it is, `valid` is final all the same: only `invalid`
      can be left. */
  lemma {:induction false} ValidIsFinal(r: seq<System>, i: nat, j: nat, o: Id)
    requires Run(r) && i <= j < |r| && o in r[i].db.orders && Reads(r[i], o) == OrderValid
    ensures o in r[j].db.orders && Reads(r[j], o) == OrderValid
    decreases j
  {
    hide Inv, Fire, Reads;
    if i < j {
      ValidIsFinal(r, i, j - 1, o);
      RunKeepsInvariant(r, j - 1);
      assert Next(r[j - 1], r[j]);
      var e :| Fire(r[j - 1], e) == Some(r[j]);
      if LateClaim(r[j - 1], e) {
        LateClaimLeavesInvalid(r[j - 1], e);
      }
      OffDiagramExactly(r[j - 1], e, r[j], o);
    }
  }

  // ----- a client can see an order leave `invalid` ----------------------------------

  ghost predicate Reachable(s: System)
  {
    exists r :: Run(r) && r[|r| - 1] == s
  }

  lemma ReachStep(s: System, e: Event, s': System)
    requires Reachable(s) && Fire(s, e) == Some(s')
    ensures Reachable(s')
  {
    hide Fire;
    var r :| Run(r) && r[|r| - 1] == s;
    var longer := r + [s'];
    assert Next(s, s');
    forall i | 0 < i < |longer|
      ensures Next(longer[i - 1], longer[i])
    {
      if i < |r| {
        assert Next(r[i - 1], r[i]);
      }
    }
    assert Run(longer) && longer[|longer| - 1] == s';
  }

  /** A challenge is proven and a finalize request finds the order ready; the
      order then expires, and the request claims it all the same. */
  lemma LateClaimHappens() returns (checked: System, expired: System, claimed: System)
    ensures Reachable(checked) && Reachable(expired) && Reachable(claimed)
    ensures Fire(checked, Tick(ORDER_LIFETIME)) == Some(expired) && Fire(expired, Claim(11)) == Some(claimed)
    ensures 1 in checked.db.orders && 1 in expired.db.orders && 1 in claimed.db.orders
    ensures Reads(checked, 1) == OrderReady && Reads(expired, 1) == OrderInvalid && Reads(claimed, 1) == OrderProcessing
    ensures LateClaim(expired, Claim(11))
  {
    hide Reachable;
    var s0 := Start();
    var placed := Placing(s0);
    var triggered := Triggering(placed);
    var proven := Proving(triggered);
    checked := Checking(proven);
    hide OneOrder, OrderReads, ClaimOrder, Edge;
    expired, claimed := Expiring(checked);
    ReachStep(checked, Tick(ORDER_LIFETIME), expired);
    ReachStep(expired, Claim(11), claimed);
  }

  /** The same request, claiming in time: signing fails, the claim is released, and
      the client reads ready after processing. */
  lemma EarlyReleaseHappens() returns (failed: System, released: System)
    ensures Reachable(failed) && Reachable(released)
    ensures Fire(failed, Release(11)) == Some(released) && EarlyRelease(failed, Release(11), 1)
    ensures 1 in failed.db.orders && 1 in released.db.orders
    ensures Reads(failed, 1) == OrderProcessing && Reads(released, 1) == OrderReady
    ensures !LateClaim(failed, Release(11))
  {
    hide Reachable;
    var s0 := Start();
    var placed := Placing(s0);
    var triggered := Triggering(placed);
    var proven := Proving(triggered);
    var checked := Checking(proven);
    failed, released := Releasing(checked);
  }

  lemma Releasing(checked: System) returns (failed: System, released: System)
    requires OneOrder(checked, ChallengeValid, AuthzValid) && checked.tasks == map[11 := Checked(1)]
    ensures Reachable(failed) && Reachable(released)
    ensures Fire(failed, Release(11)) == Some(released) && EarlyRelease(failed, Release(11), 1)
    ensures 1 in failed.db.orders && 1 in released.db.orders
    ensures Reads(failed, 1) == OrderProcessing && Reads(released, 1) == OrderReady
  {
    hide Reachable;
    var claimed := Fire(checked, Claim(11)).value;
    ReachStep(checked, Claim(11), claimed);
    failed := Fire(claimed, Sign(11, false)).value;
    ReachStep(claimed, Sign(11, false), failed);
    released := Fire(failed, Release(11)).value;
    ReachStep(failed, Release(11), released);
    assert 2 in AuthzsOf(released.db, 1);
  }

  lemma Start() returns (s: System)
    ensures Init(s) && Reachable(s) && s.now == 0
  {
    s := System(Db(map[], map[], map[], map[], map[], 0), map[], 0);
    assert Run([s]) && [s][|[s]| - 1] == s;
  }

  lemma Expiring(checked: System) returns (expired: System, claimed: System)
    requires OneOrder(checked, ChallengeValid, AuthzValid) && checked.tasks == map[11 := Checked(1)]
    ensures Fire(checked, Tick(ORDER_LIFETIME)) == Some(expired) && Fire(expired, Claim(11)) == Some(claimed)
    ensures 1 in checked.db.orders && 1 in expired.db.orders && 1 in claimed.db.orders
    ensures Reads(expired, 1) == OrderInvalid && Reads(claimed, 1) == OrderProcessing
    ensures LateClaim(expired, Claim(11))
  {
    hide Reachable;
    expired := checked.(now := ORDER_LIFETIME);
    claimed := Fire(expired, Claim(11)).value;
  }

  const STAR := Identifier(Dns, "*.lan", "lan", true)

  /** One account, one order for `*.lan`, one authorization, one dns-01 challenge. */
  ghost predicate OneOrder(s: System, challenge: ChallengeStatus, authz: AuthzStatus)
  {
    && Reachable(s) && s.now == 0
    && s.db.orders == map[1 := Order(0, OrderPending, [STAR], ORDER_LIFETIME, None)]
    && s.db.authzs == map[2 := Authz(1, Dns, "lan", true, authz, AUTHZ_LIFETIME)]
    && s.db.challenges == map[3 := Challenge(2, Dns01, challenge)]
    && s.db.nextId == 4 && 0 in s.db.accounts
  }

  lemma Placing(s0: System) returns (s: System)
    requires Init(s0) && Reachable(s0) && s0.now == 0
    ensures OneOrder(s, ChallengePending, AuthzPending) && s.tasks == map[]
  {
    hide Reachable;
    var s1 := Fire(s0, Register(7)).value;
    ReachStep(s0, Register(7), s1);
    assert Fire(s1, NewOrder(0, [STAR])).Some?;
    s := Fire(s1, NewOrder(0, [STAR])).value;
    ReachStep(s1, NewOrder(0, [STAR]), s);
    var withRow := s1.db.(orders := map[1 := Order(0, OrderPending, [STAR], ORDER_LIFETIME, None)], nextId := 2);
    assert s1.db.orders[1 := Order(0, OrderPending, [STAR], ORDER_LIFETIME, None)] == withRow.orders;
    var withAuthz := withRow.(authzs := map[2 := Authz(1, Dns, "lan", true, AuthzPending, AUTHZ_LIFETIME)], nextId := 3);
    assert withRow.authzs[2 := Authz(1, Dns, "lan", true, AuthzPending, AUTHZ_LIFETIME)] == withAuthz.authzs;
    var withChallenge := withAuthz.(challenges := map[3 := Challenge(2, Dns01, ChallengePending)], nextId := 4);
    assert withAuthz.challenges[3 := Challenge(2, Dns01, ChallengePending)] == withChallenge.challenges;
    assert AddChallenges(withAuthz, 2, [Dns01]) == AddChallenges(withChallenge, 2, []) == withChallenge;
    assert AddAuthz(withRow, 1, STAR, AUTHZ_LIFETIME) == withChallenge;
    assert [STAR][1..] == [];
    assert AddAuthzs(withRow, 1, [STAR], AUTHZ_LIFETIME) == withChallenge;
  }

  lemma Triggering(s0: System) returns (s: System)
    requires OneOrder(s0, ChallengePending, AuthzPending) && s0.tasks == map[]
    ensures OneOrder(s, ChallengeProcessing, AuthzPending) && s.tasks == map[10 := Scheduled(3)]
  {
    hide Reachable;
    var s1 := Fire(s0, Trigger(10, 3)).value;
    ReachStep(s0, Trigger(10, 3), s1);
    s := Fire(s1, Begin(10)).value;
    ReachStep(s1, Begin(10), s);
  }

  lemma Proving(s0: System) returns (s: System)
    requires OneOrder(s0, ChallengeProcessing, AuthzPending) && s0.tasks == map[10 := Scheduled(3)]
    ensures OneOrder(s, ChallengeValid, AuthzValid) && s.tasks == map[]
  {
    hide Reachable;
    var s1 := Fire(s0, LoadChallenge(10)).value;
    ReachStep(s0, LoadChallenge(10), s1);
    s := Fire(s1, Succeed(10)).value;
    ReachStep(s1, Succeed(10), s);
  }

  lemma Checking(s0: System) returns (s: System)
    requires OneOrder(s0, ChallengeValid, AuthzValid) && s0.tasks == map[]
    ensures OneOrder(s, ChallengeValid, AuthzValid) && s.tasks == map[11 := Checked(1)]
    ensures Reads(s, 1) == OrderReady
  {
    hide Reachable;
    var s1 := Fire(s0, Arrive(11, 1)).value;
    ReachStep(s0, Arrive(11, 1), s1);
    var s2 := Fire(s1, LoadOrder(11)).value;
    ReachStep(s1, LoadOrder(11), s2);
    assert 2 in AuthzsOf(s2.db, 1);
    assert Reads(s2, 1) == OrderReady;
    s := Fire(s2, CheckReady(11, true)).value;
    ReachStep(s2, CheckReady(11, true), s);
  }
}
