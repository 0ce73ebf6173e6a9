/**
 Who may sign with which issuer (issuer_grants.py, `resolve_issuer` in
 ca/service.py), and what that means for the certificates of a whole run.
 */
module Grants {
  import opened Prelude
  import opened Hierarchy
  import opened HierarchyRuns
  import NameConstraints

  datatype Identity = User(id: nat) | Token(id: nat) | AcmeSystem | CabinSystem

  datatype Principal = Principal(identity: Identity, superadmin: bool)
  {
    predicate Unrestricted()
    {
      identity.AcmeSystem? || identity.CabinSystem? || superadmin
    }
  }

  /** The two join tables: the issuers granted to each identity. */
  type GrantTable = map<Identity, set<nat>>

  datatype GrantError =
    | NoSuchCa | NotAnIntermediate | IssuerIsRetired | SeveralIssuers
    | NotGranted | NothingGranted | NoHierarchy | NoActiveIssuer | CannotHoldGrants

  // ----- resolving --------------------------------------------------------------------

  /** The active intermediates in id order. */
  function ActiveIssuers(rows: Rows): seq<nat>
  {
    if rows == [] then []
    else ActiveIssuers(rows[..|rows| - 1]) + if IsIssuer(rows[|rows| - 1]) then [|rows| - 1] else []
  }

  /** One sentence for a fresh instance, another for roots without an issuer. */
  function NoIssuerError(rows: Rows): GrantError
  {
    if rows == [] then NoHierarchy else NoActiveIssuer
  }

  function ResolveNamed(rows: Rows, id: nat): Result<nat, GrantError>
  {
    if id >= |rows| then Err(NoSuchCa)
    else if rows[id].kind != Intermediate then Err(NotAnIntermediate)
    else if rows[id].status != Active then Err(IssuerIsRetired)
    else Ok(id)
  }

  function ResolveIssuer(rows: Rows, id: Option<nat>): Result<nat, GrantError>
  {
    match id
    case Some(named) => ResolveNamed(rows, named)
    case None =>
      var issuers := ActiveIssuers(rows);
      if |issuers| == 1 then Ok(issuers[0])
      else if |issuers| > 1 then Err(SeveralIssuers)
      else Err(NoIssuerError(rows))
  }

  function GrantIds(grants: GrantTable, identity: Identity): set<nat>
  {
    if identity in grants then grants[identity] else {}
  }

  function Keep(issuers: seq<nat>, granted: set<nat>): seq<nat>
  {
    if issuers == [] then []
    else Keep(issuers[..|issuers| - 1], granted) + if issuers[|issuers| - 1] in granted then [issuers[|issuers| - 1]] else []
  }

  function GrantedIssuers(rows: Rows, grants: GrantTable, p: Principal): seq<nat>
  {
    if p.Unrestricted() then ActiveIssuers(rows) else Keep(ActiveIssuers(rows), GrantIds(grants, p.identity))
  }

  /** Whatever the issuer's status: a retired one's certificates stay revocable. */
  predicate MayUseIssuer(grants: GrantTable, p: Principal, id: nat)
  {
    p.Unrestricted() || id in GrantIds(grants, p.identity)
  }

  function ResolveGrantedIssuer(rows: Rows, grants: GrantTable, p: Principal, id: Option<nat>): Result<nat, GrantError>
  {
    match id
    case Some(named) =>
      (match ResolveIssuer(rows, id)
       case Err(error) => Err(error)
       case Ok(issuer) => if MayUseIssuer(grants, p, issuer) then Ok(issuer) else Err(NotGranted))
    case None =>
      var granted := GrantedIssuers(rows, grants, p);
      if |granted| == 1 then Ok(granted[0])
      else if |granted| > 1 then Err(SeveralIssuers)
      else if ActiveIssuers(rows) != [] then Err(NothingGranted)
      else Err(NoIssuerError(rows))
  }

  /** For an unrestricted principal grants play no part: the same issuer or the same
      error, in every case. */
  lemma UnrestrictedResolvesAlike(rows: Rows, grants: GrantTable, p: Principal, id: Option<nat>)
    requires p.Unrestricted()
    ensures ResolveGrantedIssuer(rows, grants, p, id) == ResolveIssuer(rows, id)
  {
  }

  /** The issuer may sign for this principal right now. */
  predicate ActiveAndGranted(rows: Rows, grants: GrantTable, p: Principal, id: nat)
  {
    id < |rows| && IsIssuer(rows[id]) && MayUseIssuer(grants, p, id)
  }

  lemma {:induction false} ActiveIssuersAreExact(rows: Rows, id: nat)
    ensures id in ActiveIssuers(rows) <==> id < |rows| && IsIssuer(rows[id])
    ensures forall i, j :: 0 <= i < j < |ActiveIssuers(rows)| ==> ActiveIssuers(rows)[i] != ActiveIssuers(rows)[j]
    ensures forall i :: 0 <= i < |ActiveIssuers(rows)| ==> ActiveIssuers(rows)[i] < |rows|
  {
    if rows != [] {
      ActiveIssuersAreExact(rows[..|rows| - 1], id);
    }
  }

  lemma {:induction false} KeepIsExact(issuers: seq<nat>, granted: set<nat>, id: nat)
    requires forall i, j :: 0 <= i < j < |issuers| ==> issuers[i] != issuers[j]
    ensures id in Keep(issuers, granted) <==> id in issuers && id in granted
    ensures forall i :: 0 <= i < |Keep(issuers, granted)| ==> Keep(issuers, granted)[i] in issuers
    ensures forall i, j :: 0 <= i < j < |Keep(issuers, granted)| ==> Keep(issuers, granted)[i] != Keep(issuers, granted)[j]
  {
    if issuers != [] {
      KeepIsExact(issuers[..|issuers| - 1], granted, id);
      assert issuers == issuers[..|issuers| - 1] + [issuers[|issuers| - 1]];
    }
  }

  lemma GrantedIssuersAreExact(rows: Rows, grants: GrantTable, p: Principal, id: nat)
    ensures id in GrantedIssuers(rows, grants, p) <==> ActiveAndGranted(rows, grants, p, id)
    ensures forall i, j :: 0 <= i < j < |GrantedIssuers(rows, grants, p)| ==> GrantedIssuers(rows, grants, p)[i] != GrantedIssuers(rows, grants, p)[j]
  {
    ActiveIssuersAreExact(rows, id);
    KeepIsExact(ActiveIssuers(rows), GrantIds(grants, p.identity), id);
  }

  /** Resolving answers an issuer exactly when it is active and granted, and either
      was named or is the only one that is. */
  lemma ResolvesExactly(rows: Rows, grants: GrantTable, p: Principal, id: Option<nat>, issuer: nat)
    ensures ResolveGrantedIssuer(rows, grants, p, id) == Ok(issuer)
       <==> && ActiveAndGranted(rows, grants, p, issuer)
            && (id == Some(issuer) || (id == None && forall other: nat :: ActiveAndGranted(rows, grants, p, other) ==> other == issuer))
  {
    hide ActiveIssuers, Keep;
    var granted := GrantedIssuers(rows, grants, p);
    if id == None {
      GrantedIssuersAreExact(rows, grants, p, issuer);
      forall other: nat ensures other in granted <==> ActiveAndGranted(rows, grants, p, other) {
        GrantedIssuersAreExact(rows, grants, p, other);
      }
      if |granted| > 1 {
        assert granted[0] in granted && granted[1] in granted && granted[0] != granted[1];
        assert ActiveAndGranted(rows, grants, p, granted[0]) && ActiveAndGranted(rows, grants, p, granted[1]);
      }
      if |granted| == 1 {
        assert granted[0] in granted;
      }
    }
  }

  // ----- changing grants ------------------------------------------------------------------

  predicate CanHoldGrants(identity: Identity)
  {
    identity.User? || identity.Token?
  }

  /** The first id that may not be granted decides the error. */
  function FirstBad(rows: Rows, ids: seq<nat>): Option<GrantError>
  {
    if ids == [] then None
    else if ids[0] >= |rows| then Some(NoSuchCa)
    else if rows[ids[0]].kind != Intermediate then Some(NotAnIntermediate)
    else FirstBad(rows, ids[1..])
  }

  function Elements(ids: seq<nat>): set<nat>
  {
    set i | 0 <= i < |ids| :: ids[i]
  }

  function SetIssuers(rows: Rows, grants: GrantTable, identity: Identity, ids: seq<nat>): Result<GrantTable, GrantError>
  {
    if !CanHoldGrants(identity) then Err(CannotHoldGrants)
    else
      match FirstBad(rows, ids)
      case Some(error) => Err(error)
      case None => if GrantIds(grants, identity) == Elements(ids) then Ok(grants) else Ok(grants[identity := Elements(ids)])
  }

  function Grant(rows: Rows, grants: GrantTable, identity: Identity, id: nat): Result<GrantTable, GrantError>
  {
    if !CanHoldGrants(identity) then Err(CannotHoldGrants)
    else if id >= |rows| then Err(NoSuchCa)
    else if rows[id].kind != Intermediate then Err(NotAnIntermediate)
    else Ok(grants[identity := GrantIds(grants, identity) + {id}])
  }

  class GrantStore {
    var grants: GrantTable

    constructor ()
      ensures grants == map[]
    {
      grants := map[];
    }

    /** Every id is checked before any row is written; what changed is reported. */
    method ReplaceIssuers(rows: Rows, identity: Identity, ids: seq<nat>) returns (result: Result<(set<nat>, set<nat>), GrantError>)
      modifies this
      ensures match SetIssuers(rows, old(grants), identity, ids)
              case Err(error) => result == Err(error) && grants == old(grants)
              case Ok(after) =>
                && grants == after && GrantIds(grants, identity) == Elements(ids)
                && result == Ok((Elements(ids) - GrantIds(old(grants), identity), GrantIds(old(grants), identity) - Elements(ids)))
      ensures forall other :: other != identity ==> GrantIds(grants, other) == GrantIds(old(grants), other)
    {
      if !CanHoldGrants(identity) {
        return Err(CannotHoldGrants);
      }
      for k := 0 to |ids|
        invariant FirstBad(rows, ids) == FirstBad(rows, ids[k..])
      {
        if ids[k] >= |rows| {
          return Err(NoSuchCa);
        }
        if rows[ids[k]].kind != Intermediate {
          return Err(NotAnIntermediate);
        }
      }
      var before, after := GrantIds(grants, identity), Elements(ids);
      var added, removed := after - before, before - after;
      if added != {} || removed != {} {
        grants := grants[identity := after];
      } else {
        assert before == after;
      }
      return Ok((added, removed));
    }
  }

  /** Only intermediates are ever granted, and no row is ever changed into anything
      else, so a grant always names something that could sign. */
  ghost predicate OnlyIntermediates(rows: Rows, grants: GrantTable)
  {
    forall i: Identity :: i in grants ==> AllIntermediates(rows, grants[i])
  }

  predicate AllIntermediates(rows: Rows, ids: set<nat>)
  {
    forall id :: id in ids ==> id < |rows| && rows[id].kind == Intermediate
  }

  lemma {:induction false} FirstBadIsNone(rows: Rows, ids: seq<nat>)
    requires FirstBad(rows, ids) == None
    ensures forall id: nat :: id in Elements(ids) ==> id < |rows| && rows[id].kind == Intermediate
  {
    if ids != [] {
      FirstBadIsNone(rows, ids[1..]);
      assert Elements(ids) == {ids[0]} + Elements(ids[1..]) by { ElementsSplit(ids); }
    }
  }

  lemma ElementsSplit(ids: seq<nat>)
    requires ids != []
    ensures Elements(ids) == {ids[0]} + Elements(ids[1..])
  {
    forall id | id in Elements(ids) ensures id in {ids[0]} + Elements(ids[1..]) {
      var i :| 0 <= i < |ids| && ids[i] == id;
      if i > 0 {
        assert ids[1..][i - 1] == id;
      }
    }
    forall id | id in Elements(ids[1..]) ensures id in Elements(ids) {
      var i :| 0 <= i < |ids[1..]| && ids[1..][i] == id;
      assert ids[i + 1] == id;
    }
  }

  // ----- runs ---------------------------------------------------------------------------------

  /** A request resolves its issuer and stores its certificate in two steps, with
      anything in between. */
  datatype GrantEvent =
    | Change(op: Op, now: Time)
    | Assign(identity: Identity, ids: seq<nat>)
    | AddGrant(identity: Identity, id: nat)
    | Resolve(request: nat, principal: Principal, wanted: Option<nat>)
    | Store(request: nat)

  /** `resolvedAt` and `storedAt` count the events before: history. */
  datatype Pending = Pending(principal: Principal, issuer: nat, resolvedAt: nat)

  datatype Stored = Stored(principal: Principal, issuer: nat, resolvedAt: nat, storedAt: nat)

  datatype State = State(rows: Rows, grants: GrantTable, pending: map<nat, Pending>, stored: seq<Stored>)

  function GrantStep(s: State, e: GrantEvent, at: nat): State
  {
    match e
    case Change(op, now) => s.(rows := Step(s.rows, op, now))
    case Assign(identity, ids) =>
      (match SetIssuers(s.rows, s.grants, identity, ids) case Ok(grants) => s.(grants := grants) case Err(_) => s)
    case AddGrant(identity, id) =>
      (match Grant(s.rows, s.grants, identity, id) case Ok(grants) => s.(grants := grants) case Err(_) => s)
    case Resolve(request, principal, wanted) =>
      (match ResolveGrantedIssuer(s.rows, s.grants, principal, wanted)
       case Ok(issuer) => s.(pending := s.pending[request := Pending(principal, issuer, at)])
       case Err(_) => s)
    case Store(request) =>
      if request in s.pending then
        var p := s.pending[request];
        s.(pending := s.pending - {request}, stored := s.stored + [Stored(p.principal, p.issuer, p.resolvedAt, at)])
      else s
  }

  function After(events: seq<GrantEvent>): State
  {
    if events == [] then State([], map[], map[], [])
    else GrantStep(After(events[..|events| - 1]), events[|events| - 1], |events| - 1)
  }

  /** The principal was entitled to the issuer when the first `at` events had happened. */
  ghost predicate EntitledAt(events: seq<GrantEvent>, at: nat, p: Principal, issuer: nat)
    requires at <= |events|
  {
    ActiveAndGranted(After(events[..at]).rows, After(events[..at]).grants, p, issuer)
  }

  ghost predicate Earned(events: seq<GrantEvent>, s: State)
  {
    && (forall r :: r in s.pending ==> s.pending[r].resolvedAt < |events| && EntitledAt(events, s.pending[r].resolvedAt, s.pending[r].principal, s.pending[r].issuer))
    && (forall k :: 0 <= k < |s.stored| ==>
          && s.stored[k].resolvedAt < s.stored[k].storedAt < |events|
          && EntitledAt(events, s.stored[k].resolvedAt, s.stored[k].principal, s.stored[k].issuer))
  }

  lemma EntitledEarlier(events: seq<GrantEvent>, at: nat, p: Principal, issuer: nat)
    requires events != [] && at <= |events| - 1
    ensures EntitledAt(events, at, p, issuer) == EntitledAt(events[..|events| - 1], at, p, issuer)
  {
    assert events[..|events| - 1][..at] == events[..at];
  }

  /** A step towards GrantedWhenStored: every certificate of every run came from an
      issuer that its principal was entitled to when the request resolved it. */
  lemma {:induction false} EveryCertificateWasGranted(events: seq<GrantEvent>)
    ensures Earned(events, After(events))
  {
    hide EntitledAt, Step, SetIssuers, ActiveAndGranted;
    if events != [] {
      var init, e := events[..|events| - 1], events[|events| - 1];
      var before, after := After(init), After(events);
      EveryCertificateWasGranted(init);
      if e.Resolve? && after != before {
        ResolvedIsEntitled(events);
      }
      forall r | r in after.pending
        ensures after.pending[r].resolvedAt < |events| && EntitledAt(events, after.pending[r].resolvedAt, after.pending[r].principal, after.pending[r].issuer)
      {
        if r in before.pending && after.pending[r] == before.pending[r] {
          EntitledEarlier(events, before.pending[r].resolvedAt, before.pending[r].principal, before.pending[r].issuer);
        }
      }
      forall k | 0 <= k < |after.stored|
        ensures
          && after.stored[k].resolvedAt < after.stored[k].storedAt < |events|
          && EntitledAt(events, after.stored[k].resolvedAt, after.stored[k].principal, after.stored[k].issuer)
      {
        if k < |before.stored| {
          EntitledEarlier(events, before.stored[k].resolvedAt, before.stored[k].principal, before.stored[k].issuer);
        } else {
          var p := before.pending[e.request];
          EntitledEarlier(events, p.resolvedAt, p.principal, p.issuer);
        }
      }
    }
  }

  lemma ResolvedIsEntitled(events: seq<GrantEvent>)
    requires events != [] && events[|events| - 1].Resolve?
    ensures
      var before, e := After(events[..|events| - 1]), events[|events| - 1];
      var issuer := ResolveGrantedIssuer(before.rows, before.grants, e.principal, e.wanted);
      issuer.Ok? ==> EntitledAt(events, |events| - 1, e.principal, issuer.value)
  {
    var before, e := After(events[..|events| - 1]), events[|events| - 1];
    var issuer := ResolveGrantedIssuer(before.rows, before.grants, e.principal, e.wanted);
    if issuer.Ok? {
      ResolvesExactly(before.rows, before.grants, e.principal, e.wanted, issuer.value);
    }
  }

  // ----- entitlement over time -----------------------------------------------------------------

  /** An accepted event after which the principal is not entitled to the issuer: an
      active row is retired and takes the issuer with it, or the grants of a
      restricted principal are replaced by a set without it. */
  predicate Takes(s: State, e: GrantEvent, p: Principal, issuer: nat)
  {
    match e
    case Change(op, now) =>
      && op.OpRetire? && op.id < |s.rows| && issuer < |s.rows|
      && s.rows[op.id].status == Active && Retire(s.rows, op.id).Ok? && RetiredWith(s.rows, op.id, issuer)
    case Assign(identity, ids) =>
      identity == p.identity && !p.Unrestricted() && SetIssuers(s.rows, s.grants, identity, ids).Ok? && issuer !in ids
    case _ => false
  }

  /** An accepted event that grants the principal an active issuer. */
  predicate Gives(s: State, e: GrantEvent, p: Principal, issuer: nat)
  {
    && issuer < |s.rows| && IsIssuer(s.rows[issuer])
    && match e
       case Assign(identity, ids) => identity == p.identity && SetIssuers(s.rows, s.grants, identity, ids).Ok? && issuer in ids
       case AddGrant(identity, id) => identity == p.identity && Grant(s.rows, s.grants, identity, id).Ok? && issuer == id
       case _ => false
  }

  predicate Entitled(s: State, p: Principal, issuer: nat)
  {
    ActiveAndGranted(s.rows, s.grants, p, issuer)
  }

  lemma ChangesOfRows(s: State, e: GrantEvent, at: nat, p: Principal, issuer: nat)
    requires e.Change? && Inv(s.rows) && issuer < |s.rows| && s.rows[issuer].kind == Intermediate
    ensures Entitled(s, p, issuer) ==> (Entitled(GrantStep(s, e, at), p, issuer) <==> !Takes(s, e, p, issuer))
    ensures !Entitled(s, p, issuer) ==> !Entitled(GrantStep(s, e, at), p, issuer)
  {
    hide Inv, SameRow, Resign, YearsUntil, ImportCross, CreateIntermediateUnder, CreateRoot, CrossSignRoot, ImportHierarchy;
    StepKeeps(s.rows, e.op, e.now);
    if e.op.OpRenew? {
      assert Step(s.rows, e.op, e.now)[issuer].status == s.rows[issuer].status;
      assert Step(s.rows, e.op, e.now)[issuer].kind == s.rows[issuer].kind;
    } else if !e.op.OpRetire? {
      AddedAtTheEnd(s.rows, e.op, e.now);
      assert Step(s.rows, e.op, e.now)[issuer] == s.rows[issuer];
    }
  }

  lemma ChangesOfGrants(s: State, e: GrantEvent, at: nat, p: Principal, issuer: nat)
    requires !e.Change? && issuer < |s.rows|
    ensures Entitled(s, p, issuer) ==> (Entitled(GrantStep(s, e, at), p, issuer) <==> !Takes(s, e, p, issuer))
    ensures !Entitled(s, p, issuer) ==> (Entitled(GrantStep(s, e, at), p, issuer) <==> Gives(s, e, p, issuer))
  {
    hide ResolveGrantedIssuer, FirstBad;
  }

  /** Exactly when one event changes whether a principal is entitled to an issuer. */
  lemma EntitlementMovesExactly(s: State, e: GrantEvent, at: nat, p: Principal, issuer: nat)
    requires Inv(s.rows) && issuer < |s.rows| && s.rows[issuer].kind == Intermediate
    ensures Entitled(s, p, issuer) ==> (!Entitled(GrantStep(s, e, at), p, issuer) <==> Takes(s, e, p, issuer))
    ensures !Entitled(s, p, issuer) ==> (Entitled(GrantStep(s, e, at), p, issuer) <==> Gives(s, e, p, issuer))
  {
    hide Entitled, GrantStep, Inv, SetIssuers, Grant, Retire, RetiredWith;
    if e.Change? {
      ChangesOfRows(s, e, at, p, issuer);
    } else {
      ChangesOfGrants(s, e, at, p, issuer);
    }
  }

  /** Whatever it was before, after such an event the principal is not entitled. */
  lemma TakenIsGone(s: State, e: GrantEvent, at: nat, p: Principal, issuer: nat)
    requires Takes(s, e, p, issuer)
    ensures !Entitled(GrantStep(s, e, at), p, issuer)
  {
    hide FirstBad;
  }

  predicate TakenAt(events: seq<GrantEvent>, k: nat, p: Principal, issuer: nat)
    requires k < |events|
  {
    Takes(After(events[..k]), events[k], p, issuer)
  }

  predicate GivenAt(events: seq<GrantEvent>, k: nat, p: Principal, issuer: nat)
    requires k < |events|
  {
    Gives(After(events[..k]), events[k], p, issuer)
  }

  /** Between two moments the issuer was taken away and not given back since. */
  ghost predicate TakenForGood(events: seq<GrantEvent>, from: nat, until: nat, p: Principal, issuer: nat)
    requires from <= until <= |events|
  {
    exists k :: from <= k < until && TakenAt(events, k, p, issuer) && NotGivenSince(events, k + 1, until, p, issuer)
  }

  ghost predicate NotGivenSince(events: seq<GrantEvent>, from: nat, until: nat, p: Principal, issuer: nat)
    requires until <= |events|
  {
    forall j :: from <= j < until ==> !GivenAt(events, j, p, issuer)
  }

  /** A row that can be an issuer stays one that could. */
  lemma {:induction false} IssuerStays(events: seq<GrantEvent>, from: nat, until: nat, issuer: nat)
    requires from <= until <= |events|
    requires issuer < |After(events[..from]).rows| && After(events[..from]).rows[issuer].kind == Intermediate
    ensures Inv(After(events[..until]).rows)
    ensures issuer < |After(events[..until]).rows| && After(events[..until]).rows[issuer].kind == Intermediate
  {
    hide RowOk, Step, SetIssuers, Grant, ResolveGrantedIssuer;
    OnlyIntermediatesAreGranted(events[..until]);
    if from < until {
      IssuerStays(events, from, until - 1, issuer);
      assert events[..until][..until - 1] == events[..until - 1];
      var before, e := After(events[..until - 1]), events[until - 1];
      if e.Change? {
        StepKeeps(before.rows, e.op, e.now);
        assert SameRow(before.rows[issuer], Step(before.rows, e.op, e.now)[issuer]);
      }
    }
  }

  /** Exactly when an entitlement does not last from one moment of a run to another. */
  lemma {:induction false} EntitlementLastsExactly(events: seq<GrantEvent>, from: nat, until: nat, p: Principal, issuer: nat)
    requires from <= until <= |events| && EntitledAt(events, from, p, issuer)
    ensures EntitledAt(events, until, p, issuer) <==> !TakenForGood(events, from, until, p, issuer)
  {
    hide GrantStep, ActiveAndGranted, Takes, Gives, After, Inv;
    if from < until {
      var last := until - 1;
      EntitlementLastsExactly(events, from, last, p, issuer);
      NextMoment(events, from, last, p, issuer);
      if !EntitledAt(events, until, p, issuer) {
        if EntitledAt(events, last, p, issuer) {
          assert TakenAt(events, last, p, issuer) && NotGivenSince(events, last + 1, until, p, issuer);
        } else {
          var k :| from <= k < last && TakenAt(events, k, p, issuer) && NotGivenSince(events, k + 1, last, p, issuer);
          assert NotGivenSince(events, k + 1, until, p, issuer);
        }
      }
      if TakenForGood(events, from, until, p, issuer) {
        var k :| from <= k < until && TakenAt(events, k, p, issuer) && NotGivenSince(events, k + 1, until, p, issuer);
        if k < last {
          assert NotGivenSince(events, k + 1, last, p, issuer);
          assert !GivenAt(events, last, p, issuer);
        }
      }
    }
  }

  lemma NextMoment(events: seq<GrantEvent>, from: nat, at: nat, p: Principal, issuer: nat)
    requires from <= at < |events| && EntitledAt(events, from, p, issuer)
    ensures EntitledAt(events, at, p, issuer) ==> (!EntitledAt(events, at + 1, p, issuer) <==> TakenAt(events, at, p, issuer))
    ensures !EntitledAt(events, at, p, issuer) ==> (EntitledAt(events, at + 1, p, issuer) <==> GivenAt(events, at, p, issuer))
    ensures TakenAt(events, at, p, issuer) ==> !EntitledAt(events, at + 1, p, issuer)
  {
    hide GrantStep, Takes, Gives, Inv;
    assert events[..at + 1][..at] == events[..at];
    IssuerStays(events, from, at, issuer);
    EntitlementMovesExactly(After(events[..at]), events[at], at, p, issuer);
    if TakenAt(events, at, p, issuer) {
      TakenIsGone(After(events[..at]), events[at], at, p, issuer);
    }
  }

  /** The certificates of every run: the principal was entitled to the issuer when the
      request resolved it, and still was when the certificate was stored if and only
      if the issuer was not taken away in between, or was given back. */
  lemma GrantedWhenStored(events: seq<GrantEvent>, k: nat)
    requires k < |After(events).stored|
    ensures
      var c := After(events).stored[k];
      && c.resolvedAt < c.storedAt < |events|
      && EntitledAt(events, c.resolvedAt, c.principal, c.issuer)
      && (EntitledAt(events, c.storedAt, c.principal, c.issuer)
          <==> !TakenForGood(events, c.resolvedAt, c.storedAt, c.principal, c.issuer))
  {
    hide After, EntitledAt, TakenForGood;
    EveryCertificateWasGranted(events);
    var c := After(events).stored[k];
    EntitlementLastsExactly(events, c.resolvedAt, c.storedAt, c.principal, c.issuer);
  }

  /** The grant is withdrawn between the two steps of a request, and the certificate
      is stored all the same. */
  function WithdrawnInBetween(): seq<GrantEvent>
  {
    var operator := Principal(User(1), false);
    [Change(OpCreateRoot("R", 1, 1, 10), 0), Change(OpCreateIntermediate(0, "I", 2, 5, NameConstraints.NO_CONSTRAINTS), 0),
     Assign(User(1), [1]), Resolve(7, operator, Some(1)), Assign(User(1), []), Store(7)]
  }

  lemma {:induction false} OneMore(events: seq<GrantEvent>, e: GrantEvent)
    ensures After(events + [e]) == GrantStep(After(events), e, |events|)
  {
    assert (events + [e])[..|events|] == events;
  }

  lemma TwoRows()
    ensures
      var s := After(WithdrawnInBetween()[..2]);
      && |s.rows| == 2 && IsIssuer(s.rows[1]) && s.grants == map[] && s.pending == map[] && s.stored == []
  {
    var e := WithdrawnInBetween();
    assert e[..1] == [] + [e[0]] && e[..2] == e[..1] + [e[1]];
    OneMore([], e[0]);
    OneMore(e[..1], e[1]);
  }

  lemma StoredWithoutAGrant()
    ensures
      var events := WithdrawnInBetween();
      && After(events).stored == [Stored(Principal(User(1), false), 1, 3, 5)]
      && !EntitledAt(events, 5, Principal(User(1), false), 1)
  {
    var e := WithdrawnInBetween();
    hide After, Step;
    TwoRows();
    assert e[..3] == e[..2] + [e[2]] && e[..4] == e[..3] + [e[3]] && e[..5] == e[..4] + [e[4]] && e == e[..5] + [e[5]];
    OneMore(e[..2], e[2]);
    assert FirstBad(After(e[..2]).rows, [1]) == None by { assert [1][1..] == []; }
    assert Elements([1]) == {1} && Elements([]) == {};
    assert After(e[..3]).grants == map[User(1) := {1}];
    OneMore(e[..3], e[3]);
    assert After(e[..4]).pending == map[7 := Pending(Principal(User(1), false), 1, 3)];
    OneMore(e[..4], e[4]);
    assert After(e[..5]).grants == map[User(1) := {}];
    OneMore(e[..5], e[5]);
  }

  /** Only intermediates are ever granted, over every run. */
  lemma StepKeepsIntermediates(s: State, e: GrantEvent, at: nat)
    requires Inv(s.rows) && OnlyIntermediates(s.rows, s.grants)
    ensures Inv(GrantStep(s, e, at).rows) && OnlyIntermediates(GrantStep(s, e, at).rows, GrantStep(s, e, at).grants)
  {
    hide RowOk, Step, ResolveGrantedIssuer, FirstBad, Elements;
    if e.Change? {
      StepKeeps(s.rows, e.op, e.now);
      var after := Step(s.rows, e.op, e.now);
      forall i: Identity | i in s.grants ensures AllIntermediates(after, s.grants[i]) {
        assert AllIntermediates(s.rows, s.grants[i]);
        forall id | id in s.grants[i] ensures id < |after| && after[id].kind == Intermediate {
          assert SameRow(s.rows[id], after[id]);
        }
      }
    } else if e.Assign? && FirstBad(s.rows, e.ids) == None {
      FirstBadIsNone(s.rows, e.ids);
    }
  }

  lemma {:induction false} OnlyIntermediatesAreGranted(events: seq<GrantEvent>)
    ensures Inv(After(events).rows) && OnlyIntermediates(After(events).rows, After(events).grants)
  {
    hide GrantStep;
    if events != [] {
      OnlyIntermediatesAreGranted(events[..|events| - 1]);
      StepKeepsIntermediates(After(events[..|events| - 1]), events[|events| - 1], |events| - 1);
    }
  }
}
