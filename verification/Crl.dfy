/**
 Revocation and CRL publication, one call at a time (ca/crl.py).

 The certificate table is a sequence indexed by row id, so its order is the
 order in which the entries of a CRL are written.
 */
module Crl {
  import opened Prelude

  type IssuerId = nat

  /** Seconds. */
  type Time = int

  const CRL_VALIDITY: Time := 7 * 86400
  const CRL_MAX_AGE: Time := 3600

  datatype Reason = Unspecified | KeyCompromise | AffiliationChanged | Superseded | CessationOfOperation

  datatype Revocation = Revocation(date: Time, reason: Reason)

  datatype Row = Row(issuer: IssuerId, serial: nat, revoked: Option<Revocation>)

  datatype Entry = Entry(serial: nat, revocation: Revocation)

  /** The signed document; `number` also stands in the row that stores it. */
  datatype Document = Document(issuer: IssuerId, number: nat, thisUpdate: Time, nextUpdate: Time, entries: seq<Entry>)

  datatype CrlState = CrlState(number: nat, generatedAt: Time, document: Document)
  {
    function NextUpdate(): Time { generatedAt + CRL_VALIDITY }
  }

  datatype Tables = Tables(certs: seq<Row>, crls: map<IssuerId, CrlState>)

  datatype Error = UnknownCertificate | IssuerForbidden | NoUsableKey

  // ----- what a CRL must list ------------------------------------------------------

  function RevokedEntries(certs: seq<Row>, issuer: IssuerId): seq<Entry>
  {
    if certs == [] then []
    else
      var row := certs[|certs| - 1];
      RevokedEntries(certs[..|certs| - 1], issuer)
      + if row.issuer == issuer && row.revoked.Some? then [Entry(row.serial, row.revoked.value)] else []
  }

  /** A CRL lists an entry if and only if some revoked certificate of that issuer has it. */
  lemma {:induction false} ListedIffRevoked(certs: seq<Row>, issuer: IssuerId, e: Entry)
    ensures e in RevokedEntries(certs, issuer)
       <==> exists c :: 0 <= c < |certs| && certs[c] == Row(issuer, e.serial, Some(e.revocation))
  {
    if certs != [] {
      var last := |certs| - 1;
      ListedIffRevoked(certs[..last], issuer, e);
      if e in RevokedEntries(certs, issuer) {
        if e in RevokedEntries(certs[..last], issuer) {
          var c :| 0 <= c < last && certs[..last][c] == Row(issuer, e.serial, Some(e.revocation));
          assert certs[c] == Row(issuer, e.serial, Some(e.revocation));
        } else {
          assert certs[last] == Row(issuer, e.serial, Some(e.revocation));
        }
      }
      if c :| 0 <= c < |certs| && certs[c] == Row(issuer, e.serial, Some(e.revocation)) {
        if c < last {
          assert certs[..last][c] == Row(issuer, e.serial, Some(e.revocation));
        }
      }
    }
  }

  /** Marking a certificate of one issuer leaves what every other issuer must list. */
  lemma {:induction false} OtherIssuersUnaffected(certs: seq<Row>, c: nat, revoked: Option<Revocation>, other: IssuerId)
    requires c < |certs| && certs[c].issuer != other
    ensures RevokedEntries(certs[c := certs[c].(revoked := revoked)], other) == RevokedEntries(certs, other)
  {
    var after := certs[c := certs[c].(revoked := revoked)];
    var last := |certs| - 1;
    if c < last {
      assert after[..last] == certs[..last][c := certs[c].(revoked := revoked)];
      OtherIssuersUnaffected(certs[..last], c, revoked, other);
    } else {
      assert after[..last] == certs[..last];
    }
  }

  // ----- one call at a time --------------------------------------------------------

  function Number(tables: Tables, issuer: IssuerId): nat
  {
    if issuer in tables.crls then tables.crls[issuer].number else 0
  }

  function Build(certs: seq<Row>, issuer: IssuerId, number: nat, moment: Time): CrlState
  {
    CrlState(number, moment,
             Document(issuer, number, moment, moment + CRL_VALIDITY, RevokedEntries(certs, issuer)))
  }

  function Regenerate(tables: Tables, issuer: IssuerId, moment: Time): Tables
  {
    tables.(crls := tables.crls[issuer := Build(tables.certs, issuer, Number(tables, issuer) + 1, moment)])
  }

  function Mark(certs: seq<Row>, c: nat, revocation: Revocation): seq<Row>
    requires c < |certs|
  {
    certs[c := certs[c].(revoked := Some(revocation))]
  }

  /** What one whole call of `revoke_certificate` answers and leaves behind. */
  function Revoke(tables: Tables, c: nat, reason: Reason, granted: IssuerId -> bool, usable: IssuerId -> bool, moment: Time)
    : (Result<Row, Error>, Tables)
  {
    if c >= |tables.certs| then (Err(UnknownCertificate), tables)
    else
      var row := tables.certs[c];
      if !granted(row.issuer) then (Err(IssuerForbidden), tables)
      else if row.revoked.Some? then (Ok(row), tables)
      else if !usable(row.issuer) then (Err(NoUsableKey), tables)
      else
        var marked := tables.(certs := Mark(tables.certs, c, Revocation(moment, reason)));
        (Ok(marked.certs[c]), Regenerate(marked, row.issuer, moment))
  }

  /** Every stored CRL lists exactly its issuer's revoked certificates, and says
      the same number and the same validity as the row that stores it; an issuer
      without a CRL has nothing to list. */
  ghost predicate Consistent(tables: Tables)
  {
    && (forall i :: i in tables.crls ==>
          var s := tables.crls[i];
          s.document == Document(i, s.number, s.generatedAt, s.NextUpdate(), RevokedEntries(tables.certs, i)))
    && (forall i :: i in tables.crls ==> tables.crls[i].number > 0)
    && (forall i: IssuerId :: i !in tables.crls ==> RevokedEntries(tables.certs, i) == [])
  }

  /** Revoking publishes: the mark and the CRL that lists it land together or
      neither does; no other certificate's mark and no other issuer's row moves. */
  lemma RevokingPublishes(tables: Tables, c: nat, reason: Reason, granted: IssuerId -> bool, usable: IssuerId -> bool, moment: Time)
    requires Consistent(tables)
    ensures
      var (answer, after) := Revoke(tables, c, reason, granted, usable, moment);
      && (answer.Err? ==> after == tables)
      && (answer.Ok? ==>
            && after.certs[c] == answer.value && answer.value.revoked.Some?
            && answer.value.issuer in after.crls
            && Entry(answer.value.serial, answer.value.revoked.value) in after.crls[answer.value.issuer].document.entries)
      && (forall d :: 0 <= d < |tables.certs| && (d != c || tables.certs[d].revoked.Some?) ==> after.certs[d] == tables.certs[d])
      && (forall i :: i in tables.crls ==> i in after.crls && (after.crls[i] == tables.crls[i] || after.crls[i].number > tables.crls[i].number))
      && (forall i :: i in after.crls && (c < |tables.certs| ==> i != tables.certs[c].issuer) ==> i in tables.crls && after.crls[i] == tables.crls[i])
  {
    var (answer, after) := Revoke(tables, c, reason, granted, usable, moment);
    if answer.Ok? {
      var row := answer.value;
      ListedIffRevoked(after.certs, row.issuer, Entry(row.serial, row.revoked.value));
      assert after.certs[c] == Row(row.issuer, row.serial, Some(row.revoked.value));
    }
  }

  /** After every call, as before it, each CRL lists exactly what is revoked. */
  lemma RevokingKeepsConsistency(tables: Tables, c: nat, reason: Reason, granted: IssuerId -> bool, usable: IssuerId -> bool, moment: Time)
    requires Consistent(tables)
    ensures Consistent(Revoke(tables, c, reason, granted, usable, moment).1)
  {
    var after := Revoke(tables, c, reason, granted, usable, moment).1;
    if after != tables {
      forall other | other != tables.certs[c].issuer
        ensures RevokedEntries(after.certs, other) == RevokedEntries(tables.certs, other)
      {
        OtherIssuersUnaffected(tables.certs, c, Some(Revocation(moment, reason)), other);
      }
    }
  }

  /** Retrying a revocation that succeeded, with any reason and at any later
      time, succeeds without changing anything. */
  lemma RevokingTwiceIsRevokingOnce(tables: Tables, c: nat, granted: IssuerId -> bool, usable: IssuerId -> bool,
                                    r1: Reason, t1: Time, r2: Reason, t2: Time)
    requires Revoke(tables, c, r1, granted, usable, t1).0.Ok?
    ensures
      var (answer, once) := Revoke(tables, c, r1, granted, usable, t1);
      Revoke(once, c, r2, granted, i => false, t2) == (answer, once)
  {
  }

  // ----- the same operations on the tables in place --------------------------------

  class CrlStore {
    var certs: seq<Row>
    var crls: map<IssuerId, CrlState>

    ghost function Contents(): Tables
      reads this
    {
      Tables(certs, crls)
    }

    constructor ()
      ensures Contents() == Tables([], map[])
    {
      certs, crls := [], map[];
    }

    /** The WHERE and ORDER BY of `_revoked_entries`. */
    method ListRevoked(issuer: IssuerId) returns (entries: seq<Entry>)
      ensures entries == RevokedEntries(certs, issuer)
    {
      entries := [];
      for k := 0 to |certs|
        invariant entries == RevokedEntries(certs[..k], issuer)
      {
        assert certs[..k + 1][..k] == certs[..k];
        if certs[k].issuer == issuer {
          match certs[k].revoked
          case Some(revocation) => entries := entries + [Entry(certs[k].serial, revocation)];
          case None =>
        }
      }
      assert certs[..|certs|] == certs;
    }

    method RegenerateCrl(issuer: IssuerId, usable: bool, moment: Time) returns (result: Result<CrlState, Error>)
      modifies this
      ensures !usable ==> result == Err(NoUsableKey) && Contents() == old(Contents())
      ensures usable ==>
        && Contents() == Regenerate(old(Contents()), issuer, moment)
        && result == Ok(crls[issuer])
    {
      if !usable {
        return Err(NoUsableKey);
      }
      var number := 1;
      if issuer in crls {
        number := crls[issuer].number + 1;
      }
      var entries := ListRevoked(issuer);
      var state := CrlState(number, moment, Document(issuer, number, moment, moment + CRL_VALIDITY, entries));
      crls := crls[issuer := state];
      return Ok(state);
    }

    /** The CRL handed out outlives every cache it may sit in, and refreshing
        touches this issuer's row only. */
    method CurrentCrl(issuer: IssuerId, usable: bool, moment: Time) returns (result: Result<CrlState, Error>)
      requires Consistent(Contents())
      modifies this
      ensures Consistent(Contents())
      ensures certs == old(certs)
      ensures result.Ok? ==>
        && issuer in crls && result.value == crls[issuer]
        && moment + CRL_MAX_AGE < result.value.document.nextUpdate
        && result.value.document.entries == RevokedEntries(certs, issuer)
      ensures result.Err? <==> !usable && (issuer !in old(crls) || moment + CRL_MAX_AGE >= old(crls[issuer].document.nextUpdate))
      ensures result.Err? ==> crls == old(crls)
      ensures crls - {issuer} == old(crls) - {issuer}
      ensures issuer in old(crls) ==> issuer in crls && (crls[issuer] == old(crls[issuer]) || crls[issuer].number == old(crls[issuer].number) + 1)
    {
      if issuer !in crls || moment + CRL_MAX_AGE >= crls[issuer].NextUpdate() {
        result := RegenerateCrl(issuer, usable, moment);
      } else {
        result := Ok(crls[issuer]);
      }
    }

    method RevokeCertificate(c: nat, reason: Reason, granted: IssuerId -> bool, usable: IssuerId -> bool, moment: Time)
      returns (result: Result<Row, Error>)
      modifies this
      ensures (result, Contents()) == Revoke(old(Contents()), c, reason, granted, usable, moment)
      ensures Consistent(old(Contents())) ==> Consistent(Contents())
    {
      if Consistent(Contents()) {
        RevokingKeepsConsistency(Contents(), c, reason, granted, usable, moment);
      }
      if c >= |certs| {
        return Err(UnknownCertificate);
      }
      var row := certs[c];
      if !granted(row.issuer) {
        return Err(IssuerForbidden);
      }
      if row.revoked.Some? {
        return Ok(row);
      }
      var before := certs;
      row := row.(revoked := Some(Revocation(moment, reason)));
      certs := certs[c := row];
      var published := RegenerateCrl(row.issuer, usable(row.issuer), moment);
      match published {
        case Err(error) =>
          certs := before;
          return Err(error);
        case Ok(_) =>
          return Ok(row);
      }
    }
  }
}
