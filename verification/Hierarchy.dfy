/**
 The CA hierarchy (ca/service.py, ca/x509.py): certificates as records, the row
 table, and every operation that inserts or rewrites a row.

 An operation that is refused returns an error and leaves the table as it was.
 */
module Hierarchy {
  import opened Prelude
  import NameConstraints

  /** Seconds. */
  type Time = int

  type Key = nat

  const DAY: Time := 86400
  const YEAR: Time := 365 * DAY
  const BACKDATE: Time := 300

  // ----- certificates -----------------------------------------------------------------

  /** Cabin derives a key identifier from the key; an imported one may be anything. */
  datatype KeyIdentifier = OfKey(key: Key) | Other(bytes: nat)

  datatype Basic = Basic(ca: bool, pathLength: Option<nat>)

  datatype Constraints = Constraints(critical: bool, extension: NameConstraints.Extension)

  /** `signer` is the key that signed; `keyUsage` says whether certificates may be signed. */
  datatype Cert = Cert(
    subject: string, key: Key, issuer: string, signer: Key,
    notBefore: Time, notAfter: Time,
    basic: Option<Basic>, keyUsage: Option<bool>,
    ski: Option<KeyIdentifier>, aki: Option<KeyIdentifier>,
    constraints: Option<Constraints>)

  datatype Error =
    | UnknownCa | NotARoot | CannotCrossItself | NoKey | SameName | RowRetired | LastIssuer
    | AlreadyCrossed | PathLengthTooShort | MissingExtension | BadValidity
    | KeyMismatch | NotACa | NoCertSign | NotYetValid | Expired | ParentIsItself | NotIssuedByParent
    | NoMatchingRoot | SeveralMatchingRoots | KeyIdMismatch | ConstraintsMismatch

  predicate DirectlyIssuedBy(cert: Cert, parent: Cert)
  {
    cert.issuer == parent.subject && cert.signer == parent.key
  }

  predicate SameCa(a: Cert, b: Cert)
  {
    a.subject == b.subject && a.key == b.key
  }

  predicate ValidAt(cert: Cert, now: Time)
  {
    cert.notBefore <= now <= cert.notAfter
  }

  /** What anything signed under this certificate names as its authority key. */
  function KeyIdOf(cert: Cert): KeyIdentifier
  {
    if cert.ski.Some? then cert.ski.value else OfKey(cert.key)
  }

  function Min(a: Time, b: Time): Time
  {
    if a <= b then a else b
  }

  /** The certificate builder refuses an end before the start. */
  function Dated(cert: Cert): Result<Cert, Error>
  {
    if cert.notAfter < cert.notBefore then Err(BadValidity) else Ok(cert)
  }

  function SelfSign(subject: string, key: Key, pathLength: nat, years: int, now: Time): Result<Cert, Error>
  {
    Dated(Cert(subject, key, subject, key, now - BACKDATE, now + YEAR * years,
               Some(Basic(true, Some(pathLength))), Some(true), Some(OfKey(key)), None, None))
  }

  function SignIntermediate(root: Cert, rootKey: Key, subject: string, key: Key, years: int,
                            constraints: Option<NameConstraints.Extension>, now: Time): Result<Cert, Error>
  {
    if root.ski.None? then Err(MissingExtension)
    else
      var critical := if constraints.Some? then Some(Constraints(true, constraints.value)) else None;
      Dated(Cert(subject, key, root.subject, rootKey, now - BACKDATE, Min(now + YEAR * years, root.notAfter),
                 Some(Basic(true, Some(0))), Some(true), Some(OfKey(key)), root.ski, critical))
  }

  /** The same key, subject and extensions under the parent's name and key. */
  function Resign(cert: Cert, parent: Cert, parentKey: Key, years: int, now: Time): Result<Cert, Error>
  {
    if cert.ski.None? || cert.basic.None? || cert.keyUsage.None? then Err(MissingExtension)
    else
      var aki := if cert.aki.Some? then Some(KeyIdOf(parent)) else None;
      Dated(Cert(cert.subject, cert.key, parent.subject, parentKey, now - BACKDATE, now + YEAR * years,
                 cert.basic, cert.keyUsage, cert.ski, aki, cert.constraints))
  }

  /** A second certificate for the subject's name and key. */
  function CrossCertificate(subject: Cert, issuer: Cert, issuerKey: Key, years: int, now: Time): Result<Cert, Error>
  {
    if subject.ski.None? || subject.basic.None? || subject.keyUsage.None? then Err(MissingExtension)
    else
      Dated(Cert(subject.subject, subject.key, issuer.subject, issuerKey, now - BACKDATE, Min(now + YEAR * years, issuer.notAfter),
                 subject.basic, subject.keyUsage, subject.ski, Some(KeyIdOf(issuer)), subject.constraints))
  }

  function CrossPathLengthError(subject: Cert, issuer: Cert): Option<Error>
  {
    if issuer.basic.None? then Some(MissingExtension)
    else if issuer.basic.value.pathLength.Some? && issuer.basic.value.pathLength.value < 2 then Some(PathLengthTooShort)
    else if subject.basic.None? then Some(MissingExtension)
    else if subject.basic.value.pathLength.Some? && subject.basic.value.pathLength.value < 1 then Some(PathLengthTooShort)
    else None
  }

  function CaProblem(cert: Cert, now: Time): Option<Error>
  {
    if cert.basic.None? || !cert.basic.value.ca then Some(NotACa)
    else if cert.keyUsage != Some(true) then Some(NoCertSign)
    else if now < cert.notBefore then Some(NotYetValid)
    else if now > cert.notAfter then Some(Expired)
    else None
  }

  function ImportProblem(cert: Cert, key: Key, parent: Cert, now: Time): Option<Error>
  {
    if key != cert.key then Some(KeyMismatch)
    else if CaProblem(cert, now).Some? then CaProblem(cert, now)
    else if SameCa(parent, cert) then Some(ParentIsItself)
    else if !DirectlyIssuedBy(cert, parent) then Some(NotIssuedByParent)
    else None
  }

  function CrossProblem(cross: Cert, subject: Cert, issuer: Cert, now: Time): Option<Error>
  {
    if !SameCa(cross, subject) then Some(KeyMismatch)
    else if !DirectlyIssuedBy(cross, issuer) then Some(NotIssuedByParent)
    else if cross.ski.None? || subject.ski.None? || cross.ski != subject.ski then Some(KeyIdMismatch)
    else if CaProblem(cross, now).Some? then CaProblem(cross, now)
    else if CrossPathLengthError(subject, issuer).Some? then CrossPathLengthError(subject, issuer)
    else if cross.constraints != subject.constraints then Some(ConstraintsMismatch)
    else None
  }

  // ----- rows --------------------------------------------------------------------------

  datatype Kind = Root | Intermediate | Cross

  datatype Status = Active | Retired

  /** Where a row came from: history, which the table itself does not record. */
  datatype Origin = MadeHere | Imported

  datatype Row = Row(kind: Kind, parent: Option<nat>, crossOf: Option<nat>, status: Status, cert: Cert, key: Option<Key>, origin: Origin)

  /** A row's position is its id: ids rise and rows are never deleted. */
  type Rows = seq<Row>

  function CreateRoot(rows: Rows, name: string, key: Key, pathLength: nat, years: int, now: Time): Result<Rows, Error>
  {
    match SelfSign(name, key, pathLength, years, now)
    case Err(error) => Err(error)
    case Ok(cert) => Ok(rows + [Row(Root, None, None, Active, cert, Some(key), MadeHere)])
  }

  function CreateIntermediateUnder(rows: Rows, root: nat, name: string, key: Key, years: int, spec: NameConstraints.Spec, now: Time): Result<Rows, Error>
  {
    if root >= |rows| then Err(UnknownCa)
    else if rows[root].kind != Root then Err(NotARoot)
    else if rows[root].key.None? then Err(NoKey)
    else if rows[root].cert.subject == name then Err(SameName)
    else
      match SignIntermediate(rows[root].cert, rows[root].key.value, name, key, years, NameConstraints.ExtensionOf(spec), now)
      case Err(error) => Err(error)
      case Ok(cert) => Ok(rows + [Row(Intermediate, Some(root), None, Active, cert, Some(key), MadeHere)])
  }

  function ImportHierarchy(rows: Rows, cert: Cert, key: Key, parent: Cert, now: Time): Result<Rows, Error>
  {
    match ImportProblem(cert, key, parent, now)
    case Some(error) => Err(error)
    case None =>
      Ok(rows + [Row(Root, None, None, Active, parent, None, Imported),
                 Row(Intermediate, Some(|rows|), None, Active, cert, Some(key), Imported)])
  }

  predicate Crosses(row: Row, ca: nat, signingRoot: nat)
  {
    row.crossOf == Some(ca) && row.parent == Some(signingRoot) && row.status == Active
  }

  predicate HasCross(rows: Rows, ca: nat, signingRoot: nat)
  {
    exists i :: 0 <= i < |rows| && Crosses(rows[i], ca, signingRoot)
  }

  function CrossSignRoot(rows: Rows, ca: nat, signingRoot: nat, years: int, now: Time): Result<Rows, Error>
  {
    if ca >= |rows| then Err(UnknownCa)
    else if rows[ca].kind != Root then Err(NotARoot)
    else if signingRoot >= |rows| then Err(UnknownCa)
    else if rows[signingRoot].kind != Root then Err(NotARoot)
    else if signingRoot == ca then Err(CannotCrossItself)
    else if rows[signingRoot].key.None? then Err(NoKey)
    else
      var subject, issuer := rows[ca].cert, rows[signingRoot].cert;
      if CrossPathLengthError(subject, issuer).Some? then Err(CrossPathLengthError(subject, issuer).value)
      else if HasCross(rows, ca, signingRoot) then Err(AlreadyCrossed)
      else
        match CrossCertificate(subject, issuer, rows[signingRoot].key.value, years, now)
        case Err(error) => Err(error)
        case Ok(cert) => Ok(rows + [Row(Cross, Some(signingRoot), Some(ca), Active, cert, None, MadeHere)])
  }

  /** The roots that are the same CA as this certificate, in id order. */
  function MatchingRoots(rows: Rows, cert: Cert): (ids: seq<nat>)
    ensures forall k :: 0 <= k < |ids| ==> ids[k] < |rows| && rows[ids[k]].kind == Root && SameCa(rows[ids[k]].cert, cert)
  {
    if rows == [] then []
    else
      var last := |rows| - 1;
      MatchingRoots(rows[..last], cert) + if rows[last].kind == Root && SameCa(rows[last].cert, cert) then [last] else []
  }

  function Without(ids: seq<nat>, id: nat): (r: seq<nat>)
    ensures forall k :: 0 <= k < |r| ==> r[k] in ids && r[k] != id
  {
    if ids == [] then [] else (if ids[0] == id then [] else [ids[0]]) + Without(ids[1..], id)
  }

  function ImportCross(rows: Rows, cross: Cert, issuer: Cert, now: Time): Result<Rows, Error>
  {
    var subjects := MatchingRoots(rows, cross);
    if subjects == [] then Err(NoMatchingRoot)
    else if |subjects| > 1 then Err(SeveralMatchingRoots)
    else
      var subject := subjects[0];
      match CrossProblem(cross, rows[subject].cert, issuer, now)
      case Some(error) => Err(error)
      case None =>
        var signing := Without(MatchingRoots(rows, issuer), subject);
        if signing != [] then
          Ok(rows + [Row(Cross, Some(signing[0]), Some(subject), Active, cross, None, Imported)])
        else
          Ok(rows + [Row(Root, None, None, Active, issuer, None, Imported),
                     Row(Cross, Some(|rows|), Some(subject), Active, cross, None, Imported)])
  }

  /** A root takes down every row it signed: intermediates, and cross rows too. */
  predicate RetiredWith(rows: Rows, id: nat, i: nat)
    requires id < |rows| && i < |rows|
  {
    i == id || (rows[id].kind == Root && rows[i].parent == Some(id))
  }

  predicate IsIssuer(row: Row)
  {
    row.kind == Intermediate && row.status == Active
  }

  function Retire(rows: Rows, id: nat): Result<Rows, Error>
  {
    if id >= |rows| then Err(UnknownCa)
    else if rows[id].status == Retired then Ok(rows)
    else if forall i :: 0 <= i < |rows| && IsIssuer(rows[i]) ==> RetiredWith(rows, id, i) then Err(LastIssuer)
    else Ok(seq(|rows|, i requires 0 <= i < |rows| => if RetiredWith(rows, id, i) then rows[i].(status := Retired) else rows[i]))
  }

  /** Whole years of 365 whole days that still end by the deadline; both roundings go down. */
  function YearsUntil(deadline: Time, years: int, now: Time): int
  {
    Min(years, ((deadline - now) / DAY) / 365)
  }

  function RenewInPlace(rows: Rows, id: nat, years: int, now: Time): Result<Rows, Error>
  {
    if id >= |rows| then Err(UnknownCa)
    else if rows[id].status == Retired then Err(RowRetired)
    else
      var row := rows[id];
      var parent := if row.kind == Root then Some(id) else row.parent;
      if parent.None? || parent.value >= |rows| || rows[parent.value].key.None? then Err(NoKey)
      else
        var signer := rows[parent.value];
        var effective := if row.kind == Root then years else YearsUntil(signer.cert.notAfter, years, now);
        match Resign(row.cert, signer.cert, signer.key.value, effective, now)
        case Err(error) => Err(error)
        case Ok(cert) => Ok(rows[id := row.(cert := cert)])
  }

  // ----- runs ---------------------------------------------------------------------------

  datatype Op =
    | OpCreateRoot(name: string, key: Key, pathLength: nat, years: int)
    | OpCreateIntermediate(root: nat, name: string, key: Key, years: int, spec: NameConstraints.Spec)
    | OpImportHierarchy(cert: Cert, key: Key, issuer: Cert)
    | OpCrossSign(ca: nat, signingRoot: nat, years: int)
    | OpImportCross(cert: Cert, issuer: Cert)
    | OpRetire(id: nat)
    | OpRenew(id: nat, years: int)

  function Apply(rows: Rows, op: Op, now: Time): Result<Rows, Error>
  {
    match op
    case OpCreateRoot(name, key, pathLength, years) => CreateRoot(rows, name, key, pathLength, years, now)
    case OpCreateIntermediate(root, name, key, years, spec) => CreateIntermediateUnder(rows, root, name, key, years, spec, now)
    case OpImportHierarchy(cert, key, parent) => ImportHierarchy(rows, cert, key, parent, now)
    case OpCrossSign(ca, signingRoot, years) => CrossSignRoot(rows, ca, signingRoot, years, now)
    case OpImportCross(cert, issuer) => ImportCross(rows, cert, issuer, now)
    case OpRetire(id) => Retire(rows, id)
    case OpRenew(id, years) => RenewInPlace(rows, id, years, now)
  }

  function Step(rows: Rows, op: Op, now: Time): Rows
  {
    match Apply(rows, op, now) case Ok(after) => after case Err(_) => rows
  }

  // ----- what every operation keeps -------------------------------------------------------

  /** One row against the rows it refers to. Parents are roots with a smaller id, so
      no cross row is ever a parent and walking upwards ends. */
  ghost predicate RowOk(rows: Rows, i: nat)
    requires i < |rows|
  {
    var row := rows[i];
    && (row.key.Some? ==> row.key.value == row.cert.key)
    && (row.kind == Root ==>
          && row.parent == None && row.crossOf == None
          && (row.key.Some? ==> DirectlyIssuedBy(row.cert, row.cert))
          && (row.origin == MadeHere ==> row.cert.aki == None))
    && (row.kind != Root ==>
          && row.parent.Some? && row.parent.value < i
          && rows[row.parent.value].kind == Root
          && DirectlyIssuedBy(row.cert, rows[row.parent.value].cert)
          && (row.origin == MadeHere ==> row.cert.aki == Some(KeyIdOf(rows[row.parent.value].cert))))
    && (row.kind == Intermediate ==> row.crossOf == None && row.key.Some?)
    && (row.kind == Cross ==> CrossOk(rows, i))
  }

  ghost predicate CrossOk(rows: Rows, i: nat)
    requires i < |rows|
  {
    var row := rows[i];
    && row.key == None && row.parent.Some? && row.parent.value < |rows|
    && row.crossOf.Some? && row.crossOf.value < |rows| && row.crossOf != row.parent
    && rows[row.crossOf.value].kind == Root
    && SameCa(row.cert, rows[row.crossOf.value].cert)
    && row.cert.ski == rows[row.crossOf.value].cert.ski
    && row.cert.constraints == rows[row.crossOf.value].cert.constraints
    && (row.origin == MadeHere ==>
          && row.cert.basic == rows[row.crossOf.value].cert.basic
          && CrossPathLengthError(row.cert, rows[row.parent.value].cert) == None)
  }

  ghost predicate Inv(rows: Rows)
  {
    forall i :: 0 <= i < |rows| ==> RowOk(rows, i)
  }

  /** What a row is for everybody who was signed under it: only its dates and its
      status may still move, and the authority key identifier of an imported one. */
  predicate SameRow(a: Row, b: Row)
  {
    && (a.kind, a.parent, a.crossOf, a.key, a.origin) == (b.kind, b.parent, b.crossOf, b.key, b.origin)
    && b.cert == a.cert.(notBefore := b.cert.notBefore, notAfter := b.cert.notAfter,
                           aki := if a.origin == MadeHere then a.cert.aki else b.cert.aki)
    && (a.status == Retired ==> b.status == Retired)
  }

  ghost predicate Keeps(before: Rows, after: Rows)
  {
    |before| <= |after| && forall i :: 0 <= i < |before| ==> SameRow(before[i], after[i])
  }

  lemma RowStaysOk(before: Rows, after: Rows, i: nat)
    requires Inv(before) && Keeps(before, after) && i < |before|
    ensures RowOk(after, i)
  {
    assert RowOk(before, i);
    assert SameRow(before[i], after[i]);
  }

  /** Adding rows that are in order keeps everything in order. */
  lemma AddingKeeps(before: Rows, added: Rows)
    requires Inv(before)
    requires forall i :: |before| <= i < |before + added| ==> RowOk(before + added, i)
    ensures Inv(before + added) && Keeps(before, before + added)
  {
    hide RowOk;
    forall i | 0 <= i < |before| ensures RowOk(before + added, i) {
      RowStaysOk(before, before + added, i);
    }
  }

  lemma CreateIntermediateKeeps(rows: Rows, op: Op, now: Time)
    requires Inv(rows) && op.OpCreateIntermediate?
    ensures Inv(Step(rows, op, now)) && Keeps(rows, Step(rows, op, now))
  {
    var after := Step(rows, op, now);
    if after != rows {
      assert RowOk(rows, op.root);
      AddingKeeps(rows, after[|rows|..]);
    }
  }

  lemma ImportHierarchyKeeps(rows: Rows, op: Op, now: Time)
    requires Inv(rows) && op.OpImportHierarchy?
    ensures Inv(Step(rows, op, now)) && Keeps(rows, Step(rows, op, now))
  {
    var after := Step(rows, op, now);
    if after != rows {
      AddingKeeps(rows, [Row(Root, None, None, Active, op.issuer, None, Imported),
                         Row(Intermediate, Some(|rows|), None, Active, op.cert, Some(op.key), Imported)]);
    }
  }

  lemma CrossSignKeeps(rows: Rows, op: Op, now: Time)
    requires Inv(rows) && op.OpCrossSign?
    ensures Inv(Step(rows, op, now)) && Keeps(rows, Step(rows, op, now))
  {
    hide HasCross;
    var after := Step(rows, op, now);
    if after != rows {
      assert RowOk(rows, op.signingRoot) && RowOk(rows, op.ca);
      AddingKeeps(rows, after[|rows|..]);
    }
  }

  /** The row a cross import adds, under a signing root at `parent`. */
  lemma ImportedCrossIsOk(rows: Rows, more: Rows, subject: nat, parent: nat, cross: Cert, issuer: Cert, now: Time)
    requires subject < |rows| && rows[subject].kind == Root && parent < |rows + more| && parent != subject
    requires (rows + more)[parent].kind == Root && SameCa((rows + more)[parent].cert, issuer)
    requires CrossProblem(cross, rows[subject].cert, issuer, now) == None
    ensures
      var row := Row(Cross, Some(parent), Some(subject), Active, cross, None, Imported);
      RowOk(rows + more + [row], |rows + more|)
  {
  }

  /** A cross import under a signing root that is already there. */
  lemma CrossUnderOldRoot(rows: Rows, subject: nat, signing: nat, cross: Cert, issuer: Cert, now: Time)
    requires Inv(rows) && subject < |rows| && signing < |rows| && signing != subject
    requires rows[subject].kind == Root && rows[signing].kind == Root && SameCa(rows[signing].cert, issuer)
    requires CrossProblem(cross, rows[subject].cert, issuer, now) == None
    ensures
      var after := rows + [Row(Cross, Some(signing), Some(subject), Active, cross, None, Imported)];
      Inv(after) && Keeps(rows, after)
  {
    hide CrossProblem, Inv, Keeps, SameCa, RowOk;
    var row := Row(Cross, Some(signing), Some(subject), Active, cross, None, Imported);
    assert rows + [] == rows;
    ImportedCrossIsOk(rows, [], subject, signing, cross, issuer, now);
    AddingKeeps(rows, [row]);
  }

  /** A cross import that brings its signing root along. */
  lemma CrossUnderNewRoot(rows: Rows, subject: nat, cross: Cert, issuer: Cert, now: Time)
    requires Inv(rows) && subject < |rows| && rows[subject].kind == Root
    requires CrossProblem(cross, rows[subject].cert, issuer, now) == None
    ensures
      var after := rows + [Row(Root, None, None, Active, issuer, None, Imported),
                           Row(Cross, Some(|rows|), Some(subject), Active, cross, None, Imported)];
      Inv(after) && Keeps(rows, after)
  {
    hide CrossProblem, Inv, Keeps, SameCa, RowOk;
    var root := Row(Root, None, None, Active, issuer, None, Imported);
    var row := Row(Cross, Some(|rows|), Some(subject), Active, cross, None, Imported);
    ItselfIsSame(issuer);
    ImportedCrossIsOk(rows, [root], subject, |rows|, cross, issuer, now);
    assert rows + [root] + [row] == rows + [root, row];
    ImportedRootIsOk(rows, issuer, row);
    AddingKeeps(rows, [root, row]);
  }

  lemma ImportedRootIsOk(rows: Rows, issuer: Cert, row: Row)
    ensures RowOk(rows + [Row(Root, None, None, Active, issuer, None, Imported), row], |rows|)
  {
  }

  lemma ImportCrossKeeps(rows: Rows, op: Op, now: Time)
    requires Inv(rows) && op.OpImportCross?
    ensures Inv(Step(rows, op, now)) && Keeps(rows, Step(rows, op, now))
  {
    hide CrossProblem, Inv, Keeps, SameCa, MatchingRoots, Without;
    if Step(rows, op, now) == rows {
      KeepsItself(rows);
    } else {
      var subject := MatchingRoots(rows, op.cert)[0];
      var signing := Without(MatchingRoots(rows, op.issuer), subject);
      if signing != [] {
        assert signing[0] in MatchingRoots(rows, op.issuer);
        CrossUnderOldRoot(rows, subject, signing[0], op.cert, op.issuer, now);
      } else {
        CrossUnderNewRoot(rows, subject, op.cert, op.issuer, now);
      }
    }
  }

  lemma KeepsItself(rows: Rows)
    ensures Keeps(rows, rows)
  {
  }

  lemma ItselfIsSame(cert: Cert)
    ensures SameCa(cert, cert)
  {
  }

  lemma RenewKeeps(rows: Rows, op: Op, now: Time)
    requires Inv(rows) && op.OpRenew?
    ensures Inv(Step(rows, op, now)) && Keeps(rows, Step(rows, op, now))
  {
    hide YearsUntil;
    var after := Step(rows, op, now);
    if after != rows {
      assert RowOk(rows, op.id);
      if rows[op.id].kind != Root {
        assert RowOk(rows, rows[op.id].parent.value);
      }
      assert Keeps(rows, after);
      forall i | 0 <= i < |rows| ensures RowOk(after, i) {
        RowStaysOk(rows, after, i);
      }
    }
  }

  lemma RetireKeeps(rows: Rows, op: Op, now: Time)
    requires Inv(rows) && op.OpRetire?
    ensures Inv(Step(rows, op, now)) && Keeps(rows, Step(rows, op, now))
  {
    var after := Step(rows, op, now);
    assert Keeps(rows, after);
    forall i | 0 <= i < |rows| ensures RowOk(after, i) {
      RowStaysOk(rows, after, i);
    }
  }

  /** Every operation keeps the table in order and what each row stands for. */
  lemma StepKeeps(rows: Rows, op: Op, now: Time)
    requires Inv(rows)
    ensures Inv(Step(rows, op, now)) && Keeps(rows, Step(rows, op, now))
  {
    hide Inv, Keeps, Step;
    match op
    case OpCreateRoot(_, _, _, _) => CreateRootKeeps(rows, op, now);
    case OpCreateIntermediate(_, _, _, _, _) => CreateIntermediateKeeps(rows, op, now);
    case OpImportHierarchy(_, _, _) => ImportHierarchyKeeps(rows, op, now);
    case OpCrossSign(_, _, _) => CrossSignKeeps(rows, op, now);
    case OpImportCross(_, _) => ImportCrossKeeps(rows, op, now);
    case OpRetire(_) => RetireKeeps(rows, op, now);
    case OpRenew(_, _) => RenewKeeps(rows, op, now);
  }

  lemma CreateRootKeeps(rows: Rows, op: Op, now: Time)
    requires Inv(rows) && op.OpCreateRoot?
    ensures Inv(Step(rows, op, now)) && Keeps(rows, Step(rows, op, now))
  {
    var after := Step(rows, op, now);
    if after != rows {
      AddingKeeps(rows, after[|rows|..]);
    }
  }
}
