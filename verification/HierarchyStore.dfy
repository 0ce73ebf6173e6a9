/**
 The CA table in place: the operations of ca/service.py as they insert rows, set
 a status or replace a certificate, and the two loops that build chains.
 */
module HierarchyStore {
  import opened Prelude
  import opened Hierarchy
  import opened Chains
  import NameConstraints

  class CaService {
    var rows: Rows

    constructor ()
      ensures rows == []
    {
      rows := [];
    }

    method AddRoot(name: string, key: Key, pathLength: nat, years: int, now: Time) returns (result: Result<nat, Error>)
      modifies this
      ensures match CreateRoot(old(rows), name, key, pathLength, years, now)
              case Ok(after) => rows == after && result == Ok(|old(rows)|)
              case Err(error) => rows == old(rows) && result == Err(error)
    {
      var signed := SelfSign(name, key, pathLength, years, now);
      match signed {
        case Err(error) => return Err(error);
        case Ok(cert) =>
          rows := rows + [Row(Root, None, None, Active, cert, Some(key), MadeHere)];
          return Ok(|rows| - 1);
      }
    }

    method AddIntermediateUnder(root: nat, name: string, key: Key, years: int, spec: NameConstraints.Spec, now: Time)
      returns (result: Result<nat, Error>)
      modifies this
      ensures match CreateIntermediateUnder(old(rows), root, name, key, years, spec, now)
              case Ok(after) => rows == after && result == Ok(|old(rows)|)
              case Err(error) => rows == old(rows) && result == Err(error)
    {
      if root >= |rows| {
        return Err(UnknownCa);
      }
      var parent := rows[root];
      if parent.kind != Root {
        return Err(NotARoot);
      }
      if parent.key == None {
        return Err(NoKey);
      }
      if parent.cert.subject == name {
        return Err(SameName);
      }
      var signed := SignIntermediate(parent.cert, parent.key.value, name, key, years, NameConstraints.ExtensionOf(spec), now);
      match signed {
        case Err(error) => return Err(error);
        case Ok(cert) =>
          rows := rows + [Row(Intermediate, Some(root), None, Active, cert, Some(key), MadeHere)];
          return Ok(|rows| - 1);
      }
    }

    /** The root is flushed first so that the intermediate can name its id. */
    method AddImportedHierarchy(cert: Cert, key: Key, parent: Cert, now: Time) returns (result: Result<nat, Error>)
      modifies this
      ensures match ImportHierarchy(old(rows), cert, key, parent, now)
              case Ok(after) => rows == after && result == Ok(|old(rows)| + 1)
              case Err(error) => rows == old(rows) && result == Err(error)
    {
      var problem := ImportProblem(cert, key, parent, now);
      if problem.Some? {
        return Err(problem.value);
      }
      rows := rows + [Row(Root, None, None, Active, parent, None, Imported)];
      var root := |rows| - 1;
      rows := rows + [Row(Intermediate, Some(root), None, Active, cert, Some(key), Imported)];
      return Ok(|rows| - 1);
    }

    method AddCross(ca: nat, signingRoot: nat, years: int, now: Time) returns (result: Result<nat, Error>)
      modifies this
      ensures match CrossSignRoot(old(rows), ca, signingRoot, years, now)
              case Ok(after) => rows == after && result == Ok(|old(rows)|)
              case Err(error) => rows == old(rows) && result == Err(error)
    {
      if ca >= |rows| || (rows[ca].kind == Root && signingRoot >= |rows|) {
        return Err(UnknownCa);
      }
      if rows[ca].kind != Root || rows[signingRoot].kind != Root {
        return Err(NotARoot);
      }
      if signingRoot == ca {
        return Err(CannotCrossItself);
      }
      if rows[signingRoot].key == None {
        return Err(NoKey);
      }
      var subject, issuer := rows[ca].cert, rows[signingRoot].cert;
      var problem := CrossPathLengthError(subject, issuer);
      if problem.Some? {
        return Err(problem.value);
      }
      for i := 0 to |rows|
        invariant forall j :: 0 <= j < i ==> !Crosses(rows[j], ca, signingRoot)
      {
        if Crosses(rows[i], ca, signingRoot) {
          return Err(AlreadyCrossed);
        }
      }
      var signed := CrossCertificate(subject, issuer, rows[signingRoot].key.value, years, now);
      match signed {
        case Err(error) => return Err(error);
        case Ok(cert) =>
          rows := rows + [Row(Cross, Some(signingRoot), Some(ca), Active, cert, None, MadeHere)];
          return Ok(|rows| - 1);
      }
    }

    method ListMatchingRoots(cert: Cert) returns (ids: seq<nat>)
      ensures ids == MatchingRoots(rows, cert)
    {
      ids := [];
      for i := 0 to |rows|
        invariant ids == MatchingRoots(rows[..i], cert)
      {
        assert rows[..i + 1][..i] == rows[..i];
        if rows[i].kind == Root && SameCa(rows[i].cert, cert) {
          ids := ids + [i];
        }
      }
      assert rows[..|rows|] == rows;
    }

    method AddImportedCross(cross: Cert, issuer: Cert, now: Time) returns (result: Result<nat, Error>)
      modifies this
      ensures match ImportCross(old(rows), cross, issuer, now)
              case Ok(after) => rows == after && result == Ok(|after| - 1)
              case Err(error) => rows == old(rows) && result == Err(error)
    {
      hide CrossProblem, MatchingRoots, Without, SameCa;
      var subjects := ListMatchingRoots(cross);
      if subjects == [] {
        return Err(NoMatchingRoot);
      }
      if |subjects| > 1 {
        return Err(SeveralMatchingRoots);
      }
      var subject := subjects[0];
      var problem := CrossProblem(cross, rows[subject].cert, issuer, now);
      if problem.Some? {
        return Err(problem.value);
      }
      var signers := ListMatchingRoots(issuer);
      signers := Without(signers, subject);
      var signing := |rows|;
      if signers != [] {
        signing := signers[0];
      } else {
        rows := rows + [Row(Root, None, None, Active, issuer, None, Imported)];
      }
      rows := rows + [Row(Cross, Some(signing), Some(subject), Active, cross, None, Imported)];
      return Ok(|rows| - 1);
    }

    method RetireCa(id: nat) returns (result: Result<(), Error>)
      modifies this
      ensures match Retire(old(rows), id)
              case Ok(after) => rows == after && result == Ok(())
              case Err(error) => rows == old(rows) && result == Err(error)
    {
      if id >= |rows| {
        return Err(UnknownCa);
      }
      if rows[id].status == Retired {
        return Ok(());
      }
      var remaining := false;
      for i := 0 to |rows|
        invariant remaining <==> exists j :: 0 <= j < i && IsIssuer(rows[j]) && !RetiredWith(rows, id, j)
      {
        if IsIssuer(rows[i]) && !RetiredWith(rows, id, i) {
          remaining := true;
        }
      }
      if !remaining {
        return Err(LastIssuer);
      }
      var before := rows;
      for i := 0 to |before|
        invariant |rows| == |before|
        invariant forall j :: 0 <= j < |before| ==>
                    rows[j] == if j < i && RetiredWith(before, id, j) then before[j].(status := Retired) else before[j]
      {
        if RetiredWith(before, id, i) {
          rows := rows[i := rows[i].(status := Retired)];
        }
      }
      return Ok(());
    }

    method Renew(id: nat, years: int, now: Time) returns (result: Result<Cert, Error>)
      modifies this
      ensures match RenewInPlace(old(rows), id, years, now)
              case Ok(after) => rows == after && result == Ok(rows[id].cert)
              case Err(error) => rows == old(rows) && result == Err(error)
    {
      if id >= |rows| {
        return Err(UnknownCa);
      }
      var row := rows[id];
      if row.status == Retired {
        return Err(RowRetired);
      }
      var parent := row;
      var effective := years;
      if row.kind != Root {
        if row.parent == None || row.parent.value >= |rows| {
          return Err(NoKey);
        }
        parent := rows[row.parent.value];
        effective := YearsUntil(parent.cert.notAfter, years, now);
      }
      if parent.key == None {
        return Err(NoKey);
      }
      var signed := Resign(row.cert, parent.cert, parent.key.value, effective, now);
      match signed {
        case Err(error) => return Err(error);
        case Ok(cert) =>
          rows := rows[id := row.(cert := cert)];
          return Ok(cert);
      }
    }

    /** Upwards from a row, appending until there is no parent. */
    method WalkUp(id: nat) returns (walk: seq<nat>)
      requires Grounded(rows) && id < |rows|
      ensures walk == ParentWalk(rows, id)
    {
      walk := [id];
      var last: nat := id;
      while rows[last].parent != None
        invariant last < |rows| && walk + ParentWalk(rows, last)[1..] == ParentWalk(rows, id)
        decreases last
      {
        last := rows[last].parent.value;
        walk := walk + [last];
      }
    }

    /** A cross row and the walk above it. */
    method WalkThrough(cross: nat) returns (walk: seq<nat>)
      requires Grounded(rows) && cross < |rows|
      ensures walk == CrossWalk(rows, cross)
    {
      walk := [cross];
      if rows[cross].parent != None {
        var signing := WalkUp(rows[cross].parent.value);
        walk := walk + signing;
      }
    }

    /** One path for each active cross row of `top` whose rows are all valid now. */
    method ListAlternates(top: nat, below: seq<nat>, now: Time) returns (surviving: seq<Chain>)
      requires Grounded(rows)
      ensures surviving == Surviving(rows, below, CrossRowsOf(rows, top), now)
    {
      hide AllValid, ParentWalk, CrossWalk, Grounded, CrossRowsOf;
      var crosses := CrossRowsOf(rows, top);
      surviving := [];
      for k := 0 to |crosses|
        invariant surviving == Surviving(rows, below, crosses[..k], now)
      {
        assert crosses[..k + 1][..k] == crosses[..k];
        var walk := WalkThrough(crosses[k]);
        if AllValid(rows, walk, now) {
          surviving := surviving + [Chain(below + walk, Some(crosses[k]))];
        }
      }
      assert crosses[..|crosses|] == crosses;
    }

    method ListChains(id: nat, now: Time) returns (result: Result<ChainSet, Error>)
      requires Grounded(rows)
      ensures result == if id < |rows| then Ok(ChainsFor(rows, id, now)) else Err(UnknownCa)
    {
      hide Surviving, ParentWalk, Grounded;
      if id >= |rows| {
        return Err(UnknownCa);
      }
      var walk := WalkUp(id);
      var base := Chain(walk, None);
      var surviving := ListAlternates(walk[|walk| - 1], walk[..|walk| - 1], now);
      if surviving == [] {
        return Ok(ChainSet(base, []));
      }
      return Ok(ChainSet(surviving[0], [base] + surviving[1..]));
    }
  }
}
