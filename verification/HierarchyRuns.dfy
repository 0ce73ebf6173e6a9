/**
 What holds over every run of the CA hierarchy: leaves stay good under every
 renewal, alternates keep being accepted, anchors stay unique, an issuer is never
 lost, and children fit inside their parents when they are signed.
 */
module HierarchyRuns {
  import opened Prelude
  import opened Hierarchy
  import opened Chains
  import opened NC = NameConstraints

  // ----- leaves ------------------------------------------------------------------------

  datatype Leaf = Leaf(row: nat, issuer: string, signer: Key, aki: KeyIdentifier, cn: Option<string>, sans: seq<string>, notAfter: Time)

  datatype System = System(rows: Rows, leaves: seq<Leaf>)

  datatype Event =
    | Manage(op: Op)
    | IssueLeaf(issuer: nat, cn: Option<string>, sans: seq<string>, days: int)

  datatype Timed = Timed(now: Time, event: Event)

  function ExtensionIn(cert: Cert): Option<Extension>
  {
    if cert.constraints.Some? then Some(cert.constraints.value.extension) else None
  }

  /** Resolving the issuer, its key, the clamp and the name check all have to pass. */
  predicate MayIssue(rows: Rows, issuer: nat, cn: Option<string>, sans: seq<string>, days: int, now: Time, readAddress: string -> Option<Address>)
  {
    && issuer < |rows| && IsIssuer(rows[issuer]) && rows[issuer].key.Some?
    && now < Min(now + days * DAY, rows[issuer].cert.notAfter)
    && Check(ExtensionIn(rows[issuer].cert), cn, sans, readAddress) == None
  }

  function SignLeaf(row: Row, id: nat, cn: Option<string>, sans: seq<string>, days: int, now: Time): Leaf
    requires row.key.Some?
  {
    Leaf(id, row.cert.subject, row.key.value, KeyIdOf(row.cert), cn, sans, Min(now + days * DAY, row.cert.notAfter))
  }

  function Next(sys: System, e: Timed, readAddress: string -> Option<Address>): System
  {
    match e.event
    case Manage(op) => sys.(rows := Step(sys.rows, op, e.now))
    case IssueLeaf(issuer, cn, sans, days) =>
      if MayIssue(sys.rows, issuer, cn, sans, days, e.now, readAddress)
      then sys.(leaves := sys.leaves + [SignLeaf(sys.rows[issuer], issuer, cn, sans, days, e.now)])
      else sys
  }

  function Run(events: seq<Timed>, readAddress: string -> Option<Address>): System
  {
    if events == [] then System([], [])
    else Next(Run(events[..|events| - 1], readAddress), events[|events| - 1], readAddress)
  }

  /** A leaf is signed under its issuer's present name and key, names its present
      key identifier, and lies inside the constraints its certificate carries now. */
  predicate LeafOk(rows: Rows, leaf: Leaf, readAddress: string -> Option<Address>)
  {
    && leaf.row < |rows| && rows[leaf.row].kind == Intermediate
    && leaf.issuer == rows[leaf.row].cert.subject && leaf.signer == rows[leaf.row].cert.key
    && leaf.aki == KeyIdOf(rows[leaf.row].cert)
    && Check(ExtensionIn(rows[leaf.row].cert), leaf.cn, leaf.sans, readAddress) == None
  }

  lemma LeafStaysOk(before: Rows, after: Rows, leaf: Leaf, readAddress: string -> Option<Address>)
    requires Keeps(before, after) && LeafOk(before, leaf, readAddress)
    ensures LeafOk(after, leaf, readAddress)
  {
    assert SameRow(before[leaf.row], after[leaf.row]);
  }

  ghost predicate AllOk(sys: System, readAddress: string -> Option<Address>)
  {
    && Inv(sys.rows) && PairsOk(sys.rows)
    && forall k :: 0 <= k < |sys.leaves| ==> LeafOk(sys.rows, sys.leaves[k], readAddress)
  }

  /** Only an imported cross row can repeat an active pair of subject and signer. */
  predicate PairsOk(rows: Rows)
  {
    forall i, j :: 0 <= i < j < |rows| && SamePair(rows[i], rows[j]) ==> rows[j].origin == Imported
  }

  predicate SamePair(a: Row, b: Row)
  {
    && a.crossOf.Some? && a.crossOf == b.crossOf && a.parent == b.parent
    && a.status == Active && b.status == Active
  }

  lemma AddingKeepsPairs(rows: Rows, added: Rows)
    requires PairsOk(rows)
    requires forall j :: 0 <= j < |added| && added[j].crossOf.Some? ==>
               added[j].origin == Imported || (|added| == 1 && forall i :: 0 <= i < |rows| ==> !SamePair(rows[i], added[j]))
    ensures PairsOk(rows + added)
  {
    var after := rows + added;
    forall i, j | 0 <= i < j < |after| && SamePair(after[i], after[j]) ensures after[j].origin == Imported {
      if j >= |rows| {
        assert after[j] == added[j - |rows|];
      } else {
        assert SamePair(rows[i], rows[j]);
      }
    }
  }

  lemma RewritingKeepsPairs(before: Rows, after: Rows)
    requires PairsOk(before) && Keeps(before, after) && |after| == |before|
    ensures PairsOk(after)
  {
    forall i, j | 0 <= i < j < |after| && SamePair(after[i], after[j]) ensures after[j].origin == Imported {
      assert SameRow(before[i], after[i]) && SameRow(before[j], after[j]);
      assert SamePair(before[i], before[j]);
    }
  }

  lemma StepKeepsPairs(rows: Rows, op: Op, now: Time)
    requires Inv(rows) && PairsOk(rows)
    ensures PairsOk(Step(rows, op, now))
  {
    hide Inv, RowOk, PairsOk, SamePair, CrossProblem, CrossCertificate, Resign, SignIntermediate, ImportProblem;
    StepKeeps(rows, op, now);
    var after := Step(rows, op, now);
    if |after| == |rows| {
      RewritingKeepsPairs(rows, after);
    } else {
      var added := after[|rows|..];
      assert after == rows + added;
      if op.OpCrossSign? {
        forall i | 0 <= i < |rows| ensures !SamePair(rows[i], added[0]) {
          assert !Crosses(rows[i], op.ca, op.signingRoot);
          PairIsCrossed(rows[i], added[0], op.ca, op.signingRoot);
        }
      }
      AddingKeepsPairs(rows, added);
    }
  }

  lemma PairIsCrossed(a: Row, b: Row, ca: nat, signingRoot: nat)
    requires b.crossOf == Some(ca) && b.parent == Some(signingRoot) && !Crosses(a, ca, signingRoot)
    ensures !SamePair(a, b)
  {
  }

  lemma NextKeeps(sys: System, e: Timed, readAddress: string -> Option<Address>)
    requires AllOk(sys, readAddress)
    ensures AllOk(Next(sys, e, readAddress), readAddress)
    ensures Keeps(sys.rows, Next(sys, e, readAddress).rows)
  {
    hide LeafOk, PairsOk, Step;
    match e.event
    case Manage(op) =>
      StepKeeps(sys.rows, op, e.now);
      StepKeepsPairs(sys.rows, op, e.now);
      forall k | 0 <= k < |sys.leaves| ensures LeafOk(Step(sys.rows, op, e.now), sys.leaves[k], readAddress) {
        LeafStaysOk(sys.rows, Step(sys.rows, op, e.now), sys.leaves[k], readAddress);
      }
    case IssueLeaf(issuer, cn, sans, days) =>
      KeepsItself(sys.rows);
      if MayIssue(sys.rows, issuer, cn, sans, days, e.now, readAddress) {
        SignedLeafIsOk(sys.rows, issuer, cn, sans, days, e.now, readAddress);
      }
  }

  lemma SignedLeafIsOk(rows: Rows, issuer: nat, cn: Option<string>, sans: seq<string>, days: int, now: Time, readAddress: string -> Option<Address>)
    requires Inv(rows) && MayIssue(rows, issuer, cn, sans, days, now, readAddress)
    ensures LeafOk(rows, SignLeaf(rows[issuer], issuer, cn, sans, days, now), readAddress)
    ensures now < SignLeaf(rows[issuer], issuer, cn, sans, days, now).notAfter <= rows[issuer].cert.notAfter
  {
    assert RowOk(rows, issuer);
  }

  /** In every reachable state the table is in order and every leaf ever stored is
      still good under its issuer's certificate of that moment. */
  lemma {:induction false} RunKeeps(events: seq<Timed>, readAddress: string -> Option<Address>)
    ensures AllOk(Run(events, readAddress), readAddress)
  {
    if events != [] {
      RunKeeps(events[..|events| - 1], readAddress);
      NextKeeps(Run(events[..|events| - 1], readAddress), events[|events| - 1], readAddress);
    }
  }

  /** Every leaf ever stored has, on every path served for its issuer at any later
      time, an unbroken line of names and signing keys up to the anchor. */
  lemma LeavesStayLinked(events: seq<Timed>, readAddress: string -> Option<Address>, k: nat, now: Time)
    requires k < |Run(events, readAddress).leaves|
    ensures
      var sys := Run(events, readAddress);
      var leaf := sys.leaves[k];
      && LeafOk(sys.rows, leaf, readAddress) && Grounded(sys.rows)
      && forall p :: 0 <= p < |Paths(ChainsFor(sys.rows, leaf.row, now))| ==>
           var path := Paths(ChainsFor(sys.rows, leaf.row, now))[p].rows;
           path != [] && path[0] == leaf.row && Linked(sys.rows, path)
  {
    RunKeeps(events, readAddress);
    var sys := Run(events, readAddress);
    var id := sys.leaves[k].row;
    WalkShape(sys.rows, id);
    EveryPathIsGood(sys.rows, id, now);
    PathsStartAtIssuer(sys.rows, id, now);
  }

  lemma PathsStartAtIssuer(rows: Rows, id: nat, now: Time)
    requires Inv(rows) && id < |rows| && rows[id].kind == Intermediate
    ensures Grounded(rows)
    ensures forall p :: 0 <= p < |Paths(ChainsFor(rows, id, now))| ==>
              Paths(ChainsFor(rows, id, now))[p].rows != [] && Paths(ChainsFor(rows, id, now))[p].rows[0] == id
  {
    hide Inv, Linked, Served, Alternates;
    WalkShape(rows, id);
    EveryPathIsGood(rows, id, now);
  }

  // ----- path lengths ---------------------------------------------------------------------

  predicate SelfIssued(cert: Cert)
  {
    cert.issuer == cert.subject
  }

  function PathLengthOf(cert: Cert): Option<nat>
  {
    if cert.basic.Some? then cert.basic.value.pathLength else None
  }

  /** The path-length steps (k), (l) and (m) of section 6.1.4 of RFC 5280, over the CA
      certificates of a path, anchor first; the leaf at its end is not counted. */
  predicate LengthsAccepted(cas: seq<Cert>, max: int)
  {
    cas == [] || (
      var left := if SelfIssued(cas[0]) then max else max - 1;
      && (SelfIssued(cas[0]) || max > 0)
      && LengthsAccepted(cas[1..], if PathLengthOf(cas[0]).Some? && PathLengthOf(cas[0]).value < left then PathLengthOf(cas[0]).value else left))
  }

  /** For a cross certificate between CAs with different names, over an intermediate
      with a name of its own, cabin's rule is the accounting of RFC 5280. */
  lemma CrossRuleIsRfc5280(signing: Cert, subject: Cert, cross: Cert, intermediate: Cert)
    requires signing.basic.Some? && subject.basic.Some? && cross.basic == subject.basic
    requires cross.subject == subject.subject && cross.issuer == signing.subject && intermediate.issuer == subject.subject
    requires signing.subject != subject.subject && subject.subject != intermediate.subject
    ensures CrossPathLengthError(subject, signing) == None <==> LengthsAccepted([signing, cross, intermediate], 4)
  {
    Unfolded(signing, cross, intermediate);
  }

  lemma Unfolded(a: Cert, b: Cert, c: Cert)
    ensures
      var m1 := Lowered(a, 4);
      var m2 := Lowered(b, m1);
      LengthsAccepted([a, b, c], 4) <==> (SelfIssued(b) || m1 > 0) && (SelfIssued(c) || m2 > 0)
  {
    var m1 := Lowered(a, 4);
    var m2 := Lowered(b, m1);
    assert [a, b, c][1..] == [b, c] && [b, c][1..] == [c] && [c][1..] == [];
    assert LengthsAccepted([], Lowered(c, m2));
    assert LengthsAccepted([c], m2) <==> SelfIssued(c) || m2 > 0;
    assert LengthsAccepted([b, c], m1) <==> (SelfIssued(b) || m1 > 0) && (SelfIssued(c) || m2 > 0);
  }

  function Lowered(cert: Cert, max: int): int
  {
    var left := if SelfIssued(cert) then max else max - 1;
    if PathLengthOf(cert).Some? && PathLengthOf(cert).value < left then PathLengthOf(cert).value else left
  }

  /** Every alternate through a cross row that cabin signed is accepted in every
      reachable state, however often its certificates have been renewed. */
  lemma AlternatesStayAccepted(events: seq<Timed>, readAddress: string -> Option<Address>, id: nat, now: Time, p: nat)
    requires
      var rows := Run(events, readAddress).rows;
      && id < |rows| && rows[id].kind == Intermediate && Grounded(rows)
      && p < |Paths(ChainsFor(rows, id, now))|
      && Paths(ChainsFor(rows, id, now))[p].via.Some?
      && Paths(ChainsFor(rows, id, now))[p].via.value < |rows|
      && rows[Paths(ChainsFor(rows, id, now))[p].via.value].origin == MadeHere
    ensures
      var rows := Run(events, readAddress).rows;
      var path := Paths(ChainsFor(rows, id, now))[p].rows;
      && |path| == 3 && (forall k :: 0 <= k < 3 ==> path[k] < |rows|)
      && LengthsAccepted([rows[path[2]].cert, rows[path[1]].cert, rows[path[0]].cert], 4)
  {
    RunKeeps(events, readAddress);
    var rows := Run(events, readAddress).rows;
    EveryPathIsGood(rows, id, now);
    hide AllOk, ChainsFor, Paths, Served, Linked;
    var chain := Paths(ChainsFor(rows, id, now))[p];
    assert GoodAlternate(rows, id, chain, now);
    AlternateLengths(rows, id, chain, now);
  }

  lemma AlternateLengths(rows: Rows, id: nat, chain: Chain, now: Time)
    requires Inv(rows) && Grounded(rows) && id < |rows| && rows[id].kind == Intermediate
    requires GoodAlternate(rows, id, chain, now) && rows[chain.via.value].origin == MadeHere
    ensures |chain.rows| == 3 && (forall k :: 0 <= k < 3 ==> chain.rows[k] < |rows|)
    ensures LengthsAccepted([rows[chain.rows[2]].cert, rows[chain.rows[1]].cert, rows[chain.rows[0]].cert], 4)
  {
    hide AllValid, CrossWalk, Linked;
    WalkShape(rows, id);
    var cross := chain.via.value;
    assert RowOk(rows, cross);
    assert chain.rows == [id, cross, rows[cross].parent.value];
    Unfolded(rows[chain.rows[2]].cert, rows[cross].cert, rows[id].cert);
  }

  // ----- anchors ------------------------------------------------------------------------------

  /** Without imported cross rows, a path a client remembers by its anchor is found
      again by that anchor, in every reachable state. */
  lemma AnchorsNamePaths(events: seq<Timed>, readAddress: string -> Option<Address>, id: nat, now: Time)
    requires id < |Run(events, readAddress).rows|
    requires
      var rows := Run(events, readAddress).rows;
      forall c :: 0 <= c < |rows| && rows[c].kind == Cross ==> rows[c].origin == MadeHere
    ensures
      var rows := Run(events, readAddress).rows;
      Grounded(rows) && FoundByAnchor(Paths(ChainsFor(rows, id, now)))
  {
    RunKeeps(events, readAddress);
    var rows := Run(events, readAddress).rows;
    hide Run, FoundByAnchor, ChainsFor, Paths, AllValid, CrossWalk;
    InOrderIsGrounded(rows);
    AnchorsNamePathsIff(rows, id, now);
    forall c: nat, d: nat | Served(rows, Top(rows, id), c, now) && Served(rows, Top(rows, id), d, now) && c != d
      ensures rows[c].parent != rows[d].parent
    {
      OnlyCrossRowsCross(rows, c);
      OnlyCrossRowsCross(rows, d);
      assert c < d ==> !SamePair(rows[c], rows[d]);
      assert d < c ==> !SamePair(rows[d], rows[c]);
    }
  }

  const ROOT_A := Cert("A", 2, "A", 2, 0, 100, Some(Basic(true, None)), Some(true), Some(OfKey(2)), None, None)
  const CROSS_B := Cert("B", 1, "A", 2, 0, 100, Some(Basic(true, Some(1))), Some(true), Some(OfKey(1)), Some(OfKey(2)), None)
  const ROOT_B := Cert("B", 1, "B", 1, -BACKDATE, 20 * YEAR, Some(Basic(true, Some(1))), Some(true), Some(OfKey(1)), None, None)

  const ROW_B := Row(Root, None, None, Active, ROOT_B, Some(1), MadeHere)
  const ROW_A := Row(Root, None, None, Active, ROOT_A, None, Imported)
  const ROW_CROSS := Row(Cross, Some(1), Some(0), Active, CROSS_B, None, Imported)

  /** Create a root, then import one and the same cross certificate for it twice. */
  function ImportingTwice(): seq<Timed>
  {
    [Timed(0, Manage(OpCreateRoot("B", 1, 1, 20))),
     Timed(50, Manage(OpImportCross(CROSS_B, ROOT_A))),
     Timed(50, Manage(OpImportCross(CROSS_B, ROOT_A)))]
  }

  lemma FirstImport()
    ensures Step([ROW_B], OpImportCross(CROSS_B, ROOT_A), 50) == [ROW_B, ROW_A, ROW_CROSS]
  {
    assert [ROW_B][..0] == [];
    assert MatchingRoots([ROW_B], CROSS_B) == [0] && MatchingRoots([ROW_B], ROOT_A) == [];
  }

  lemma SecondImport()
    ensures Step([ROW_B, ROW_A, ROW_CROSS], OpImportCross(CROSS_B, ROOT_A), 50) == [ROW_B, ROW_A, ROW_CROSS, ROW_CROSS]
  {
    hide MatchingRoots;
    MatchesBeforeSecondImport();
    assert Without([1], 0) == [1];
    assert [ROW_B, ROW_A, ROW_CROSS] + [ROW_CROSS] == [ROW_B, ROW_A, ROW_CROSS, ROW_CROSS];
  }

  lemma MatchesBeforeSecondImport()
    ensures MatchingRoots([ROW_B, ROW_A, ROW_CROSS], CROSS_B) == [0]
    ensures MatchingRoots([ROW_B, ROW_A, ROW_CROSS], ROOT_A) == [1]
  {
    var rows := [ROW_B, ROW_A, ROW_CROSS];
    assert rows[..2] == [ROW_B, ROW_A] && rows[..2][..1] == [ROW_B] && rows[..2][..1][..0] == [];
    assert MatchingRoots(rows[..2][..1], CROSS_B) == [0] && MatchingRoots(rows[..2][..1], ROOT_A) == [];
    assert MatchingRoots(rows[..2], CROSS_B) == [0] && MatchingRoots(rows[..2], ROOT_A) == [1];
  }

  lemma {:induction false} OneMoreEvent(events: seq<Timed>, e: Timed, readAddress: string -> Option<Address>)
    ensures Run(events + [e], readAddress) == Next(Run(events, readAddress), e, readAddress)
  {
    assert (events + [e])[..|events|] == events;
  }

  lemma ImportingTwiceRuns(readAddress: string -> Option<Address>)
    ensures Run(ImportingTwice(), readAddress).rows == [ROW_B, ROW_A, ROW_CROSS, ROW_CROSS]
  {
    var e := ImportingTwice();
    assert [] + [e[0]] == [e[0]];
    OneMoreEvent([], e[0], readAddress);
    assert Run([e[0]], readAddress).rows == [ROW_B];
    hide Step;
    FirstImport();
    SecondImport();
    OneMoreEvent([e[0]], e[1], readAddress);
    OneMoreEvent([e[0]] + [e[1]], e[2], readAddress);
    assert [e[0]] + [e[1]] + [e[2]] == e;
  }

  /** Importing one cross certificate twice makes two paths with one anchor, and the
      second of them can no longer be asked for. */
  lemma ImportingTwiceHidesAPath(readAddress: string -> Option<Address>)
    ensures
      var rows := Run(ImportingTwice(), readAddress).rows;
      |rows| == 4 && Grounded(rows) && !FoundByAnchor(Paths(ChainsFor(rows, 0, 50)))
  {
    hide Run, FoundByAnchor, ChainsFor;
    RunKeeps(ImportingTwice(), readAddress);
    ImportingTwiceRuns(readAddress);
    var rows := [ROW_B, ROW_A, ROW_CROSS, ROW_CROSS];
    AnchorsNamePathsIff(rows, 0, 50);
    WalkShape(rows, 0);
    CrossWalkShape(rows, 2);
    CrossWalkShape(rows, 3);
    assert Served(rows, 0, 2, 50) && Served(rows, 0, 3, 50);
  }

  // ----- issuers ---------------------------------------------------------------------------------

  predicate HasIssuer(rows: Rows)
  {
    exists i :: 0 <= i < |rows| && IsIssuer(rows[i])
  }

  /** Once some issuer is active, some issuer is active for ever. */
  lemma AnIssuerRemains(rows: Rows, op: Op, now: Time)
    requires Inv(rows) && HasIssuer(rows)
    ensures HasIssuer(Step(rows, op, now))
  {
    hide Inv, ImportCross, CreateIntermediateUnder, CreateRoot, CrossSignRoot, ImportHierarchy, Resign, YearsUntil;
    var after := Step(rows, op, now);
    StepKeeps(rows, op, now);
    var i :| 0 <= i < |rows| && IsIssuer(rows[i]);
    if op.OpRetire? {
      if after != rows {
        var j :| 0 <= j < |rows| && IsIssuer(rows[j]) && !RetiredWith(rows, op.id, j);
        assert IsIssuer(after[j]);
      }
    } else if op.OpRenew? {
      assert IsIssuer(after[i]);
    } else {
      AddedAtTheEnd(rows, op, now);
      assert IsIssuer(after[i]);
    }
  }

  lemma AddedAtTheEnd(rows: Rows, op: Op, now: Time)
    requires !op.OpRetire? && !op.OpRenew?
    ensures |rows| <= |Step(rows, op, now)| && Step(rows, op, now)[..|rows|] == rows
  {
    hide MatchingRoots, Without, CrossProblem, ImportProblem, HasCross, CrossCertificate, SignIntermediate, SelfSign;
  }

  // ----- validity when signing ---------------------------------------------------------------------

  /** The largest count of whole years, at most the wanted one, that ends in time. */
  lemma YearsUntilIsLargest(deadline: Time, years: int, now: Time)
    ensures
      var n := YearsUntil(deadline, years, now);
      && n <= years && now + YEAR * n <= deadline
      && forall m: int {:trigger YEAR * m} :: m <= years && now + YEAR * m <= deadline ==> m <= n
  {
    forall m: int | m <= years && now + YEAR * m <= deadline ensures m <= YearsUntil(deadline, years, now) {
      assert DAY * (365 * m) <= deadline - now;
    }
  }

  /** The certificate an operation signs under a parent starts before now, ends no
      later than the parent does at that moment, and otherwise lasts as long as it
      was asked to: for a renewal, no count of whole years would have fitted better. */
  lemma ChildrenFitWhenSigned(rows: Rows, op: Op, now: Time, i: nat)
    requires Inv(rows) && i < |Step(rows, op, now)|
    requires op.OpCreateIntermediate? || op.OpCrossSign? || op.OpRenew?
    requires i >= |rows| || Step(rows, op, now)[i].cert != rows[i].cert
    requires Step(rows, op, now)[i].kind != Root
    ensures
      var after := Step(rows, op, now);
      && after[i].parent.Some? && after[i].parent.value < |rows|
      && var parent := rows[after[i].parent.value].cert;
         && after[i].cert.notBefore < now
         && after[i].cert.notAfter <= parent.notAfter
         && (op.OpRenew? || after[i].cert.notAfter == parent.notAfter || after[i].cert.notAfter == now + YEAR * op.years)
         && (op.OpRenew? ==>
               forall m: int {:trigger YEAR * m} :: m <= op.years && now + YEAR * m <= parent.notAfter ==> now + YEAR * m <= after[i].cert.notAfter)
  {
    hide HasCross, YearsUntil;
    if op.OpRenew? {
      assert RowOk(rows, i);
      YearsUntilIsLargest(rows[rows[i].parent.value].cert.notAfter, op.years, now);
    }
  }

  /** A new intermediate carries exactly the constraints it was asked to, critically,
      and cannot have another CA beneath it; renewals keep both. */
  lemma IntermediateCarriesItsConstraints(rows: Rows, op: Op, now: Time, more: seq<(Op, Time)>)
    requires Inv(rows) && op.OpCreateIntermediate? && op.spec.Normal() && Apply(rows, op, now).Ok?
    ensures
      var after := ApplyAll(Step(rows, op, now), more);
      && |after| > |rows|
      && var cert := after[|rows|].cert;
         && ConstraintsOf(ExtensionIn(cert)) == op.spec
         && (cert.constraints.Some? ==> cert.constraints.value.critical)
         && PathLengthOf(cert) == Some(0)
  {
    ReadsBack(op.spec);
    var made := Step(rows, op, now);
    StepKeeps(rows, op, now);
    ApplyAllKeeps(made, more);
    assert SameRow(made[|rows|], ApplyAll(made, more)[|rows|]);
  }

  function ApplyAll(rows: Rows, ops: seq<(Op, Time)>): Rows
  {
    if ops == [] then rows else Step(ApplyAll(rows, ops[..|ops| - 1]), ops[|ops| - 1].0, ops[|ops| - 1].1)
  }

  /** Over any sequence of operations a row stays the CA it is: its name, its key,
      its parent and its extensions never change. */
  lemma {:induction false} ApplyAllKeeps(rows: Rows, ops: seq<(Op, Time)>)
    requires Inv(rows)
    ensures Inv(ApplyAll(rows, ops)) && Keeps(rows, ApplyAll(rows, ops))
  {
    hide RowOk, Step;
    if ops == [] {
      KeepsItself(rows);
    } else {
      var init, last := ops[..|ops| - 1], ops[|ops| - 1];
      ApplyAllKeeps(rows, init);
      var before := ApplyAll(rows, init);
      StepKeeps(before, last.0, last.1);
      forall i | 0 <= i < |rows| ensures SameRow(rows[i], ApplyAll(rows, ops)[i]) {
        assert SameRow(rows[i], before[i]) && SameRow(before[i], Step(before, last.0, last.1)[i]);
      }
    }
  }

  // ----- validity later on --------------------------------------------------------------------------

  /** A row cabin signed itself ends no later than its parent does now. */
  predicate Fits(rows: Rows, i: nat)
    requires i < |rows|
  {
    var row := rows[i];
    row.origin == MadeHere && row.parent.Some? && row.parent.value < |rows|
    ==> row.cert.notAfter <= rows[row.parent.value].cert.notAfter
  }

  ghost predicate AllFit(rows: Rows)
  {
    forall i :: 0 <= i < |rows| ==> Fits(rows, i)
  }

  /** An accepted renewal of a root that ends it before a certificate cabin signed
      with it, whatever that certificate's status. */
  predicate CutsShort(rows: Rows, op: Op, now: Time)
  {
    && op.OpRenew? && op.id < |rows| && rows[op.id].kind == Root && Apply(rows, op, now).Ok?
    && exists i :: 0 <= i < |rows| && OutlastsRenewal(rows[i], op.id, now + YEAR * op.years)
  }

  predicate OutlastsRenewal(row: Row, root: nat, end: Time)
  {
    row.origin == MadeHere && row.parent == Some(root) && end < row.cert.notAfter
  }

  lemma RenewedRoot(rows: Rows, op: Op, now: Time)
    requires op.OpRenew? && op.id < |rows| && rows[op.id].kind == Root && Apply(rows, op, now).Ok?
    ensures
      var after := Step(rows, op, now);
      && |after| == |rows| && after[op.id].cert.notAfter == now + YEAR * op.years
      && (forall i :: 0 <= i < |rows| && i != op.id ==> after[i] == rows[i])
      && after[op.id].origin == rows[op.id].origin && after[op.id].parent == rows[op.id].parent
  {
  }

  lemma RootRenewalFitsIff(rows: Rows, op: Op, now: Time)
    requires Inv(rows) && AllFit(rows)
    requires op.OpRenew? && op.id < |rows| && rows[op.id].kind == Root && Apply(rows, op, now).Ok?
    ensures AllFit(Step(rows, op, now)) <==> !CutsShort(rows, op, now)
  {
    hide Apply, Step, Inv;
    RenewedRoot(rows, op, now);
    var after := Step(rows, op, now);
    ParentsAreRoots(rows);
    forall i | 0 <= i < |rows|
      ensures Fits(after, i) <==> !OutlastsRenewal(rows[i], op.id, now + YEAR * op.years)
    {
      assert Fits(rows, i);
    }
  }

  lemma ChildRenewalFits(rows: Rows, op: Op, now: Time)
    requires Inv(rows) && AllFit(rows)
    requires op.OpRenew? && op.id < |rows| && rows[op.id].kind != Root
    ensures AllFit(Step(rows, op, now))
  {
    hide YearsUntil, Inv;
    var after := Step(rows, op, now);
    if after != rows {
      ParentsAreRoots(rows);
      YearsUntilIsLargest(rows[rows[op.id].parent.value].cert.notAfter, op.years, now);
      forall i | 0 <= i < |after| ensures Fits(after, i) {
        assert Fits(rows, i);
      }
    }
  }

  lemma ParentsAreRoots(rows: Rows)
    requires Inv(rows)
    ensures forall i :: 0 <= i < |rows| && rows[i].parent.Some? ==> rows[i].parent.value < i && rows[rows[i].parent.value].kind == Root
    ensures forall i :: 0 <= i < |rows| ==> (rows[i].kind == Root <==> rows[i].parent == None)
  {
    forall i | 0 <= i < |rows|
      ensures rows[i].parent.Some? ==> rows[i].parent.value < i && rows[rows[i].parent.value].kind == Root
      ensures rows[i].kind == Root <==> rows[i].parent == None
    {
      assert RowOk(rows, i);
    }
  }

  lemma RetiringFits(rows: Rows, id: nat, now: Time)
    requires AllFit(rows)
    ensures AllFit(Step(rows, OpRetire(id), now))
  {
    var after := Step(rows, OpRetire(id), now);
    forall i | 0 <= i < |after| ensures Fits(after, i) {
      assert Fits(rows, i);
    }
  }

  lemma AddingFits(rows: Rows, op: Op, now: Time)
    requires Inv(rows) && AllFit(rows) && !op.OpRetire? && !op.OpRenew?
    ensures AllFit(Step(rows, op, now))
  {
    hide Inv, HasCross, MatchingRoots, Without, CrossProblem, ImportProblem, CrossPathLengthError;
    ParentsAreRoots(rows);
    AddedAtTheEnd(rows, op, now);
    var after := Step(rows, op, now);
    forall i | 0 <= i < |after| ensures Fits(after, i) {
      if i < |rows| {
        assert Fits(rows, i) && after[i] == rows[i];
        assert rows[i].parent.Some? ==> after[rows[i].parent.value] == rows[rows[i].parent.value];
      }
    }
  }

  /** Exactly when "no child outlives its parent" is lost: by an accepted renewal of a
      root for less than a certificate under it still has to run, and by nothing else. */
  lemma ChildrenFitUntilCutShort(rows: Rows, op: Op, now: Time)
    requires Inv(rows) && AllFit(rows)
    ensures AllFit(Step(rows, op, now)) <==> !CutsShort(rows, op, now)
  {
    hide AllFit, Inv;
    if op.OpRetire? {
      RetiringFits(rows, op.id, now);
    } else if !op.OpRenew? {
      AddingFits(rows, op, now);
    } else if op.id < |rows| && rows[op.id].kind != Root {
      ChildRenewalFits(rows, op, now);
    } else if Apply(rows, op, now).Ok? {
      RootRenewalFitsIff(rows, op, now);
    }
  }

  /** Over every run, then, no child outlives its parent as long as no renewal cuts a
      root short. */
  lemma {:induction false} ChildrenFitOverRuns(events: seq<Timed>, readAddress: string -> Option<Address>)
    requires forall k :: 0 <= k < |events| && events[k].event.Manage? ==>
               !CutsShort(Run(events[..k], readAddress).rows, events[k].event.op, events[k].now)
    ensures AllFit(Run(events, readAddress).rows)
  {
    hide CutsShort, AllFit, Step, MayIssue;
    if events == [] {
      assert AllFit([]) by { NoRowsFit(); }
    } else {
      var init, e := events[..|events| - 1], events[|events| - 1];
      assert forall k :: 0 <= k < |init| ==> init[k] == events[k] && init[..k] == events[..k];
      ChildrenFitOverRuns(init, readAddress);
      RunKeeps(init, readAddress);
      if e.event.Manage? {
        ChildrenFitUntilCutShort(Run(init, readAddress).rows, e.event.op, e.now);
      }
    }
  }

  lemma NoRowsFit()
    ensures AllFit([])
  {
  }

  /** A root for ten years, an intermediate for ten, and the root renewed for one: the
      intermediate outlives it by nine. */
  function CutShort(): seq<Timed>
  {
    [Timed(0, Manage(OpCreateRoot("R", 1, 1, 10))),
     Timed(0, Manage(OpCreateIntermediate(0, "I", 2, 10, NO_CONSTRAINTS))),
     Timed(0, Manage(OpRenew(0, 1)))]
  }

  lemma RenewalMayCutAParentShort(readAddress: string -> Option<Address>)
    ensures
      var rows := Run(CutShort(), readAddress).rows;
      && |rows| == 2 && rows[1].parent == Some(0) && rows[1].origin == MadeHere
      && rows[0].cert.notAfter == YEAR && rows[1].cert.notAfter == 10 * YEAR
      && !AllFit(rows)
  {
    var e := CutShort();
    assert [] + [e[0]] == [e[0]];
    OneMoreEvent([], e[0], readAddress);
    OneMoreEvent([e[0]], e[1], readAddress);
    OneMoreEvent([e[0]] + [e[1]], e[2], readAddress);
    assert [e[0]] + [e[1]] + [e[2]] == e;
    var two := Run([e[0]] + [e[1]], readAddress).rows;
    assert two[1].cert.notAfter == 10 * YEAR;
    RenewedRoot(two, OpRenew(0, 1), 0);
    assert !Fits(Run(e, readAddress).rows, 1);
  }
}
