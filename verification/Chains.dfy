/**
 The paths cabin serves for a CA (ca/service.py, `chains_for`): one plain walk to
 the self-signed top, and one alternate for each cross certificate of that top.
 */
module Chains {
  import opened Prelude
  import opened Hierarchy

  /** Row ids, nearest issuer first, anchor last. */
  datatype Chain = Chain(rows: seq<nat>, via: Option<nat>)

  datatype ChainSet = ChainSet(default: Chain, alternates: seq<Chain>)

  /** Walking upwards from a row that exists stays among rows and goes down in ids. */
  ghost predicate Grounded(rows: Rows)
  {
    forall i :: 0 <= i < |rows| && rows[i].parent.Some? ==> rows[i].parent.value < i
  }

  lemma InOrderIsGrounded(rows: Rows)
    requires Inv(rows)
    ensures Grounded(rows)
  {
    forall i | 0 <= i < |rows| && rows[i].parent.Some? ensures rows[i].parent.value < i {
      assert RowOk(rows, i);
    }
  }

  function ParentWalk(rows: Rows, id: nat): (walk: seq<nat>)
    requires Grounded(rows) && id < |rows|
    ensures |walk| > 0 && walk[0] == id
    ensures forall k :: 0 <= k < |walk| ==> walk[k] < |rows|
    decreases id
  {
    if rows[id].parent.None? then [id] else [id] + ParentWalk(rows, rows[id].parent.value)
  }

  /** The active cross rows of `top`, in id order. */
  function CrossRowsOf(rows: Rows, top: nat): (ids: seq<nat>)
    ensures forall k :: 0 <= k < |ids| ==> ids[k] < |rows| && rows[ids[k]].crossOf == Some(top) && rows[ids[k]].status == Active
    ensures forall j, k :: 0 <= j < k < |ids| ==> ids[j] < ids[k]
  {
    if rows == [] then []
    else
      var last := |rows| - 1;
      CrossRowsOf(rows[..last], top)
      + if rows[last].crossOf == Some(top) && rows[last].status == Active then [last] else []
  }

  predicate AllValid(rows: Rows, ids: seq<nat>, now: Time)
  {
    forall k :: 0 <= k < |ids| ==> ids[k] < |rows| && ValidAt(rows[ids[k]].cert, now)
  }

  /** What replaces the top of the plain walk on the path through a cross row. */
  function CrossWalk(rows: Rows, cross: nat): seq<nat>
    requires Grounded(rows) && cross < |rows|
  {
    if rows[cross].parent.None? then [cross] else [cross] + ParentWalk(rows, rows[cross].parent.value)
  }

  function Surviving(rows: Rows, below: seq<nat>, crosses: seq<nat>, now: Time): seq<Chain>
    requires Grounded(rows) && forall k :: 0 <= k < |crosses| ==> crosses[k] < |rows|
  {
    if crosses == [] then []
    else
      var last := |crosses| - 1;
      Surviving(rows, below, crosses[..last], now)
      + if AllValid(rows, CrossWalk(rows, crosses[last]), now)
        then [Chain(below + CrossWalk(rows, crosses[last]), Some(crosses[last]))] else []
  }

  /** The self-signed end of the plain walk. */
  function Top(rows: Rows, id: nat): (top: nat)
    requires Grounded(rows) && id < |rows|
    ensures top < |rows|
  {
    var walk := ParentWalk(rows, id);
    walk[|walk| - 1]
  }

  function Below(rows: Rows, id: nat): seq<nat>
    requires Grounded(rows) && id < |rows|
  {
    var walk := ParentWalk(rows, id);
    walk[..|walk| - 1]
  }

  function Alternates(rows: Rows, id: nat, now: Time): seq<Chain>
    requires Grounded(rows) && id < |rows|
  {
    Surviving(rows, Below(rows, id), CrossRowsOf(rows, Top(rows, id)), now)
  }

  function ChainsFor(rows: Rows, id: nat, now: Time): ChainSet
    requires Grounded(rows) && id < |rows|
  {
    var base := Chain(ParentWalk(rows, id), None);
    var surviving := Alternates(rows, id, now);
    if surviving == [] then ChainSet(base, []) else ChainSet(surviving[0], [base] + surviving[1..])
  }

  function Paths(set_: ChainSet): seq<Chain>
  {
    [set_.default] + set_.alternates
  }

  // ----- every path is linked ------------------------------------------------------------

  /** Each certificate is issued by the next one's name and signed by its key. */
  ghost predicate Linked(rows: Rows, ids: seq<nat>)
  {
    && (forall k :: 0 <= k < |ids| ==> ids[k] < |rows|)
    && forall k :: 0 <= k < |ids| - 1 ==> LinkedAt(rows, ids[k], ids[k + 1])
  }

  predicate LinkedAt(rows: Rows, child: nat, parent: nat)
  {
    child < |rows| && parent < |rows| && DirectlyIssuedBy(rows[child].cert, rows[parent].cert)
  }

  /** In an orderly table a walk is the row itself, or the row and its root. */
  lemma WalkShape(rows: Rows, id: nat)
    requires Inv(rows) && id < |rows|
    ensures Grounded(rows)
    ensures
      var walk := ParentWalk(rows, id);
      if rows[id].kind == Root then walk == [id]
      else rows[id].parent.Some? && walk == [id, rows[id].parent.value] && rows[rows[id].parent.value].kind == Root && LinkedAt(rows, id, rows[id].parent.value)
  {
    InOrderIsGrounded(rows);
    assert RowOk(rows, id);
    if rows[id].kind != Root {
      assert RowOk(rows, rows[id].parent.value);
    }
  }

  /** A cross row may take its root's place: it has the same name and key. */
  lemma CrossTakesItsPlace(rows: Rows, child: nat, cross: nat)
    requires Inv(rows) && cross < |rows| && rows[cross].kind == Cross
    requires rows[cross].crossOf.Some? && LinkedAt(rows, child, rows[cross].crossOf.value)
    ensures LinkedAt(rows, child, cross)
  {
    assert RowOk(rows, cross);
  }

  lemma OnlyCrossRowsCross(rows: Rows, i: nat)
    requires Inv(rows) && i < |rows| && rows[i].crossOf.Some?
    ensures rows[i].kind == Cross && rows[i].parent.Some? && rows[i].parent != rows[i].crossOf && rows[i].crossOf.value < |rows|
  {
    assert RowOk(rows, i);
  }

  /** The path through one cross row of the top above `id`. */
  ghost predicate GoodAlternate(rows: Rows, id: nat, chain: Chain, now: Time)
    requires Grounded(rows) && id < |rows|
  {
    && chain.via.Some? && Served(rows, Top(rows, id), chain.via.value, now)
    && rows[chain.via.value].kind == Cross && rows[chain.via.value].parent.Some?
    && chain.rows == Below(rows, id) + [chain.via.value, rows[chain.via.value].parent.value]
    && Linked(rows, chain.rows)
    && AllValid(rows, [chain.via.value, rows[chain.via.value].parent.value], now)
  }

  /** An active cross row of this top whose certificate and signing root are valid. */
  predicate Served(rows: Rows, top: nat, c: nat, now: Time)
    requires Grounded(rows)
  {
    c < |rows| && rows[c].crossOf == Some(top) && rows[c].status == Active && AllValid(rows, CrossWalk(rows, c), now)
  }

  lemma CrossWalkShape(rows: Rows, cross: nat)
    requires Inv(rows) && cross < |rows| && rows[cross].kind == Cross
    ensures Grounded(rows) && rows[cross].parent.Some?
    ensures CrossWalk(rows, cross) == [cross, rows[cross].parent.value] && LinkedAt(rows, cross, rows[cross].parent.value)
  {
    WalkShape(rows, cross);
    WalkShape(rows, rows[cross].parent.value);
  }

  lemma AlternateIsGood(rows: Rows, id: nat, cross: nat, now: Time)
    requires Inv(rows) && Grounded(rows) && id < |rows| && Served(rows, Top(rows, id), cross, now)
    ensures GoodAlternate(rows, id, Chain(Below(rows, id) + CrossWalk(rows, cross), Some(cross)), now)
  {
    hide Inv;
    OnlyCrossRowsCross(rows, cross);
    WalkShape(rows, id);
    CrossWalkShape(rows, cross);
    if |ParentWalk(rows, id)| == 2 {
      CrossTakesItsPlace(rows, id, cross);
      assert Below(rows, id) + CrossWalk(rows, cross) == [id, cross, rows[cross].parent.value];
    }
  }

  /** What survives is good, in the order of the cross rows, and nothing is left out. */
  ghost predicate Complete(rows: Rows, id: nat, crosses: seq<nat>, surviving: seq<Chain>, now: Time)
    requires Grounded(rows) && id < |rows|
  {
    && (forall k :: 0 <= k < |surviving| ==> GoodAlternate(rows, id, surviving[k], now) && surviving[k].via.Some? && surviving[k].via.value in crosses)
    && (forall j, k :: 0 <= j < k < |surviving| ==> surviving[j].via.value < surviving[k].via.value)
    && (forall c :: c in crosses && Served(rows, Top(rows, id), c, now) ==>
          exists j :: 0 <= j < |surviving| && surviving[j].via == Some(c))
  }

  /** One more cross row, with a larger id than those before. */
  lemma OneMoreCross(rows: Rows, id: nat, crosses: seq<nat>, before: seq<Chain>, c: nat, more: seq<Chain>, now: Time)
    requires Grounded(rows) && id < |rows| && Complete(rows, id, crosses, before, now)
    requires forall k :: 0 <= k < |crosses| ==> crosses[k] < c
    requires if Served(rows, Top(rows, id), c, now) then |more| == 1 && more[0].via == Some(c) && GoodAlternate(rows, id, more[0], now) else more == []
    ensures Complete(rows, id, crosses + [c], before + more, now)
  {
    hide GoodAlternate, Served, Top;
    var after := before + more;
    forall d | d in crosses + [c] && Served(rows, Top(rows, id), d, now)
      ensures exists j :: 0 <= j < |after| && after[j].via == Some(d)
    {
      if d == c {
        assert after[|before|].via == Some(d);
      } else {
        var j :| 0 <= j < |before| && before[j].via == Some(d);
        assert after[j].via == Some(d);
      }
    }
  }

  lemma {:induction false} SurvivingAreComplete(rows: Rows, id: nat, crosses: seq<nat>, now: Time)
    requires Inv(rows) && Grounded(rows) && id < |rows|
    requires forall k :: 0 <= k < |crosses| ==>
               crosses[k] < |rows| && rows[crosses[k]].crossOf == Some(Top(rows, id)) && rows[crosses[k]].status == Active
    requires forall j, k :: 0 <= j < k < |crosses| ==> crosses[j] < crosses[k]
    ensures Complete(rows, id, crosses, Surviving(rows, Below(rows, id), crosses, now), now)
  {
    hide Inv, GoodAlternate, AllValid, CrossWalk, Top, Below, Grounded;
    if crosses != [] {
      var last := |crosses| - 1;
      var init, c := crosses[..last], crosses[last];
      SurvivingAreComplete(rows, id, init, now);
      var more := if AllValid(rows, CrossWalk(rows, c), now) then [Chain(Below(rows, id) + CrossWalk(rows, c), Some(c))] else [];
      if more != [] {
        AlternateIsGood(rows, id, c, now);
      }
      OneMoreCross(rows, id, init, Surviving(rows, Below(rows, id), init, now), c, more, now);
      assert crosses == init + [c];
    } else {
      assert Complete(rows, id, [], [], now);
    }
  }

  lemma {:induction false} CrossRowsAreAll(rows: Rows, top: nat, c: nat)
    requires c < |rows| && rows[c].crossOf == Some(top) && rows[c].status == Active
    ensures c in CrossRowsOf(rows, top)
  {
    if c < |rows| - 1 {
      CrossRowsAreAll(rows[..|rows| - 1], top, c);
    }
  }

  /** The alternates are exactly the paths of the served cross rows. */
  ghost predicate ExactAlternates(rows: Rows, id: nat, surviving: seq<Chain>, now: Time)
    requires Grounded(rows) && id < |rows|
  {
    && (forall k :: 0 <= k < |surviving| ==> surviving[k].via.Some? && GoodAlternate(rows, id, surviving[k], now))
    && (forall j, k :: 0 <= j < k < |surviving| ==> surviving[j].via.value < surviving[k].via.value)
    && (forall c: nat :: Served(rows, Top(rows, id), c, now) ==> exists j :: 0 <= j < |surviving| && surviving[j].via == Some(c))
  }

  lemma AlternatesAreExact(rows: Rows, id: nat, now: Time)
    requires Inv(rows) && Grounded(rows) && id < |rows|
    ensures ExactAlternates(rows, id, Alternates(rows, id, now), now)
  {
    hide Inv, GoodAlternate, AllValid, CrossWalk, Top, Below;
    var crosses := CrossRowsOf(rows, Top(rows, id));
    SurvivingAreComplete(rows, id, crosses, now);
    forall c: nat | Served(rows, Top(rows, id), c, now) ensures c in crosses {
      CrossRowsAreAll(rows, Top(rows, id), c);
    }
  }

  /** The place of the plain walk among the paths. */
  function BaseAt(paths: seq<Chain>): nat
  {
    if |paths| == 1 then 0 else 1
  }

  lemma PlainWalkIsLinked(rows: Rows, id: nat)
    requires Inv(rows) && id < |rows|
    ensures Grounded(rows) && Linked(rows, ParentWalk(rows, id))
  {
    WalkShape(rows, id);
  }

  lemma GoodAlternateIsLinked(rows: Rows, id: nat, chain: Chain, now: Time)
    requires Grounded(rows) && id < |rows| && GoodAlternate(rows, id, chain, now)
    ensures Linked(rows, chain.rows) && chain.rows != []
  {
  }

  /** Of all paths served for a CA exactly one goes through no cross row; it is the
      plain walk, and it is linked. Every other one is linked, takes the walk to a
      cross row of its top, and has a cross row and a signing root valid right now. */
  lemma EveryPathIsGood(rows: Rows, id: nat, now: Time)
    requires Inv(rows) && id < |rows|
    ensures Grounded(rows)
    ensures
      var paths := Paths(ChainsFor(rows, id, now));
      var base := BaseAt(paths);
      && base < |paths| && paths[base] == Chain(ParentWalk(rows, id), None)
      && (forall k :: 0 <= k < |paths| ==> Linked(rows, paths[k].rows) && paths[k].rows != [])
      && (forall k :: 0 <= k < |paths| && k != base ==> paths[k].via.Some? && GoodAlternate(rows, id, paths[k], now))
  {
    hide Inv, GoodAlternate, Linked, ParentWalk, Alternates, Top, Below, Served;
    PlainWalkIsLinked(rows, id);
    AlternatesAreExact(rows, id, now);
    var surviving := Alternates(rows, id, now);
    forall k | 0 <= k < |surviving| ensures Linked(rows, surviving[k].rows) && surviving[k].rows != [] {
      GoodAlternateIsLinked(rows, id, surviving[k], now);
    }
  }

  /** The default goes through the oldest served cross row, and is the plain walk
      exactly when there is none. */
  lemma DefaultIsTheOldestCross(rows: Rows, id: nat, now: Time)
    requires Inv(rows) && id < |rows|
    ensures Grounded(rows)
    ensures
      var default := ChainsFor(rows, id, now).default;
      && (default.via.Some? <==> exists c: nat :: Served(rows, Top(rows, id), c, now))
      && (default.via.Some? ==> Served(rows, Top(rows, id), default.via.value, now))
      && (forall c: nat :: Served(rows, Top(rows, id), c, now) ==> default.via.value <= c)
  {
    hide Inv, Served, Linked, ParentWalk, Alternates, Top, Below, AllValid;
    InOrderIsGrounded(rows);
    AlternatesAreExact(rows, id, now);
    var surviving := Alternates(rows, id, now);
    forall c: nat | Served(rows, Top(rows, id), c, now) ensures surviving != [] && surviving[0].via.value <= c {
      var j :| 0 <= j < |surviving| && surviving[j].via == Some(c);
      assert j == 0 || surviving[0].via.value < surviving[j].via.value;
    }
    assert surviving != [] ==> GoodAlternate(rows, id, surviving[0], now);
  }

  // ----- asking for a path by its anchor ---------------------------------------------------

  function AnchorOf(chain: Chain): nat
    requires chain.rows != []
  {
    chain.rows[|chain.rows| - 1]
  }

  /** The first path with this anchor, the default before the alternates. */
  function ByAnchor(paths: seq<Chain>, anchor: nat): Option<Chain>
  {
    if paths == [] then None
    else if paths[0].rows != [] && AnchorOf(paths[0]) == anchor then Some(paths[0])
    else ByAnchor(paths[1..], anchor)
  }

  lemma {:induction false} ByAnchorFindsFirst(paths: seq<Chain>, k: nat)
    requires k < |paths|
    requires forall j :: 0 <= j < |paths| ==> paths[j].rows != []
    requires forall i, j :: 0 <= i < j < |paths| ==> AnchorOf(paths[i]) != AnchorOf(paths[j])
    ensures ByAnchor(paths, AnchorOf(paths[k])) == Some(paths[k])
  {
    if k > 0 {
      assert AnchorOf(paths[0]) != AnchorOf(paths[k]);
      ByAnchorFindsFirst(paths[1..], k - 1);
    }
  }

  lemma {:induction false} ByAnchorFinds(paths: seq<Chain>, anchor: nat)
    ensures ByAnchor(paths, anchor).Some? ==>
              exists k :: 0 <= k < |paths| && paths[k].rows != [] && AnchorOf(paths[k]) == anchor && paths[k] == ByAnchor(paths, anchor).value
  {
    if paths != [] && !(paths[0].rows != [] && AnchorOf(paths[0]) == anchor) {
      ByAnchorFinds(paths[1..], anchor);
      if ByAnchor(paths, anchor).Some? {
        var k :| 0 <= k < |paths[1..]| && paths[1..][k].rows != [] && AnchorOf(paths[1..][k]) == anchor && paths[1..][k] == ByAnchor(paths, anchor).value;
        assert paths[k + 1] == paths[1..][k];
      }
    }
  }

  /** No two served cross rows of this top were signed by the same root. */
  ghost predicate NoSharedSigner(rows: Rows, top: nat, now: Time)
    requires Grounded(rows)
  {
    forall c: nat, d: nat :: Served(rows, top, c, now) && Served(rows, top, d, now) && c != d ==> rows[c].parent != rows[d].parent
  }

  /** Asking for each served path by its own anchor finds that path. */
  ghost predicate FoundByAnchor(paths: seq<Chain>)
  {
    forall k :: 0 <= k < |paths| && paths[k].rows != [] ==> ByAnchor(paths, AnchorOf(paths[k])) == Some(paths[k])
  }

  lemma AlternateAnchor(rows: Rows, id: nat, chain: Chain, now: Time)
    requires Inv(rows) && Grounded(rows) && id < |rows| && GoodAlternate(rows, id, chain, now)
    ensures
      && chain.rows != [] && chain.via.Some? && Served(rows, Top(rows, id), chain.via.value, now)
      && Some(AnchorOf(chain)) == rows[chain.via.value].parent && AnchorOf(chain) != Top(rows, id)
  {
    OnlyCrossRowsCross(rows, chain.via.value);
  }

  predicate Apart(surviving: seq<Chain>)
  {
    forall j, k :: 0 <= j < k < |surviving| ==> surviving[j].rows != [] && surviving[k].rows != [] && AnchorOf(surviving[j]) != AnchorOf(surviving[k])
  }

  function WithBase(surviving: seq<Chain>, base: Chain): seq<Chain>
  {
    if surviving == [] then [base] else [surviving[0], base] + surviving[1..]
  }

  lemma ApartIsFound(surviving: seq<Chain>, base: Chain)
    requires base.rows != [] && forall k :: 0 <= k < |surviving| ==> surviving[k].rows != [] && AnchorOf(surviving[k]) != AnchorOf(base)
    requires Apart(surviving)
    ensures FoundByAnchor(WithBase(surviving, base))
  {
    hide ByAnchor, AnchorOf;
    var paths := WithBase(surviving, base);
    forall k | 0 <= k < |paths| ensures ByAnchor(paths, AnchorOf(paths[k])) == Some(paths[k]) {
      ByAnchorFindsFirst(paths, k);
    }
  }

  lemma FoundIsApart(surviving: seq<Chain>, base: Chain)
    requires forall k :: 0 <= k < |surviving| ==> surviving[k].rows != []
    requires forall j, k :: 0 <= j < k < |surviving| ==> surviving[j] != surviving[k]
    requires FoundByAnchor(WithBase(surviving, base))
    ensures Apart(surviving)
  {
    hide ByAnchor, AnchorOf;
    var paths := WithBase(surviving, base);
    forall j, k | 0 <= j < k < |surviving| ensures AnchorOf(surviving[j]) != AnchorOf(surviving[k]) {
      var p, q := if j == 0 then 0 else j + 1, k + 1;
      assert paths[p] == surviving[j] && paths[q] == surviving[k];
      assert ByAnchor(paths, AnchorOf(paths[p])) == Some(paths[p]);
      assert ByAnchor(paths, AnchorOf(paths[q])) == Some(paths[q]);
    }
  }

  /** Different anchors are different signers, path by path. */
  lemma ApartIffNoSharedSigner(rows: Rows, id: nat, now: Time)
    requires Inv(rows) && Grounded(rows) && id < |rows|
    ensures Apart(Alternates(rows, id, now)) <==> NoSharedSigner(rows, Top(rows, id), now)
  {
    hide Inv, Served, GoodAlternate, Alternates, Top, AnchorOf;
    AlternatesAreExact(rows, id, now);
    var surviving := Alternates(rows, id, now);
    forall k | 0 <= k < |surviving|
      ensures surviving[k].rows != [] && surviving[k].via.Some? && surviving[k].via.value < |rows|
      ensures Served(rows, Top(rows, id), surviving[k].via.value, now)
      ensures Some(AnchorOf(surviving[k])) == rows[surviving[k].via.value].parent
    {
      AlternateAnchor(rows, id, surviving[k], now);
      ServedExists(rows, Top(rows, id), surviving[k].via.value, now);
    }
    forall c: nat | Served(rows, Top(rows, id), c, now) ensures c < |rows| {
      ServedExists(rows, Top(rows, id), c, now);
    }
    if Apart(surviving) {
      forall c: nat, d: nat | Served(rows, Top(rows, id), c, now) && Served(rows, Top(rows, id), d, now) && c != d
        ensures rows[c].parent != rows[d].parent
      {
        var j :| 0 <= j < |surviving| && surviving[j].via == Some(c);
        var k :| 0 <= k < |surviving| && surviving[k].via == Some(d);
        assert j < k || k < j;
      }
    }
  }

  lemma ServedExists(rows: Rows, top: nat, c: nat, now: Time)
    requires Grounded(rows) && Served(rows, top, c, now)
    ensures c < |rows|
  {
  }

  /** A client that remembers a path by its anchor finds that path again if and only
      if no two served cross rows were signed by the same root. */
  lemma AnchorsNamePathsIff(rows: Rows, id: nat, now: Time)
    requires Inv(rows) && id < |rows|
    ensures Grounded(rows)
    ensures FoundByAnchor(Paths(ChainsFor(rows, id, now))) <==> NoSharedSigner(rows, Top(rows, id), now)
  {
    hide Inv, Served, GoodAlternate, Alternates, FoundByAnchor, Apart, NoSharedSigner;
    InOrderIsGrounded(rows);
    AlternatesAreExact(rows, id, now);
    ApartIffNoSharedSigner(rows, id, now);
    var surviving := Alternates(rows, id, now);
    var base := Chain(ParentWalk(rows, id), None);
    forall k | 0 <= k < |surviving| ensures surviving[k].rows != [] && AnchorOf(surviving[k]) != AnchorOf(base) {
      AlternateAnchor(rows, id, surviving[k], now);
    }
    assert Paths(ChainsFor(rows, id, now)) == WithBase(surviving, base);
    if FoundByAnchor(WithBase(surviving, base)) {
      FoundIsApart(surviving, base);
    }
    if Apart(surviving) {
      ApartIsFound(surviving, base);
    }
  }
}
