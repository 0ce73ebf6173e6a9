/**
 The certificate inventory (ca/certs.py): which rows a query selects, the counts
 on the dashboard, the pages and the export.
 */
module Inventory {
  import opened Prelude
  import opened Text
  import opened Like
  import opened Calendar

  const DAY := 86400
  const EXPIRING_WINDOW := 30 * DAY
  const MAX_QUERY_LENGTH := 200
  const MAX_PAGE := 1000000

  /** Instants count microseconds; a certificate ends on a whole second. */
  const MICROS := 1000000

  /** `notAfter` is the last second of validity; the column holds its text. */
  datatype Row = Row(cn: string, sansText: string, serial: string, notAfter: nat, revokedAt: Option<string>)

  predicate Storable(row: Row)
  {
    CivilAt(row.notAfter).year < 10000
  }

  function NotAfterColumn(row: Row): string
    requires Storable(row)
  {
    IsoAt(row.notAfter)
  }

  // ----- the label a row is shown with ---------------------------------------------------

  datatype Status = Valid | Expiring | Expired | Revoked

  /** Exact instants, to the microsecond. */
  function CertificateStatus(row: Row, now: nat): Status
  {
    if row.revokedAt.Some? then Revoked
    else if row.notAfter * MICROS <= now then Expired
    else if row.notAfter * MICROS <= now + EXPIRING_WINDOW * MICROS then Expiring
    else Valid
  }

  // ----- the conditions of a query ------------------------------------------------------------

  datatype Condition =
    | Search(pattern: string)
    | IsRevoked
    | IsNotRevoked
    | EndsBy(text: string)
    | EndsAfter(text: string)

  predicate Holds(c: Condition, row: Row)
    requires Storable(row)
  {
    match c
    case Search(pattern) =>
      || Matches(pattern, Lower(row.cn)) || Matches(pattern, Lower(row.sansText)) || Matches(pattern, Lower(row.serial))
    case IsRevoked => row.revokedAt.Some?
    case IsNotRevoked => row.revokedAt.None?
    case EndsBy(text) => !Less(text, NotAfterColumn(row))
    case EndsAfter(text) => Less(text, NotAfterColumn(row))
  }

  predicate AllHold(conditions: seq<Condition>, row: Row)
    requires Storable(row)
  {
    forall i :: 0 <= i < |conditions| ==> Holds(conditions[i], row)
  }

  /** Sub-second precision is dropped. */
  function IsoOf(instant: nat): string
    requires CivilAt(instant / MICROS).year < 10000
  {
    IsoAt(instant / MICROS)
  }

  function TermOf(q: string): string
  {
    var stripped := Strip(q);
    Lower(if |stripped| > MAX_QUERY_LENGTH then stripped[..MAX_QUERY_LENGTH] else stripped)
  }

  /** The clock and the far edge of the window can both be written down. */
  predicate Writable(now: nat)
  {
    CivilAt(now / MICROS).year < 10000 && CivilAt((now + EXPIRING_WINDOW * MICROS) / MICROS).year < 10000
  }

  function SearchConditions(q: string): seq<Condition>
  {
    if TermOf(q) == "" then [] else [Search(PatternFor(TermOf(q)))]
  }

  function StatusConditions(status: string, now: nat): seq<Condition>
    requires Writable(now)
  {
    var edge := now + EXPIRING_WINDOW * MICROS;
    match status
    case "revoked" => [IsRevoked]
    case "expired" => [IsNotRevoked, EndsBy(IsoOf(now))]
    case "expiring" => [IsNotRevoked, EndsAfter(IsoOf(now)), EndsBy(IsoOf(edge))]
    case "valid" => [IsNotRevoked, EndsAfter(IsoOf(edge))]
    case _ => []
  }

  function Filters(q: string, status: string, now: nat): seq<Condition>
    requires Writable(now)
  {
    SearchConditions(q) + StatusConditions(status, now)
  }

  /** The conditions appended one by one, with the early return for "revoked". */
  method BuildFilters(q: string, status: string, now: nat) returns (conditions: seq<Condition>)
    requires Writable(now)
    ensures conditions == Filters(q, status, now)
  {
    hide IsoOf, TermOf, PatternFor;
    conditions := [];
    var term := TermOf(q);
    if term != "" {
      conditions := conditions + [Search(PatternFor(term))];
    }
    if status == "revoked" {
      return conditions + [IsRevoked];
    }
    if status == "expired" || status == "expiring" || status == "valid" {
      conditions := conditions + [IsNotRevoked];
    }
    if status == "expired" {
      conditions := conditions + [EndsBy(IsoOf(now))];
    } else if status == "expiring" {
      conditions := conditions + [EndsAfter(IsoOf(now))];
      conditions := conditions + [EndsBy(IsoOf(now + EXPIRING_WINDOW * MICROS))];
    } else if status == "valid" {
      conditions := conditions + [EndsAfter(IsoOf(now + EXPIRING_WINDOW * MICROS))];
    }
  }

  function NameOf(status: Status): string
  {
    match status case Valid => "valid" case Expiring => "expiring" case Expired => "expired" case Revoked => "revoked"
  }

  /** Comparing the texts, cut to the second, is comparing the instants. */
  lemma TextCutIsInstant(row: Row, instant: nat)
    requires Storable(row) && CivilAt(instant / MICROS).year < 10000
    ensures Less(IsoOf(instant), NotAfterColumn(row)) <==> instant < row.notAfter * MICROS
  {
    hide IsoAt, CivilAt, Less;
    TextOrderIsTimeOrder(instant / MICROS, row.notAfter);
  }

  predicate SearchHolds(q: string, row: Row)
    requires Storable(row)
  {
    TermOf(q) == "" || Holds(Search(PatternFor(TermOf(q))), row)
  }

  lemma BothHold(a: seq<Condition>, b: seq<Condition>, row: Row)
    requires Storable(row)
    ensures AllHold(a + b, row) <==> AllHold(a, row) && AllHold(b, row)
  {
    hide Holds, Storable;
    if AllHold(a + b, row) {
      forall i | 0 <= i < |a| ensures Holds(a[i], row) {
        assert (a + b)[i] == a[i];
      }
      forall i | 0 <= i < |b| ensures Holds(b[i], row) {
        assert (a + b)[|a| + i] == b[i];
      }
    }
  }

  lemma StatusHolds(status: string, now: nat, row: Row)
    requires Storable(row) && Writable(now)
    ensures
      var edge := now + EXPIRING_WINDOW * MICROS;
      AllHold(StatusConditions(status, now), row)
      <==> && (status == "revoked" ==> row.revokedAt.Some?)
           && (status in {"expired", "expiring", "valid"} ==> row.revokedAt.None?)
           && (status == "expired" ==> Holds(EndsBy(IsoOf(now)), row))
           && (status == "expiring" ==> Holds(EndsAfter(IsoOf(now)), row) && Holds(EndsBy(IsoOf(edge)), row))
           && (status == "valid" ==> Holds(EndsAfter(IsoOf(edge)), row))
  {
    hide IsoOf, Less, Matches, NotAfterColumn, CivilAt;
    var conditions := StatusConditions(status, now);
    if AllHold(conditions, row) {
      assert |conditions| > 0 ==> Holds(conditions[0], row);
      assert |conditions| > 1 ==> Holds(conditions[1], row);
      assert |conditions| > 2 ==> Holds(conditions[2], row);
    }
  }

  lemma SearchConditionHolds(q: string, row: Row)
    requires Storable(row)
    ensures AllHold(SearchConditions(q), row) <==> SearchHolds(q, row)
  {
    hide TermOf, PatternFor, Matches;
    if AllHold(SearchConditions(q), row) && TermOf(q) != "" {
      assert Holds(SearchConditions(q)[0], row);
    }
  }

  lemma FiltersHold(q: string, status: string, now: nat, row: Row)
    requires Storable(row) && Writable(now)
    ensures AllHold(Filters(q, status, now), row) <==> SearchHolds(q, row) && AllHold(StatusConditions(status, now), row)
  {
    hide AllHold, SearchConditions, StatusConditions, SearchHolds;
    BothHold(SearchConditions(q), StatusConditions(status, now), row);
    SearchConditionHolds(q, row);
  }

  /** Each status filter selects, of the rows the search finds, exactly those that
      are labelled with that status, although one compares texts cut to the second
      and the other compares instants. */
  lemma FilterSelectsLabel(q: string, status: Status, now: nat, row: Row)
    requires Storable(row) && Writable(now)
    ensures AllHold(Filters(q, NameOf(status), now), row) <==> SearchHolds(q, row) && CertificateStatus(row, now) == status
  {
    hide IsoOf, TermOf, PatternFor, Less, Matches, NotAfterColumn, CivilAt, Filters, StatusConditions, AllHold, SearchHolds;
    FiltersHold(q, NameOf(status), now, row);
    StatusHolds(NameOf(status), now, row);
    TextCutIsInstant(row, now);
    TextCutIsInstant(row, now + EXPIRING_WINDOW * MICROS);
  }

  /** Any other status selects everything the search finds. */
  lemma OtherStatusSelectsAll(q: string, status: string, now: nat, row: Row)
    requires Storable(row) && Writable(now)
    requires forall s: Status :: status != NameOf(s)
    ensures AllHold(Filters(q, status, now), row) <==> SearchHolds(q, row)
  {
    hide IsoOf, TermOf, PatternFor, Less, Matches, NotAfterColumn, CivilAt, Filters, StatusConditions, AllHold, SearchHolds;
    assert status != NameOf(Valid) && status != NameOf(Expiring) && status != NameOf(Expired) && status != NameOf(Revoked);
    FiltersHold(q, status, now, row);
    StatusHolds(status, now, row);
  }

  /** The search finds a row exactly when the stripped, cut and lower-cased term
      occurs literally in one of its three texts. */
  lemma SearchFindsLiterally(q: string, row: Row)
    requires Storable(row)
    ensures SearchHolds(q, row)
       <==> Occurs(TermOf(q), Lower(row.cn)) || Occurs(TermOf(q), Lower(row.sansText)) || Occurs(TermOf(q), Lower(row.serial))
  {
    hide PatternFor, Matches, TermOf;
    var term := TermOf(q);
    SearchIsLiteral(term, Lower(row.cn));
    SearchIsLiteral(term, Lower(row.sansText));
    SearchIsLiteral(term, Lower(row.serial));
    if term == "" {
      assert OccursAt(term, Lower(row.cn), 0);
    }
  }

  // ----- counts, pages, export -------------------------------------------------------------------

  ghost predicate AllStorable(rows: seq<Row>)
  {
    forall i :: 0 <= i < |rows| ==> Storable(rows[i])
  }

  function Select(rows: seq<Row>, conditions: seq<Condition>): (r: seq<Row>)
    requires AllStorable(rows)
  {
    if rows == [] then []
    else (if AllHold(conditions, rows[0]) then [rows[0]] else []) + Select(rows[1..], conditions)
  }

  function CountOf(rows: seq<Row>, status: Status, now: nat): nat
    requires AllStorable(rows) && Writable(now)
  {
    |Select(rows, Filters("", NameOf(status), now))|
  }

  lemma EmptySearchFindsAll(row: Row)
    requires Storable(row)
    ensures SearchHolds("", row)
  {
  }

  /** Every row is counted under exactly one status. */
  lemma {:induction false} CountsPartition(rows: seq<Row>, now: nat)
    requires AllStorable(rows) && Writable(now)
    ensures CountOf(rows, Valid, now) + CountOf(rows, Expiring, now) + CountOf(rows, Expired, now) + CountOf(rows, Revoked, now) == |rows|
  {
    hide Filters, AllHold, CertificateStatus, SearchHolds, Writable, Storable;
    if rows != [] {
      CountsPartition(rows[1..], now);
      EmptySearchFindsAll(rows[0]);
      FilterSelectsLabel("", Valid, now, rows[0]);
      FilterSelectsLabel("", Expiring, now, rows[0]);
      FilterSelectsLabel("", Expired, now, rows[0]);
      FilterSelectsLabel("", Revoked, now, rows[0]);
    }
  }

  function Clamped(page: int): (r: int)
    ensures 1 <= r <= MAX_PAGE
  {
    if page < 1 then 1 else if page > MAX_PAGE then MAX_PAGE else page
  }

  function Cut(rows: seq<Row>, offset: nat, limit: nat): seq<Row>
  {
    if offset >= |rows| then [] else if offset + limit >= |rows| then rows[offset..] else rows[offset..offset + limit]
  }

  /** One page and the size of the whole selection; the rows come newest first. */
  function ListCertificates(rows: seq<Row>, q: string, status: string, page: int, perPage: nat, now: nat): (seq<Row>, nat)
    requires AllStorable(rows) && Writable(now)
  {
    var selected := Select(rows, Filters(q, status, now));
    (Cut(selected, (Clamped(page) - 1) * perPage, perPage), |selected|)
  }

  function ExportCertificates(rows: seq<Row>, q: string, status: string, now: nat): seq<Row>
    requires AllStorable(rows) && Writable(now)
  {
    Select(rows, Filters(q, status, now))
  }

  /** The first `pages` pages, one after the other. */
  function FirstPages(rows: seq<Row>, q: string, status: string, pages: nat, perPage: nat, now: nat): seq<Row>
    requires AllStorable(rows) && Writable(now)
  {
    if pages == 0 then []
    else FirstPages(rows, q, status, pages - 1, perPage, now) + ListCertificates(rows, q, status, pages, perPage, now).0
  }

  function Take(rows: seq<Row>, n: nat): seq<Row>
  {
    if n >= |rows| then rows else rows[..n]
  }

  lemma CutExtendsTake(rows: seq<Row>, offset: nat, limit: nat)
    ensures Take(rows, offset) + Cut(rows, offset, limit) == Take(rows, offset + limit)
  {
  }

  lemma {:induction false} PagesAreAPrefix(rows: seq<Row>, q: string, status: string, pages: nat, perPage: nat, now: nat)
    requires AllStorable(rows) && Writable(now) && pages <= MAX_PAGE
    ensures FirstPages(rows, q, status, pages, perPage, now) == Take(ExportCertificates(rows, q, status, now), pages * perPage)
  {
    hide Select, Filters, Writable, AllStorable;
    if pages > 0 {
      PagesAreAPrefix(rows, q, status, pages - 1, perPage, now);
      CutExtendsTake(ExportCertificates(rows, q, status, now), (pages - 1) * perPage, perPage);
      assert (pages - 1) * perPage + perPage == pages * perPage;
    }
  }

  /** All pages together are the export if and only if the selection fits into the
      pages that can be asked for. */
  lemma AllPagesAreTheExport(rows: seq<Row>, q: string, status: string, perPage: nat, now: nat)
    requires AllStorable(rows) && Writable(now)
    ensures
      var all := ExportCertificates(rows, q, status, now);
      && ListCertificates(rows, q, status, 1, perPage, now).1 == |all|
      && (FirstPages(rows, q, status, MAX_PAGE, perPage, now) == all <==> |all| <= MAX_PAGE * perPage)
  {
    hide Select, Filters, Writable, AllStorable;
    PagesAreAPrefix(rows, q, status, MAX_PAGE, perPage, now);
  }

  /** The export holds a row as often as the inventory does if the query selects it,
      and not at all otherwise: it adds, drops and repeats nothing. */
  lemma {:induction false} ExportIsTheSelection(rows: seq<Row>, conditions: seq<Condition>, row: Row)
    requires AllStorable(rows) && Storable(row)
    ensures multiset(Select(rows, conditions))[row] == if AllHold(conditions, row) then multiset(rows)[row] else 0
  {
    hide AllHold, Storable;
    if rows != [] {
      ExportIsTheSelection(rows[1..], conditions, row);
      assert rows == [rows[0]] + rows[1..];
    }
  }
}
