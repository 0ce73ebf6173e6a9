/**
 The ACME tables and the transactions that change them (acme/service.py).

 Each function below is the effect of one committed transaction on the tables.
 AcmeStore.dfy holds the imperative form of the same transactions;
 AcmeProtocol.dfy interleaves them.
 */
module AcmeModel {
  import opened Prelude

  type Id = nat

  /** Seconds; every timestamp of the schema has second granularity. */
  type Time = int

  const ORDER_LIFETIME: Time := 7 * 86400
  const AUTHZ_LIFETIME: Time := 7 * 86400

  datatype IdentifierKind = Dns | Ip

  /** `value` is what the order echoes; `baseValue` drops the star of a wildcard. */
  datatype Identifier = Identifier(kind: IdentifierKind, value: string, baseValue: string, wildcard: bool)

  datatype ChallengeType = Http01 | Dns01 | TlsAlpn01

  datatype OrderStatus = OrderPending | OrderReady | OrderProcessing | OrderValid | OrderInvalid

  datatype AuthzStatus = AuthzPending | AuthzValid | AuthzInvalid | AuthzExpired

  datatype ChallengeStatus = ChallengePending | ChallengeProcessing | ChallengeValid | ChallengeInvalid

  datatype Account = Account(issuer: Id)

  datatype Order = Order(account: Id, status: OrderStatus, identifiers: seq<Identifier>, expires: Time, certificate: Option<Id>)

  datatype Authz = Authz(order: Id, kind: IdentifierKind, value: string, wildcard: bool, status: AuthzStatus, expires: Time)

  datatype Challenge = Challenge(authz: Id, kind: ChallengeType, status: ChallengeStatus)

  /** Which front door a certificate came out of. The order is history: the
      certificate table itself does not record it. */
  datatype Source = Acme(order: Id) | OtherDoor

  datatype San = San(kind: IdentifierKind, value: string)

  datatype Certificate = Certificate(issuer: Id, sans: seq<San>, source: Source)

  /** The tables. Ids are random in the source; here they come from a counter,
      which models the same freshness. */
  datatype Db = Db(
    accounts: map<Id, Account>,
    orders: map<Id, Order>,
    authzs: map<Id, Authz>,
    challenges: map<Id, Challenge>,
    certs: map<Id, Certificate>,
    nextId: Id)

  function ChallengeTypesFor(kind: IdentifierKind, wildcard: bool): seq<ChallengeType>
  {
    if wildcard then [Dns01]
    else if kind == Ip then [Http01, TlsAlpn01]
    else [Http01, Dns01, TlsAlpn01]
  }

  // ----- reading a status ------------------------------------------------------

  function AuthzReads(a: Authz, now: Time): AuthzStatus
  {
    if a.status in {AuthzPending, AuthzValid} && a.expires <= now then AuthzExpired else a.status
  }

  function AuthzsOf(db: Db, order: Id): set<Id>
  {
    set a | a in db.authzs && db.authzs[a].order == order
  }

  /** `row` is the order row the reader holds; the authorizations are read now. */
  function OrderReads(db: Db, order: Id, row: Order, now: Time): OrderStatus
  {
    if row.status !in {OrderPending, OrderReady} then row.status
    else if row.expires <= now then OrderInvalid
    else if exists a :: a in AuthzsOf(db, order) && AuthzReads(db.authzs[a], now) in {AuthzInvalid, AuthzExpired} then OrderInvalid
    else if AuthzsOf(db, order) != {} && forall a :: a in AuthzsOf(db, order) ==> AuthzReads(db.authzs[a], now) == AuthzValid then OrderReady
    else OrderPending
  }

  // ----- new-order -------------------------------------------------------------

  function AddChallenges(db: Db, authz: Id, types: seq<ChallengeType>): Db
    decreases |types|
  {
    if types == [] then db
    else
      AddChallenges(
        db.(challenges := db.challenges[db.nextId := Challenge(authz, types[0], ChallengePending)], nextId := db.nextId + 1),
        authz, types[1..])
  }

  function AddAuthz(db: Db, order: Id, identifier: Identifier, expires: Time): Db
  {
    var authz := Authz(order, identifier.kind, identifier.baseValue, identifier.wildcard, AuthzPending, expires);
    AddChallenges(
      db.(authzs := db.authzs[db.nextId := authz], nextId := db.nextId + 1),
      db.nextId, ChallengeTypesFor(identifier.kind, identifier.wildcard))
  }

  function AddAuthzs(db: Db, order: Id, identifiers: seq<Identifier>, expires: Time): Db
    decreases |identifiers|
  {
    if identifiers == [] then db
    else AddAuthzs(AddAuthz(db, order, identifiers[0], expires), order, identifiers[1..], expires)
  }

  function CreateOrder(db: Db, account: Id, identifiers: seq<Identifier>, now: Time): Db
  {
    var row := Order(account, OrderPending, identifiers, now + ORDER_LIFETIME, None);
    AddAuthzs(
      db.(orders := db.orders[db.nextId := row], nextId := db.nextId + 1),
      db.nextId, identifiers, now + AUTHZ_LIFETIME)
  }

  // ----- challenges ------------------------------------------------------------

  datatype TriggerError = AlreadyFailed | NotPending(seen: AuthzStatus)

  /** What the trigger decides from the rows it has read: an error, a no-op
      (`Ok(false)`), or an attempt to claim the challenge (`Ok(true)`). */
  function TriggerDecision(c: Challenge, a: Authz, now: Time): Result<bool, TriggerError>
  {
    if c.status in {ChallengeProcessing, ChallengeValid} then Ok(false)
    else if c.status == ChallengeInvalid then Err(AlreadyFailed)
    else if AuthzReads(a, now) != AuthzPending then Err(NotPending(AuthzReads(a, now)))
    else Ok(true)
  }

  /** The conditional UPDATE pending -> processing; the flag is `rowcount == 1`. */
  function BeginChallenge(db: Db, challenge: Id): (Db, bool)
  {
    if challenge in db.challenges && db.challenges[challenge].status == ChallengePending then
      (db.(challenges := db.challenges[challenge := db.challenges[challenge].(status := ChallengeProcessing)]), true)
    else (db, false)
  }

  /** Both rows become valid together, whatever they held. */
  function RecordSuccess(db: Db, challenge: Id, authz: Id): Db
    requires challenge in db.challenges && authz in db.authzs
  {
    db.(challenges := db.challenges[challenge := db.challenges[challenge].(status := ChallengeValid)],
        authzs := db.authzs[authz := db.authzs[authz].(status := AuthzValid)])
  }

  /** Conditional on the attempt still being the running one. */
  function RecordFailure(db: Db, challenge: Id): Db
  {
    if challenge in db.challenges && db.challenges[challenge].status == ChallengeProcessing then
      db.(challenges := db.challenges[challenge := db.challenges[challenge].(status := ChallengeInvalid)])
    else db
  }

  // ----- finalization ----------------------------------------------------------

  /** The conditional UPDATE that guards against issuing twice. */
  function ClaimOrder(db: Db, order: Id): (Db, bool)
  {
    if && order in db.orders
       && db.orders[order].certificate == None
       && db.orders[order].status in {OrderPending, OrderReady}
    then (db.(orders := db.orders[order := db.orders[order].(status := OrderProcessing)]), true)
    else (db, false)
  }

  /** Unconditional: back to the stored `pending`. */
  function ReleaseClaim(db: Db, order: Id): Db
    requires order in db.orders
  {
    db.(orders := db.orders[order := db.orders[order].(status := OrderPending)])
  }

  /** Unconditional: the order names its certificate and is valid. */
  function AttachCertificate(db: Db, order: Id, certificate: Id): Db
    requires order in db.orders
  {
    db.(orders := db.orders[order := db.orders[order].(status := OrderValid, certificate := Some(certificate))])
  }

  function SansOf(identifiers: seq<Identifier>): (sans: seq<San>)
    ensures |sans| == |identifiers|
    ensures forall k :: 0 <= k < |identifiers| ==> sans[k] == San(identifiers[k].kind, identifiers[k].value)
  {
    seq(|identifiers|, k requires 0 <= k < |identifiers| => San(identifiers[k].kind, identifiers[k].value))
  }

  /** Signing stores one certificate row, under the issuer of the order's account. */
  function StoreAcmeCertificate(db: Db, order: Id): Db
    requires order in db.orders && db.orders[order].account in db.accounts
  {
    var row := db.orders[order];
    db.(certs := db.certs[db.nextId := Certificate(db.accounts[row.account].issuer, SansOf(row.identifiers), Acme(order))],
        nextId := db.nextId + 1)
  }
}
