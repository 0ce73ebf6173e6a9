/**
 Anti-replay nonces and the request check that spends them (acme/nonces.py and
 `verify_request` in acme/jws.py).
 */
module Nonces {
  import opened Prelude
  import opened Text

  /** Seconds. */
  type Time = int

  type Key = nat

  const NONCE_LIFETIME: Time := 24 * 3600

  /** The unused nonces with the time each was issued. */
  type Table = map<string, Time>

  // ----- the table ------------------------------------------------------------------

  function Purge(table: Table, now: Time): Table
  {
    map n | n in table && table[n] >= now - NONCE_LIFETIME :: table[n]
  }

  function Insert(table: Table, nonce: string, at: Time): Table
  {
    table[nonce := at]
  }

  /** One DELETE decides and spends. */
  function Consume(table: Table, nonce: string, now: Time): (Table, bool)
  {
    if nonce != "" && nonce in table && table[nonce] >= now - NONCE_LIFETIME then (table - {nonce}, true) else (table, false)
  }

  class NonceTable {
    var rows: Table

    constructor ()
      ensures rows == map[]
    {
      rows := map[];
    }

    /** Two commits: the sweep, then the new row, which a nonce that is still there
        would keep out. */
    method Issue(nonce: string, now: Time) returns (issued: bool)
      modifies this
      ensures issued <==> nonce !in Purge(old(rows), now)
      ensures rows == if issued then Insert(Purge(old(rows), now), nonce, now) else Purge(old(rows), now)
    {
      var _ := PurgeExpired(now);
      if nonce in rows {
        return false;
      }
      rows := rows[nonce := now];
      return true;
    }

    method ConsumeNonce(nonce: string, now: Time) returns (spent: bool)
      modifies this
      ensures (rows, spent) == Consume(old(rows), nonce, now)
    {
      if nonce == "" {
        return false;
      }
      var before := rows;
      rows := map n | n in rows && !(n == nonce && rows[n] >= now - NONCE_LIFETIME) :: rows[n];
      spent := nonce in before && nonce !in rows;
      assert rows == if spent then before - {nonce} else before;
    }

    method PurgeExpired(now: Time) returns (gone: nat)
      modifies this
      ensures rows == Purge(old(rows), now)
      ensures gone == |old(rows).Keys| - |rows.Keys|
    {
      var before := rows;
      rows := map n | n in rows && !(rows[n] < now - NONCE_LIFETIME) :: rows[n];
      KeptKeys(rows.Keys, before.Keys);
      gone := |before.Keys| - |rows.Keys|;
    }
  }

  lemma {:induction false} KeptKeys(kept: set<string>, all: set<string>)
    requires kept <= all
    ensures |kept| <= |all|
  {
    if kept != {} {
      var n :| n in kept;
      KeptKeys(kept - {n}, all - {n});
    }
  }

  // ----- the request check -----------------------------------------------------------

  datatype KeyMode = ByJwk | ByKid

  /** `keyFits` says whether the stored key can carry the request's algorithm. */
  datatype Account = Account(valid: bool, key: Key, keyFits: bool)

  /** An inline key that is malformed, private or of the wrong kind is unusable. */
  datatype InlineKey = UnusableKey | UsableKey(key: Key)

  datatype Payload = NoPayload | ObjectPayload(text: string) | BadPayload

  /** A request body. `signer` is the key under which its signature verifies. */
  datatype Request = Unparsable | Request(
    algorithmAllowed: bool, jwk: Option<InlineKey>, kid: Option<string>,
    url: string, nonce: Option<string>, signer: Key, payload: Payload)

  /** What the route and the database supply. */
  datatype Context = Context(url: string, mode: KeyMode, accountPrefix: string, accounts: map<string, Account>)

  datatype Error = Malformed | BadAlgorithm | Unauthorized | NoSuchAccount | BadKey | BadNonce

  datatype Verified = Verified(key: Key, account: Option<string>, payload: Payload)

  function AccountForKid(kid: string, c: Context): Result<string, Error>
  {
    if !StartsWith(kid, c.accountPrefix) then Err(Unauthorized)
    else
      var id := kid[|c.accountPrefix|..];
      if id == "" || '/' in id then Err(Unauthorized)
      else if id !in c.accounts then Err(NoSuchAccount)
      else if !c.accounts[id].valid then Err(Unauthorized)
      else Ok(id)
  }

  /** The key the request must be signed with, and the account it speaks for. */
  function KeyFor(r: Request, c: Context): Result<(Key, Option<string>), Error>
    requires r.Request? && r.jwk.Some? != r.kid.Some?
  {
    if r.kid.Some? then
      match AccountForKid(r.kid.value, c)
      case Err(error) => Err(error)
      case Ok(id) => if c.accounts[id].keyFits then Ok((c.accounts[id].key, Some(id))) else Err(BadKey)
    else
      match r.jwk.value
      case UnusableKey => Err(BadKey)
      case UsableKey(key) => Ok((key, None))
  }

  /** Everything that is checked before the nonce is spent. */
  function CheckSigned(r: Request, c: Context): Result<(Key, Option<string>), Error>
  {
    if r.Unparsable? then Err(Malformed)
    else if !r.algorithmAllowed then Err(BadAlgorithm)
    else if r.jwk.Some? == r.kid.Some? then Err(Malformed)
    else if c.mode == ByJwk && r.jwk.None? then Err(Malformed)
    else if c.mode == ByKid && r.kid.None? then Err(Malformed)
    else if r.url != c.url then Err(Unauthorized)
    else if r.nonce.None? || r.nonce.value == "" then Err(BadNonce)
    else
      match KeyFor(r, c)
      case Err(error) => Err(error)
      case Ok((key, account)) => if r.signer != key then Err(Malformed) else Ok((key, account))
  }

  function VerifyRequest(table: Table, r: Request, c: Context, now: Time): (Table, Result<Verified, Error>)
  {
    match CheckSigned(r, c)
    case Err(error) => (table, Err(error))
    case Ok((key, account)) =>
      var (after, spent) := Consume(table, r.nonce.value, now);
      if !spent then (after, Err(BadNonce))
      else if r.payload == BadPayload then (after, Err(Malformed))
      else (after, Ok(Verified(key, account, r.payload)))
  }

  /** The order of the checks, with the table written by the last of them only. */
  method Authenticate(nonces: NonceTable, r: Request, c: Context, now: Time) returns (result: Result<Verified, Error>)
    modifies nonces
    ensures (nonces.rows, result) == VerifyRequest(old(nonces.rows), r, c, now)
  {
    if r.Unparsable? {
      return Err(Malformed);
    }
    if !r.algorithmAllowed {
      return Err(BadAlgorithm);
    }
    if r.jwk.Some? == r.kid.Some? {
      return Err(Malformed);
    }
    if (c.mode == ByJwk && r.jwk.None?) || (c.mode == ByKid && r.kid.None?) {
      return Err(Malformed);
    }
    if r.url != c.url {
      return Err(Unauthorized);
    }
    if r.nonce.None? || r.nonce.value == "" {
      return Err(BadNonce);
    }
    var account: Option<string> := None;
    var key: Key;
    if r.kid.Some? {
      var found := AccountForKid(r.kid.value, c);
      if found.Err? {
        return Err(found.error);
      }
      if !c.accounts[found.value].keyFits {
        return Err(BadKey);
      }
      account, key := Some(found.value), c.accounts[found.value].key;
    } else {
      if r.jwk.value.UnusableKey? {
        return Err(BadKey);
      }
      key := r.jwk.value.key;
    }
    if r.signer != key {
      return Err(Malformed);
    }
    var spent := nonces.ConsumeNonce(r.nonce.value, now);
    if !spent {
      return Err(BadNonce);
    }
    if r.payload == BadPayload {
      return Err(Malformed);
    }
    return Ok(Verified(key, account, r.payload));
  }

  /** A request writes the table exactly when it would spend its nonce, and that
      takes the holder's own signature: a forged request leaves every nonce alone. */
  lemma OnlySignedRequestsSpend(table: Table, r: Request, c: Context, now: Time)
    ensures
      var (after, result) := VerifyRequest(table, r, c, now);
      && (after != table <==> CheckSigned(r, c).Ok? && r.nonce.value in table && table[r.nonce.value] >= now - NONCE_LIFETIME)
      && (after != table ==>
            && after == table - {r.nonce.value}
            && (c.mode == ByJwk ==> r.kid == None && r.jwk == Some(UsableKey(r.signer)))
            && (c.mode == ByKid ==>
                  && r.jwk == None && r.kid.Some? && StartsWith(r.kid.value, c.accountPrefix)
                  && var id := r.kid.value[|c.accountPrefix|..];
                     id in c.accounts && c.accounts[id].valid && c.accounts[id].key == r.signer))
      && (result.Ok? ==> after != table)
  {
    var (after, result) := VerifyRequest(table, r, c, now);
    if after != table || (CheckSigned(r, c).Ok? && r.nonce.value in table && table[r.nonce.value] >= now - NONCE_LIFETIME) {
      assert r.nonce.value !in table - {r.nonce.value};
    }
  }

  // ----- runs ----------------------------------------------------------------------------

  /** Each is one commit; issuing is a sweep and an insertion, with anything between. */
  datatype Event =
    | Sweep(at: Time)
    | Issued(nonce: string, at: Time)
    | Post(request: Request, context: Context, at: Time)

  function Step(table: Table, e: Event, purging: bool): Table
  {
    match e
    case Sweep(at) => if purging then Purge(table, at) else table
    case Issued(nonce, at) => Insert(table, nonce, at)
    case Post(request, context, at) => VerifyRequest(table, request, context, at).0
  }

  function TableAfter(events: seq<Event>, purging: bool): Table
  {
    if events == [] then map[] else Step(TableAfter(events[..|events| - 1], purging), events[|events| - 1], purging)
  }

  /** What the k-th event answers, if it is a request. */
  function Answer(events: seq<Event>, k: nat, purging: bool): Result<Verified, Error>
    requires k < |events| && events[k].Post?
  {
    VerifyRequest(TableAfter(events[..k], purging), events[k].request, events[k].context, events[k].at).1
  }

  /** A request never reads an earlier clock than a sweep before it. */
  predicate ClockAdvances(events: seq<Event>)
  {
    forall i, j :: 0 <= i < j < |events| && events[i].Sweep? && events[j].Post? ==> events[i].at <= events[j].at
  }

  /** The swept table lacks only rows too old for anything asked after `clock`. */
  ghost predicate Covers(swept: Table, full: Table, clock: Option<Time>)
  {
    && (forall n :: n in swept ==> n in full && full[n] == swept[n])
    && (forall n :: n in full && n !in swept ==> clock.Some? && full[n] < clock.value - NONCE_LIFETIME)
  }

  function LatestSweep(events: seq<Event>): Option<Time>
  {
    if events == [] then None
    else
      var before, e := LatestSweep(events[..|events| - 1]), events[|events| - 1];
      if e.Sweep? && (before.None? || before.value < e.at) then Some(e.at) else before
  }

  lemma {:induction false} LatestSweepIsEarlier(events: seq<Event>, k: nat)
    requires k < |events| && ClockAdvances(events) && events[k].Post?
    ensures LatestSweep(events[..k]).Some? ==> LatestSweep(events[..k]).value <= events[k].at
  {
    SweepHappened(events[..k]);
  }

  lemma {:induction false} SweepHappened(events: seq<Event>)
    ensures LatestSweep(events).Some? ==> exists i :: 0 <= i < |events| && events[i] == Sweep(LatestSweep(events).value)
  {
    if events != [] {
      var init := events[..|events| - 1];
      SweepHappened(init);
      if LatestSweep(events).Some? {
        if LatestSweep(events) == LatestSweep(init) {
          var i :| 0 <= i < |init| && init[i] == Sweep(LatestSweep(init).value);
          assert events[i] == Sweep(LatestSweep(events).value);
        } else {
          assert events[|events| - 1] == Sweep(LatestSweep(events).value);
        }
      }
    }
  }

  lemma SameAnswer(swept: Table, full: Table, clock: Option<Time>, r: Request, c: Context, now: Time)
    requires Covers(swept, full, clock) && (clock.Some? ==> clock.value <= now)
    ensures VerifyRequest(swept, r, c, now).1 == VerifyRequest(full, r, c, now).1
    ensures Covers(VerifyRequest(swept, r, c, now).0, VerifyRequest(full, r, c, now).0, clock)
  {
    hide CheckSigned;
  }

  lemma {:induction false} SweptTableCovers(events: seq<Event>)
    requires ClockAdvances(events)
    ensures Covers(TableAfter(events, true), TableAfter(events, false), LatestSweep(events))
  {
    hide VerifyRequest;
    if events != [] {
      var init, e := events[..|events| - 1], events[|events| - 1];
      SweptTableCovers(init);
      if e.Post? {
        LatestSweepIsEarlier(events, |events| - 1);
        SameAnswer(TableAfter(init, true), TableAfter(init, false), LatestSweep(init), e.request, e.context, e.at);
      }
    }
  }

  /** Sweeping is invisible: every request of every interleaving is answered as over
      a table that is never swept. */
  lemma SweepingIsInvisible(events: seq<Event>, k: nat)
    requires k < |events| && events[k].Post? && ClockAdvances(events)
    ensures Answer(events, k, true) == Answer(events, k, false)
  {
    SweptTableCovers(events[..k]);
    LatestSweepIsEarlier(events, k);
    SameAnswer(TableAfter(events[..k], true), TableAfter(events[..k], false), LatestSweep(events[..k]),
               events[k].request, events[k].context, events[k].at);
  }

  function TimesIssued(events: seq<Event>, nonce: string): nat
  {
    if events == [] then 0
    else TimesIssued(events[..|events| - 1], nonce)
         + if events[|events| - 1].Issued? && events[|events| - 1].nonce == nonce then 1 else 0
  }

  function TimesAuthenticated(events: seq<Event>, nonce: string, purging: bool): nat
  {
    if events == [] then 0
    else
      var last := |events| - 1;
      TimesAuthenticated(events[..last], nonce, purging)
      + if events[last].Post? && events[last].request.Request? && events[last].request.nonce == Some(nonce)
           && Answer(events, last, purging).Ok? then 1 else 0
  }

  /** A nonce authenticates at most as many requests as it was issued times: one,
      since the server draws each of them afresh. */
  lemma {:induction false} EachNonceAtMostOnce(events: seq<Event>, nonce: string, purging: bool)
    ensures TimesAuthenticated(events, nonce, purging) + (if nonce in TableAfter(events, purging) then 1 else 0)
         <= TimesIssued(events, nonce)
  {
    if events != [] {
      var init, e := events[..|events| - 1], events[|events| - 1];
      EachNonceAtMostOnce(init, nonce, purging);
      if e.Post? {
        OnlySignedRequestsSpend(TableAfter(init, purging), e.request, e.context, e.at);
        assert e.request.Unparsable? ==> CheckSigned(e.request, e.context).Err?;
        hide VerifyRequest, CheckSigned;
        assert Answer(events, |events| - 1, purging) == VerifyRequest(TableAfter(init, purging), e.request, e.context, e.at).1;
      }
    }
  }
}
