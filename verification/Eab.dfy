/**
 ACME accounts and external account binding: the tables, the statements that
 change them, and a whole new-account request (acme/eab.py, acme/api_account.py,
 `get_or_create_account` in acme/service.py).
 */
module Eab {
  import opened Prelude

  type Id = nat

  /** The thumbprint of an account key. */
  type Thumb = nat

  type IssuerId = nat

  datatype Account = Account(thumb: Thumb, issuer: IssuerId, valid: bool)

  datatype EabKey = EabKey(issuer: IssuerId, bound: Option<Id>, revoked: bool)

  /** `thumbs` and `carriers` are the two unique indexes: which account has a
      thumbprint, and which key is bound to an account. */
  datatype Db = Db(accounts: map<Id, Account>, keys: map<Id, EabKey>, thumbs: map<Thumb, Id>, carriers: map<Id, Id>, nextId: Id)

  datatype Error = Unauthorized | OtherIssuer | NoAccount | IssuerRetired | BindingRequired
                 | Malformed | BadAlgorithm | Refused | Internal

  /** `unseals` says whether the master key opens the key's secret, `mac` whether the
      inner signature verifies under it. */
  datatype Binding = MalformedBinding | WrongAlgorithm | Presented(key: Id, unseals: bool, mac: bool)

  datatype Request = Request(thumb: Thumb, issuer: IssuerId, issuerActive: bool, onlyExisting: bool,
                             binding: Option<Binding>, required: bool, contactsOk: bool)

  // ----- single statements ------------------------------------------------------------

  function GetOrCreate(db: Db, thumb: Thumb, issuer: IssuerId): (Db, Id, bool)
  {
    if thumb in db.thumbs then (db, db.thumbs[thumb], false)
    else
      (db.(accounts := db.accounts[db.nextId := Account(thumb, issuer, true)],
           thumbs := db.thumbs[thumb := db.nextId], nextId := db.nextId + 1),
       db.nextId, true)
  }

  function Verify(db: Db, presented: Binding, issuer: IssuerId): Option<Error>
  {
    if presented.MalformedBinding? then Some(Malformed)
    else if presented.WrongAlgorithm? then Some(BadAlgorithm)
    else if presented.key !in db.keys || db.keys[presented.key].revoked || db.keys[presented.key].bound.Some? then Some(Refused)
    else if db.keys[presented.key].issuer != issuer then Some(Refused)
    else if !presented.unseals then Some(Internal)
    else if !presented.mac then Some(Refused)
    else None
  }

  datatype BindOutcome = Bound | NotClaimed | Violation

  /** A conditional UPDATE, under a unique index and a foreign key. */
  function Bind(db: Db, key: Id, account: Id): (Db, BindOutcome)
  {
    if key !in db.keys || db.keys[key].bound.Some? || db.keys[key].revoked then (db, NotClaimed)
    else if account !in db.accounts || account in db.carriers then (db, Violation)
    else (db.(keys := db.keys[key := db.keys[key].(bound := Some(account))], carriers := db.carriers[account := key]), Bound)
  }

  /** A bound account is referenced and cannot be deleted. */
  function Delete(db: Db, account: Id): (Db, bool)
  {
    if account in db.accounts && account !in db.carriers then
      (db.(accounts := db.accounts - {account}, thumbs := db.thumbs - {db.accounts[account].thumb}), true)
    else (db, false)
  }

  function Mint(db: Db, issuer: IssuerId): Db
  {
    db.(keys := db.keys[db.nextId := EabKey(issuer, None, false)], nextId := db.nextId + 1)
  }

  function Revoke(db: Db, key: Id): Db
  {
    if key in db.keys then db.(keys := db.keys[key := db.keys[key].(revoked := true)]) else db
  }

  function Deactivate(db: Db, account: Id): Db
  {
    if account in db.accounts then db.(accounts := db.accounts[account := db.accounts[account].(valid := false)]) else db
  }

  /** The key changes hands, the account and its issuer do not. */
  function KeyChange(db: Db, account: Id, thumb: Thumb): (Db, bool)
  {
    if account in db.accounts && thumb !in db.thumbs then
      (db.(accounts := db.accounts[account := db.accounts[account].(thumb := thumb)],
           thumbs := (db.thumbs - {db.accounts[account].thumb})[thumb := account]), true)
    else (db, false)
  }

  // ----- a whole request ------------------------------------------------------------------

  /** Everything up to the creation: an answer, or the verified binding. */
  function Admit(db: Db, r: Request): Result<Option<Id>, Result<(Id, bool), Error>>
  {
    if r.thumb in db.thumbs && db.thumbs[r.thumb] in db.accounts then
      var account := db.thumbs[r.thumb];
      if !db.accounts[account].valid then Err(Err(Unauthorized))
      else if db.accounts[account].issuer != r.issuer then Err(Err(OtherIssuer))
      else Err(Ok((account, false)))
    else if r.onlyExisting then Err(Err(NoAccount))
    else if !r.issuerActive then Err(Err(IssuerRetired))
    else
      match r.binding
      case None =>
        if r.required then Err(Err(BindingRequired)) else if !r.contactsOk then Err(Err(Malformed)) else Ok(None)
      case Some(presented) =>
        match Verify(db, presented, r.issuer)
        case Some(error) => Err(Err(error))
        case None => if !r.contactsOk then Err(Err(Malformed)) else Ok(Some(presented.key))
  }

  /** Spending the verified key on the account. */
  function Spend(db: Db, key: Id, account: Id, created: bool): (Db, Result<(Id, bool), Error>)
  {
    if key in db.keys && db.keys[key].bound == Some(account) then (db, Ok((account, created)))
    else
      var (after, outcome) := Bind(db, key, account);
      match outcome
      case Bound => (after, Ok((account, created)))
      case Violation => (after, Err(Refused))
      case NotClaimed =>
        if created then
          var (removed, done) := Delete(after, account);
          (removed, Err(if done then Refused else Internal))
        else (after, Err(Refused))
  }

  function NewAccount(db: Db, r: Request): (Db, Result<(Id, bool), Error>)
  {
    match Admit(db, r)
    case Err(answer) => (db, answer)
    case Ok(binding) =>
      var (after, account, created) := GetOrCreate(db, r.thumb, r.issuer);
      if binding.None? then (after, Ok((account, created))) else Spend(after, binding.value, account, created)
  }

  // ----- what every statement keeps ----------------------------------------------------------

  /** The indexes say what the rows say: a thumbprint has one account, an account
      carries at most one key, a key is bound to an account that exists. */
  ghost predicate Tidy(db: Db)
  {
    && (forall t :: t in db.thumbs ==> db.thumbs[t] in db.accounts && db.accounts[db.thumbs[t]].thumb == t)
    && (forall a :: a in db.accounts ==> a < db.nextId && db.accounts[a].thumb in db.thumbs && db.thumbs[db.accounts[a].thumb] == a)
    && (forall k :: k in db.keys ==> k < db.nextId && (db.keys[k].bound.Some? ==>
          var a := db.keys[k].bound.value;
          a in db.accounts && a in db.carriers && db.carriers[a] == k))
    && (forall a :: a in db.carriers ==> db.carriers[a] in db.keys && db.keys[db.carriers[a]].bound == Some(a))
  }

  /** A key keeps its issuer and its account for life; an account keeps its issuer
      while it exists, and an id that is gone never comes back. */
  ghost predicate KeepsForLife(before: Db, after: Db)
  {
    && before.nextId <= after.nextId
    && (forall k :: k in before.keys ==>
          && k in after.keys && after.keys[k].issuer == before.keys[k].issuer
          && (before.keys[k].bound.Some? ==> after.keys[k].bound == before.keys[k].bound)
          && (before.keys[k].revoked ==> after.keys[k].revoked))
    && (forall a :: a in after.accounts && a < before.nextId ==> a in before.accounts && after.accounts[a].issuer == before.accounts[a].issuer)
  }

  lemma GetOrCreateKeeps(db: Db, thumb: Thumb, issuer: IssuerId)
    requires Tidy(db)
    ensures
      var (after, account, created) := GetOrCreate(db, thumb, issuer);
      && Tidy(after) && KeepsForLife(db, after)
      && account in after.accounts && account < after.nextId
      && (created ==> after.accounts[account].issuer == issuer && account !in after.carriers)
  {
  }

  lemma BindKeeps(db: Db, key: Id, account: Id)
    requires Tidy(db)
    ensures Tidy(Bind(db, key, account).0) && KeepsForLife(db, Bind(db, key, account).0)
  {
  }

  lemma DeleteKeeps(db: Db, account: Id)
    requires Tidy(db)
    ensures Tidy(Delete(db, account).0) && KeepsForLife(db, Delete(db, account).0)
  {
  }

  lemma MintKeeps(db: Db, issuer: IssuerId)
    requires Tidy(db)
    ensures Tidy(Mint(db, issuer)) && KeepsForLife(db, Mint(db, issuer))
  {
  }

  lemma RevokeKeeps(db: Db, key: Id)
    requires Tidy(db)
    ensures Tidy(Revoke(db, key)) && KeepsForLife(db, Revoke(db, key))
  {
  }

  lemma DeactivateKeeps(db: Db, account: Id)
    requires Tidy(db)
    ensures Tidy(Deactivate(db, account)) && KeepsForLife(db, Deactivate(db, account))
  {
  }

  lemma KeyChangeKeeps(db: Db, account: Id, thumb: Thumb)
    requires Tidy(db)
    ensures Tidy(KeyChange(db, account, thumb).0) && KeepsForLife(db, KeyChange(db, account, thumb).0)
  {
  }

  /** What the indexes give: no account carries two keys. */
  lemma OneKeyPerAccount(db: Db, j: Id, k: Id)
    requires Tidy(db) && j in db.keys && k in db.keys
    requires db.keys[j].bound.Some? && db.keys[j].bound == db.keys[k].bound
    ensures j == k
  {
    assert db.carriers[db.keys[j].bound.value] == j;
  }

  // ----- the tables in place ---------------------------------------------------------------------

  class AccountStore {
    var accounts: map<Id, Account>
    var keys: map<Id, EabKey>
    var thumbs: map<Thumb, Id>
    var carriers: map<Id, Id>
    var nextId: Id

    ghost function Contents(): Db
      reads this
    {
      Db(accounts, keys, thumbs, carriers, nextId)
    }

    constructor ()
      ensures Contents() == Db(map[], map[], map[], map[], 0)
    {
      accounts, keys, thumbs, carriers, nextId := map[], map[], map[], map[], 0;
    }

    method CreateKey(issuer: IssuerId) returns (key: Id)
      modifies this
      ensures Contents() == Mint(old(Contents()), issuer) && key == old(nextId)
    {
      key := nextId;
      keys := keys[key := EabKey(issuer, None, false)];
      nextId := nextId + 1;
    }

    method RevokeKey(key: Id) returns (changed: bool)
      modifies this
      ensures Contents() == Revoke(old(Contents()), key)
      ensures changed <==> Contents() != old(Contents())
    {
      if key !in keys || keys[key].revoked {
        assert Revoke(Contents(), key).keys == keys;
        return false;
      }
      keys := keys[key := keys[key].(revoked := true)];
      assert keys[key].revoked && !old(keys)[key].revoked;
      return true;
    }

    method GetOrCreateAccount(thumb: Thumb, issuer: IssuerId) returns (account: Id, created: bool)
      modifies this
      ensures (Contents(), account, created) == GetOrCreate(old(Contents()), thumb, issuer)
    {
      if thumb in thumbs {
        return thumbs[thumb], false;
      }
      account, created := nextId, true;
      accounts := accounts[account := Account(thumb, issuer, true)];
      thumbs := thumbs[thumb := account];
      nextId := nextId + 1;
    }

    method BindKey(key: Id, account: Id) returns (outcome: BindOutcome)
      modifies this
      ensures (Contents(), outcome) == Bind(old(Contents()), key, account)
    {
      if key !in keys || keys[key].bound.Some? || keys[key].revoked {
        return NotClaimed;
      }
      if account !in accounts || account in carriers {
        return Violation;
      }
      keys := keys[key := keys[key].(bound := Some(account))];
      carriers := carriers[account := key];
      return Bound;
    }

    method SpendBinding(key: Id, account: Id, created: bool) returns (answer: Result<(Id, bool), Error>)
      modifies this
      ensures (Contents(), answer) == Spend(old(Contents()), key, account, created)
    {
      if key in keys && keys[key].bound == Some(account) {
        return Ok((account, created));
      }
      var outcome := BindKey(key, account);
      if outcome == Bound {
        return Ok((account, created));
      }
      if outcome == Violation || !created {
        return Err(Refused);
      }
      if account !in accounts || account in carriers {
        return Err(Internal);
      }
      thumbs := thumbs - {accounts[account].thumb};
      accounts := accounts - {account};
      return Err(Refused);
    }

    method Register(r: Request) returns (answer: Result<(Id, bool), Error>)
      modifies this
      ensures (Contents(), answer) == NewAccount(old(Contents()), r)
    {
      if r.thumb in thumbs && thumbs[r.thumb] in accounts {
        var existing := accounts[thumbs[r.thumb]];
        if !existing.valid {
          return Err(Unauthorized);
        }
        if existing.issuer != r.issuer {
          return Err(OtherIssuer);
        }
        return Ok((thumbs[r.thumb], false));
      }
      if r.onlyExisting {
        return Err(NoAccount);
      }
      if !r.issuerActive {
        return Err(IssuerRetired);
      }
      if r.binding == None && r.required {
        return Err(BindingRequired);
      }
      if r.binding.Some? {
        var presented := r.binding.value;
        if presented.MalformedBinding? {
          return Err(Malformed);
        }
        if presented.WrongAlgorithm? {
          return Err(BadAlgorithm);
        }
        if presented.key !in keys || keys[presented.key].revoked || keys[presented.key].bound.Some? {
          return Err(Refused);
        }
        if keys[presented.key].issuer != r.issuer {
          return Err(Refused);
        }
        if !presented.unseals {
          return Err(Internal);
        }
        if !presented.mac {
          return Err(Refused);
        }
      }
      if !r.contactsOk {
        return Err(Malformed);
      }
      var account, created := GetOrCreateAccount(r.thumb, r.issuer);
      if r.binding == None {
        return Ok((account, created));
      }
      answer := SpendBinding(r.binding.value.key, account, created);
    }

    method ChangeKey(account: Id, thumb: Thumb) returns (changed: bool)
      modifies this
      ensures (Contents(), changed) == KeyChange(old(Contents()), account, thumb)
    {
      if account !in accounts || thumb in thumbs {
        return false;
      }
      thumbs := thumbs - {accounts[account].thumb};
      thumbs := thumbs[thumb := account];
      accounts := accounts[account := accounts[account].(thumb := thumb)];
      return true;
    }
  }
}
