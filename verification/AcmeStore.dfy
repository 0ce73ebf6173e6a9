/**
 acme/service.py in its own form: functions that update rows and commit.
 Every method is one transaction, proved against the function of AcmeModel
 that the protocol proofs use.
 */
module AcmeStore {
  import opened Prelude
  import opened AcmeModel

  class Store {
    var accounts: map<Id, Account>
    var orders: map<Id, Order>
    var authzs: map<Id, Authz>
    var challenges: map<Id, Challenge>
    var certs: map<Id, Certificate>
    var nextId: Id

    ghost function Tables(): Db
      reads this
    {
      Db(accounts, orders, authzs, challenges, certs, nextId)
    }

    constructor ()
      ensures Tables() == Db(map[], map[], map[], map[], map[], 0)
    {
      accounts, orders, authzs, challenges, certs, nextId := map[], map[], map[], map[], map[], 0;
    }

    method NewId() returns (id: Id)
      modifies this`nextId
      ensures id == old(nextId) && nextId == old(nextId) + 1
    {
      id := nextId;
      nextId := nextId + 1;
    }

    /** One authorization and its challenges. */
    method AddAuthorization(order: Id, identifier: Identifier, expires: Time)
      modifies this`authzs, this`challenges, this`nextId
      ensures Tables() == AddAuthz(old(Tables()), order, identifier, expires)
    {
      var authz := NewId();
      authzs := authzs[authz := Authz(order, identifier.kind, identifier.baseValue, identifier.wildcard, AuthzPending, expires)];
      ghost var placed := Tables();
      var types := ChallengeTypesFor(identifier.kind, identifier.wildcard);
      for j := 0 to |types|
        invariant accounts == old(accounts) && orders == old(orders) && certs == old(certs)
        invariant AddChallenges(Tables(), authz, types[j..]) == AddChallenges(placed, authz, types)
      {
        assert types[j..][0] == types[j] && types[j..][1..] == types[j + 1..];
        var challenge := NewId();
        challenges := challenges[challenge := Challenge(authz, types[j], ChallengePending)];
      }
      assert types[|types|..] == [];
    }

    /** The order and one authorization per identifier, in one transaction. */
    method CreateOrder(account: Id, identifiers: seq<Identifier>, now: Time) returns (order: Id)
      modifies this
      ensures order == old(nextId)
      ensures Tables() == AcmeModel.CreateOrder(old(Tables()), account, identifiers, now)
    {
      hide AddAuthz;
      order := NewId();
      orders := orders[order := Order(account, OrderPending, identifiers, now + ORDER_LIFETIME, None)];
      ghost var start := Tables();
      var expires := now + AUTHZ_LIFETIME;
      for i := 0 to |identifiers|
        invariant AddAuthzs(Tables(), order, identifiers[i..], expires) == AddAuthzs(start, order, identifiers, expires)
      {
        assert identifiers[i..][0] == identifiers[i] && identifiers[i..][1..] == identifiers[i + 1..];
        AddAuthorization(order, identifiers[i], expires);
      }
      assert identifiers[|identifiers|..] == [];
    }

    /** `scheduled` is true when this call is the one that won the challenge.
        The rows are read first; the UPDATE then re-tests the status. */
    method BeginChallenge(challenge: Id, now: Time) returns (scheduled: Result<bool, TriggerError>)
      requires challenge in challenges && challenges[challenge].authz in authzs
      modifies this`challenges
      ensures
        var decision := TriggerDecision(old(challenges)[challenge], authzs[old(challenges)[challenge].authz], now);
        && scheduled == decision
        && Tables() == (if decision == Ok(true) then AcmeModel.BeginChallenge(old(Tables()), challenge).0 else old(Tables()))
    {
      var row := challenges[challenge];
      if row.status == ChallengeProcessing || row.status == ChallengeValid {
        return Ok(false);
      }
      if row.status == ChallengeInvalid {
        return Err(AlreadyFailed);
      }
      var seen := AuthzReads(authzs[row.authz], now);
      if seen != AuthzPending {
        return Err(NotPending(seen));
      }
      var rowcount := 0;
      if challenges[challenge].status == ChallengePending {
        challenges := challenges[challenge := challenges[challenge].(status := ChallengeProcessing)];
        rowcount := 1;
      }
      return Ok(rowcount == 1);
    }

    method RecordChallengeSuccess(challenge: Id, authz: Id)
      requires challenge in challenges && authz in authzs
      modifies this`challenges, this`authzs
      ensures Tables() == RecordSuccess(old(Tables()), challenge, authz)
    {
      challenges := challenges[challenge := challenges[challenge].(status := ChallengeValid)];
      authzs := authzs[authz := authzs[authz].(status := AuthzValid)];
    }

    method RecordChallengeFailure(challenge: Id)
      modifies this`challenges
      ensures Tables() == RecordFailure(old(Tables()), challenge)
    {
      if challenge in challenges && challenges[challenge].status == ChallengeProcessing {
        challenges := challenges[challenge := challenges[challenge].(status := ChallengeInvalid)];
      }
    }

    /** One validation attempt, run to a conclusion: every exit of a processing
        challenge is `valid` or `invalid`, and nothing else is touched. `proof`
        is the validator's verdict on the challenge it was given. */
    method AttemptValidation(challenge: Id, proof: bool)
      requires challenge in challenges ==> challenges[challenge].authz in authzs
      modifies this`challenges, this`authzs
      ensures
        if challenge !in old(challenges) || old(challenges)[challenge].status != ChallengeProcessing then Tables() == old(Tables())
        else if proof then Tables() == RecordSuccess(old(Tables()), challenge, old(challenges)[challenge].authz)
        else Tables() == RecordFailure(old(Tables()), challenge)
      ensures challenge in challenges ==> challenges[challenge].status != ChallengeProcessing
    {
      if challenge !in challenges || challenges[challenge].status != ChallengeProcessing {
        return;
      }
      var authz := challenges[challenge].authz;
      if proof {
        RecordChallengeSuccess(challenge, authz);
      } else {
        RecordChallengeFailure(challenge);
      }
    }

    method ClaimForIssuance(order: Id) returns (claimed: bool)
      modifies this`orders
      ensures (Tables(), claimed) == ClaimOrder(old(Tables()), order)
    {
      if order in orders && orders[order].certificate == None && orders[order].status in {OrderPending, OrderReady} {
        orders := orders[order := orders[order].(status := OrderProcessing)];
        return true;
      }
      return false;
    }

    method ReleaseClaim(order: Id)
      requires order in orders
      modifies this`orders
      ensures Tables() == AcmeModel.ReleaseClaim(old(Tables()), order)
    {
      orders := orders[order := orders[order].(status := OrderPending)];
    }

    method AttachCertificate(order: Id, certificate: Id)
      requires order in orders
      modifies this`orders
      ensures Tables() == AcmeModel.AttachCertificate(old(Tables()), order, certificate)
    {
      orders := orders[order := orders[order].(certificate := Some(certificate), status := OrderValid)];
    }

    method SignAndStore(order: Id, signable: bool) returns (certificate: Option<Id>)
      requires order in orders && orders[order].account in accounts
      modifies this`certs, this`nextId
      ensures certificate == if signable then Some(old(nextId)) else None
      ensures Tables() == if signable then StoreAcmeCertificate(old(Tables()), order) else old(Tables())
    {
      if !signable {
        return None;
      }
      var id := NewId();
      var row := orders[order];
      certs := certs[id := Certificate(accounts[row.account].issuer, SansOf(row.identifiers), Acme(order))];
      return Some(id);
    }

    /** A finalize request nobody races with: it issues exactly when the order
        reads ready and names no certificate yet, and otherwise changes nothing;
        a signing failure gives the claim back. */
    method FinalizeAlone(order: Id, csrMatches: bool, signable: bool, now: Time) returns (issued: bool)
      requires order in orders && orders[order].account in accounts
      modifies this
      ensures
        var was := old(Tables());
        var wanted := was.orders[order].certificate == None
                      && OrderReads(was, order, was.orders[order], now) == OrderReady && csrMatches;
        && issued == (wanted && signable)
        && (!wanted ==> Tables() == was)
        && (wanted && !signable ==> Tables() == was.(orders := was.orders[order := was.orders[order].(status := OrderPending)]))
        && (issued ==>
              && orders == was.orders[order := was.orders[order].(status := OrderValid, certificate := Some(was.nextId))]
              && certs == was.certs[was.nextId := Certificate(was.accounts[was.orders[order].account].issuer, SansOf(was.orders[order].identifiers), Acme(order))]
              && authzs == was.authzs && challenges == was.challenges && accounts == was.accounts)
    {
      if orders[order].certificate != None {
        return false;
      }
      var seen := OrderReads(Db(accounts, orders, authzs, challenges, certs, nextId), order, orders[order], now);
      if seen != OrderReady || !csrMatches {
        return false;
      }
      var claimed := ClaimForIssuance(order);
      if !claimed {
        return false;
      }
      var certificate := SignAndStore(order, signable);
      if certificate == None {
        ReleaseClaim(order);
        return false;
      }
      AttachCertificate(order, certificate.value);
      return true;
    }
  }
}
