/**
 External account binding over runs: new-account requests racing statement by
 statement, and the same requests one at a time.
 */
module EabRuns {
  import opened Prelude
  import opened Eab

  type ThreadId = nat

  /** Where one new-account request stands between two commits. */
  datatype Phase =
    | Started
    | Admitted(binding: Option<Id>)
    | HasAccount(key: Id, account: Id, created: bool)
    | AboutToBind(key: Id, account: Id, created: bool)
    | Losing(account: Id)
    | Answered(answer: Result<(Id, bool), Error>)

  datatype Thread = Thread(request: Request, phase: Phase)

  datatype System = System(db: Db, threads: map<ThreadId, Thread>)

  datatype Event =
    | Arrive(thread: ThreadId, request: Request)
    | Advance(thread: ThreadId)
    | Crash(thread: ThreadId)
    | MintKey(issuer: IssuerId)
    | RevokeEabKey(key: Id)
    | DeactivateAccount(account: Id)
    | ChangeAccountKey(account: Id, thumb: Thumb)

  /** One thread, one step. */
  function Proceed(db: Db, thread: Thread): (Db, Phase)
  {
    var r := thread.request;
    match thread.phase
    case Started =>
      (match Admit(db, r)
       case Err(answer) => (db, Answered(answer))
       case Ok(binding) => (db, Admitted(binding)))
    case Admitted(binding) =>
      var (after, account, created) := GetOrCreate(db, r.thumb, r.issuer);
      (after, if binding.None? then Answered(Ok((account, created))) else HasAccount(binding.value, account, created))
    case HasAccount(key, account, created) =>
      (db, if key in db.keys && db.keys[key].bound == Some(account) then Answered(Ok((account, created))) else AboutToBind(key, account, created))
    case AboutToBind(key, account, created) =>
      var (after, outcome) := Bind(db, key, account);
      (after, match outcome
              case Bound => Answered(Ok((account, created)))
              case Violation => Answered(Err(Refused))
              case NotClaimed => if created then Losing(account) else Answered(Err(Refused)))
    case Losing(account) =>
      var (after, done) := Delete(db, account);
      (after, Answered(Err(if done then Refused else Internal)))
    case Answered(_) => (db, thread.phase)
  }

  function Step(sys: System, e: Event): System
  {
    match e
    case Arrive(t, r) => if t in sys.threads then sys else sys.(threads := sys.threads[t := Thread(r, Started)])
    case Advance(t) =>
      if t in sys.threads then
        var (db, phase) := Proceed(sys.db, sys.threads[t]);
        System(db, sys.threads[t := sys.threads[t].(phase := phase)])
      else sys
    case Crash(t) => sys.(threads := sys.threads - {t})
    case MintKey(issuer) => sys.(db := Mint(sys.db, issuer))
    case RevokeEabKey(key) => sys.(db := Revoke(sys.db, key))
    case DeactivateAccount(account) => sys.(db := Deactivate(sys.db, account))
    case ChangeAccountKey(account, thumb) => sys.(db := KeyChange(sys.db, account, thumb).0)
  }

  function Init(): System
  {
    System(Db(map[], map[], map[], map[], 0), map[])
  }

  function Run(events: seq<Event>): System
  {
    if events == [] then Init() else Step(Run(events[..|events| - 1]), events[|events| - 1])
  }

  // ----- the invariant ---------------------------------------------------------------------

  /** The key was minted for the request's issuer, and so was an account this
      request created itself. */
  ghost predicate ThreadOk(db: Db, thread: Thread)
  {
    match thread.phase
    case Admitted(binding) => binding.Some? ==> KeyFits(db, binding.value, thread.request.issuer)
    case HasAccount(key, account, created) => KeyFits(db, key, thread.request.issuer) && AccountFits(db, account, created, thread.request.issuer)
    case AboutToBind(key, account, created) => KeyFits(db, key, thread.request.issuer) && AccountFits(db, account, created, thread.request.issuer)
    case _ => true
  }

  predicate KeyFits(db: Db, key: Id, issuer: IssuerId)
  {
    key in db.keys && db.keys[key].issuer == issuer
  }

  predicate AccountFits(db: Db, account: Id, created: bool, issuer: IssuerId)
  {
    account < db.nextId && (created && account in db.accounts ==> db.accounts[account].issuer == issuer)
  }

  ghost predicate Inv(sys: System)
  {
    Tidy(sys.db) && forall t :: t in sys.threads ==> ThreadOk(sys.db, sys.threads[t])
  }

  lemma ThreadStaysOk(before: Db, after: Db, thread: Thread)
    requires ThreadOk(before, thread) && KeepsForLife(before, after)
    ensures ThreadOk(after, thread)
  {
  }

  lemma CreatingKeeps(db: Db, thread: Thread)
    requires Tidy(db) && ThreadOk(db, thread) && thread.phase.Admitted?
    ensures
      var (after, phase) := Proceed(db, thread);
      Tidy(after) && KeepsForLife(db, after) && ThreadOk(after, thread.(phase := phase))
  {
    hide Tidy, GetOrCreate;
    GetOrCreateKeeps(db, thread.request.thumb, thread.request.issuer);
  }

  lemma ProceedKeeps(db: Db, thread: Thread)
    requires Tidy(db) && ThreadOk(db, thread)
    ensures
      var (after, phase) := Proceed(db, thread);
      Tidy(after) && KeepsForLife(db, after) && ThreadOk(after, thread.(phase := phase))
  {
    hide Tidy, KeepsForLife, GetOrCreate, Bind, Delete;
    KeepsItself(db);
    match thread.phase
    case Started =>
    case Admitted(_) => CreatingKeeps(db, thread);
    case AboutToBind(key, account, _) => BindKeeps(db, key, account);
    case Losing(account) => DeleteKeeps(db, account);
    case HasAccount(_, _, _) =>
    case Answered(_) =>
  }

  lemma KeepsItself(db: Db)
    ensures KeepsForLife(db, db)
  {
  }

  /** Every interleaving keeps one account per key for life, one key per account,
      and every account's issuer. */
  lemma StepKeeps(sys: System, e: Event)
    requires Inv(sys)
    ensures Inv(Step(sys, e)) && KeepsForLife(sys.db, Step(sys, e).db)
  {
    hide Tidy, KeepsForLife, ThreadOk, Proceed, Mint, Revoke, Deactivate, KeyChange;
    KeepsItself(sys.db);
    match e {
      case Arrive(t, r) => assert ThreadOk(sys.db, Thread(r, Started)) by { FreshThreadIsOk(sys.db, r); }
      case Advance(t) => if t in sys.threads { ProceedKeeps(sys.db, sys.threads[t]); }
      case Crash(_) =>
      case MintKey(issuer) => MintKeeps(sys.db, issuer);
      case RevokeEabKey(key) => RevokeKeeps(sys.db, key);
      case DeactivateAccount(account) => DeactivateKeeps(sys.db, account);
      case ChangeAccountKey(account, thumb) => KeyChangeKeeps(sys.db, account, thumb);
    }
    var after := Step(sys, e);
    forall t | t in after.threads ensures ThreadOk(after.db, after.threads[t]) {
      if t in sys.threads && after.threads[t] == sys.threads[t] {
        ThreadStaysOk(sys.db, after.db, sys.threads[t]);
      }
    }
  }

  lemma FreshThreadIsOk(db: Db, r: Request)
    ensures ThreadOk(db, Thread(r, Started))
  {
  }

  lemma {:induction false} RunKeeps(events: seq<Event>)
    ensures Inv(Run(events))
  {
    if events != [] {
      RunKeeps(events[..|events| - 1]);
      StepKeeps(Run(events[..|events| - 1]), events[|events| - 1]);
    }
  }

  /** In every interleaving an account carries at most one key, and a key, once
      bound, stays bound to the same account whatever follows. */
  lemma {:induction false} BoundForLife(events: seq<Event>, more: seq<Event>, j: Id, k: Id)
    ensures
      var early, late := Run(events).db, Run(events + more).db;
      && (k in early.keys ==> k in late.keys && late.keys[k].issuer == early.keys[k].issuer)
      && (k in early.keys && early.keys[k].bound.Some? ==> late.keys[k].bound == early.keys[k].bound)
      && (j in early.keys && k in early.keys && early.keys[j].bound.Some? && early.keys[j].bound == early.keys[k].bound ==> j == k)
  {
    RunKeeps(events);
    if more == [] {
      assert events + more == events;
      if j in Run(events).db.keys && k in Run(events).db.keys && Run(events).db.keys[j].bound.Some? && Run(events).db.keys[j].bound == Run(events).db.keys[k].bound {
        OneKeyPerAccount(Run(events).db, j, k);
      }
    } else {
      var last := |more| - 1;
      assert (events + more)[..|events + more| - 1] == events + more[..last];
      BoundForLife(events, more[..last], j, k);
      RunKeeps(events + more[..last]);
      StepKeeps(Run(events + more[..last]), more[last]);
    }
  }

  // ----- issuers agree, except across one race -------------------------------------------------

  predicate Disagree(db: Db, key: Id)
  {
    && key in db.keys && db.keys[key].bound.Some? && db.keys[key].bound.value in db.accounts
    && db.accounts[db.keys[key].bound.value].issuer != db.keys[key].issuer
  }

  lemma BindChangesOneKey(db: Db, key: Id, account: Id, other: Id)
    requires Tidy(db)
    ensures
      var (after, outcome) := Bind(db, key, account);
      && (other != key || outcome != Bound ==> Disagree(after, other) == Disagree(db, other))
      && (outcome == Bound ==> !Disagree(db, key) && (Disagree(after, key) <==> db.accounts[account].issuer != db.keys[key].issuer))
  {
  }

  /** A request binds `key` to an account that it did not create but read back, and
      that account belongs to another issuer than the request's. */
  predicate BindsAcross(sys: System, e: Event, key: Id)
  {
    && e.Advance? && e.thread in sys.threads
    && var thread := sys.threads[e.thread];
       && thread.phase.AboutToBind? && thread.phase.key == key && !thread.phase.created
       && Bind(sys.db, key, thread.phase.account).1 == Bound
       && thread.phase.account in sys.db.accounts
       && sys.db.accounts[thread.phase.account].issuer != thread.request.issuer
  }

  /** A bound key and its account come to name different issuers exactly by such a
      bind. */
  lemma DisagreesExactlyAfterReadBack(sys: System, e: Event, key: Id)
    requires Inv(sys) && !Disagree(sys.db, key)
    ensures Disagree(Step(sys, e).db, key) <==> BindsAcross(sys, e, key)
  {
    if e.Advance? && e.thread in sys.threads {
      var thread := sys.threads[e.thread];
      assert ThreadOk(sys.db, thread);
      match thread.phase
      case AboutToBind(k, account, created) => BindChangesOneKey(sys.db, k, account, key);
      case _ =>
    }
  }

  /** ... and never agree again. */
  lemma DisagreementStays(sys: System, e: Event, key: Id)
    requires Inv(sys) && Disagree(sys.db, key)
    ensures Disagree(Step(sys, e).db, key) && !BindsAcross(sys, e, key)
  {
    hide ThreadOk, Proceed;
    StepKeeps(sys, e);
    var after := Step(sys, e).db;
    assert after.keys[key].bound == sys.db.keys[key].bound;
    BoundAccountStays(after, key);
  }

  lemma BoundAccountStays(db: Db, key: Id)
    requires Tidy(db) && key in db.keys && db.keys[key].bound.Some?
    ensures db.keys[key].bound.value in db.accounts
  {
  }

  /** The run form of the condition. */
  ghost predicate WasBoundAcross(events: seq<Event>, key: Id)
  {
    exists k :: 0 <= k < |events| && BindsAcross(Run(events[..k]), events[k], key)
  }

  lemma BoundAcrossByParts(events: seq<Event>, key: Id)
    requires events != []
    ensures
      var last := |events| - 1;
      WasBoundAcross(events, key) <==> WasBoundAcross(events[..last], key) || BindsAcross(Run(events[..last]), events[last], key)
  {
    hide BindsAcross, Run;
    var last := |events| - 1;
    var init := events[..last];
    assert forall k :: 0 <= k < last ==> init[..k] == events[..k] && init[k] == events[k];
    if WasBoundAcross(events, key) {
      var k :| 0 <= k < |events| && BindsAcross(Run(events[..k]), events[k], key);
      if k < last {
        assert BindsAcross(Run(init[..k]), init[k], key);
      }
    }
    if WasBoundAcross(init, key) {
      var k :| 0 <= k < last && BindsAcross(Run(init[..k]), init[k], key);
      assert BindsAcross(Run(events[..k]), events[k], key);
    }
  }

  /** After any run, a bound key and its account name different issuers if and only if
      some request of the run bound it across. */
  lemma {:induction false} DisagreesIffBoundAcross(events: seq<Event>, key: Id)
    ensures Disagree(Run(events).db, key) <==> WasBoundAcross(events, key)
  {
    hide Step, BindsAcross, Inv, Disagree, WasBoundAcross;
    if events == [] {
      NothingBoundYet(key);
    } else {
      var init, e := events[..|events| - 1], events[|events| - 1];
      DisagreesIffBoundAcross(init, key);
      BoundAcrossByParts(events, key);
      RunKeeps(init);
      if Disagree(Run(init).db, key) {
        DisagreementStays(Run(init), e, key);
      } else {
        DisagreesExactlyAfterReadBack(Run(init), e, key);
      }
    }
  }

  lemma NothingBoundYet(key: Id)
    ensures !Disagree(Run([]).db, key) && !WasBoundAcross([], key)
  {
  }

  /** Two registrations of one account key at two directories: the second reads back
      the first one's account, which its own check has never seen, and binds first. */
  function RacingDirectories(): seq<Event>
  {
    var at1 := Request(9, 1, true, false, Some(Presented(0, true, true)), true, true);
    var at2 := Request(9, 2, true, false, Some(Presented(1, true, true)), true, true);
    [MintKey(1), MintKey(2), Arrive(1, at1), Arrive(2, at2), Advance(1), Advance(2),
     Advance(1), Advance(2), Advance(2), Advance(2)]
  }

  lemma {:induction false} RunInTwo(events: seq<Event>, e: Event)
    ensures Run(events + [e]) == Step(Run(events), e)
  {
    assert (events + [e])[..|events|] == events;
  }

  lemma RaceDisagrees()
    ensures Disagree(Run(RacingDirectories()).db, 1)
  {
    var ev := RacingDirectories();
    var at1, at2 := ev[2].request, ev[3].request;
    hide Run, RacingDirectories;
    FirstHalf();
    var keys := map[0 := EabKey(1, None, false), 1 := EabKey(2, None, false)];
    var account := Account(9, 1, true);
    var s7 := System(Db(map[2 := account], keys, map[9 := 2], map[], 3),
                     map[1 := Thread(at1, HasAccount(0, 2, true)), 2 := Thread(at2, Admitted(Some(1)))]);
    assert ev[..8] == ev[..7] + [ev[7]];
    RunInTwo(ev[..7], ev[7]);
    var s8 := Run(ev[..8]);
    assert s8.threads[2] == Thread(at2, HasAccount(1, 2, false)) && s8.db == s7.db;
    assert ev[..9] == ev[..8] + [ev[8]];
    RunInTwo(ev[..8], ev[8]);
    assert Run(ev[..9]).threads[2] == Thread(at2, AboutToBind(1, 2, false)) && Run(ev[..9]).db == s7.db;
    assert ev == ev[..9] + [ev[9]];
    RunInTwo(ev[..9], ev[9]);
  }

  lemma FirstHalf()
    ensures
      var ev := RacingDirectories();
      && |ev| == 10 && (forall k :: 7 <= k < 10 ==> ev[k] == Advance(2))
      && ev[2] == Arrive(1, Request(9, 1, true, false, Some(Presented(0, true, true)), true, true))
      && ev[3] == Arrive(2, Request(9, 2, true, false, Some(Presented(1, true, true)), true, true))
      && Run(ev[..7])
         == System(Db(map[2 := Account(9, 1, true)], map[0 := EabKey(1, None, false), 1 := EabKey(2, None, false)], map[9 := 2], map[], 3),
                   map[1 := Thread(ev[2].request, HasAccount(0, 2, true)), 2 := Thread(ev[3].request, Admitted(Some(1)))])
  {
    hide Run;
    var ev := RacingDirectories();
    var at1, at2 := ev[2].request, ev[3].request;
    var keys := map[0 := EabKey(1, None, false), 1 := EabKey(2, None, false)];
    assert ev[..0] == [];
    assert Run([]) == Init() by { EmptyRun(); }
    assert ev[..1] == ev[..0] + [ev[0]]; RunInTwo(ev[..0], ev[0]);
    assert ev[..2] == ev[..1] + [ev[1]]; RunInTwo(ev[..1], ev[1]);
    assert Run(ev[..2]) == System(Db(map[], keys, map[], map[], 2), map[]);
    assert ev[..3] == ev[..2] + [ev[2]]; RunInTwo(ev[..2], ev[2]);
    assert ev[..4] == ev[..3] + [ev[3]]; RunInTwo(ev[..3], ev[3]);
    assert Run(ev[..4]) == System(Db(map[], keys, map[], map[], 2), map[1 := Thread(at1, Started), 2 := Thread(at2, Started)]);
    assert ev[..5] == ev[..4] + [ev[4]]; RunInTwo(ev[..4], ev[4]);
    assert ev[..6] == ev[..5] + [ev[5]]; RunInTwo(ev[..5], ev[5]);
    assert Run(ev[..6]) == System(Db(map[], keys, map[], map[], 2), map[1 := Thread(at1, Admitted(Some(0))), 2 := Thread(at2, Admitted(Some(1)))]);
    assert ev[..7] == ev[..6] + [ev[6]]; RunInTwo(ev[..6], ev[6]);
  }

  lemma EmptyRun()
    ensures Run([]) == Init()
  {
  }

  // ----- one request at a time --------------------------------------------------------------------

  /** A request that nothing interrupts is the whole request. */
  function Finish(db: Db, thread: Thread, steps: nat): (Db, Phase)
    decreases steps
  {
    if steps == 0 then (db, thread.phase)
    else
      var (after, phase) := Proceed(db, thread);
      Finish(after, thread.(phase := phase), steps - 1)
  }

  lemma AloneIsOneRequest(db: Db, r: Request)
    ensures
      var (after, phase) := Finish(db, Thread(r, Started), 5);
      (after, phase) == (NewAccount(db, r).0, Answered(NewAccount(db, r).1))
  {
    hide Verify;
    var t0 := Thread(r, Started);
    var (d1, p1) := Proceed(db, t0);
    var (d2, p2) := Proceed(d1, t0.(phase := p1));
    var (d3, p3) := Proceed(d2, t0.(phase := p2));
    var (d4, p4) := Proceed(d3, t0.(phase := p3));
    var (d5, p5) := Proceed(d4, t0.(phase := p4));
    assert Finish(d5, t0.(phase := p5), 0) == (d5, p5);
    assert Finish(d4, t0.(phase := p4), 1) == (d5, p5);
    assert Finish(d3, t0.(phase := p3), 2) == (d5, p5);
    assert Finish(d2, t0.(phase := p2), 3) == (d5, p5);
    assert Finish(d1, t0.(phase := p1), 4) == (d5, p5);
  }

  /** A request that nothing interrupts is only ever answered with the account of its
      own key, usable and registered with the issuer of the directory it asked. */
  lemma AnswersStayInTheirDirectory(db: Db, r: Request)
    requires Tidy(db) && NewAccount(db, r).1.Ok?
    ensures
      var (after, answer) := NewAccount(db, r);
      var (account, created) := answer.value;
      && account in after.accounts && after.accounts[account] == Account(r.thumb, r.issuer, true)
      && (created <==> r.thumb !in db.thumbs)
      && (created ==> r.issuerActive && !r.onlyExisting)
      && (!created ==> after == db)
  {
    hide KeepsForLife;
    GetOrCreateKeeps(db, r.thumb, r.issuer);
    if Admit(db, r).Ok? {
      var (middle, account, created) := GetOrCreate(db, r.thumb, r.issuer);
      if Admit(db, r).value.Some? {
        SpendingKeepsAccount(middle, Admit(db, r).value.value, account, created);
      }
    }
  }

  lemma SpendingKeepsAccount(db: Db, key: Id, account: Id, created: bool)
    ensures
      var (after, answer) := Spend(db, key, account, created);
      answer.Ok? ==> answer.value == (account, created) && after.accounts == db.accounts
  {
  }

  datatype Whole =
    | Register(request: Request)
    | MintOne(issuer: IssuerId)
    | RevokeOne(key: Id)
    | DeactivateOne(account: Id)
    | ChangeOne(account: Id, thumb: Thumb)

  function Do(db: Db, w: Whole): Db
  {
    match w
    case Register(r) => NewAccount(db, r).0
    case MintOne(issuer) => Mint(db, issuer)
    case RevokeOne(key) => Revoke(db, key)
    case DeactivateOne(account) => Deactivate(db, account)
    case ChangeOne(account, thumb) => KeyChange(db, account, thumb).0
  }

  function DoAll(ops: seq<Whole>): Db
  {
    if ops == [] then Init().db else Do(DoAll(ops[..|ops| - 1]), ops[|ops| - 1])
  }

  /** Every account carries a key, and the key was minted for the account's issuer. */
  ghost predicate AllEarned(db: Db)
  {
    forall a :: a in db.accounts ==>
      a in db.carriers && db.carriers[a] in db.keys && db.keys[db.carriers[a]].issuer == db.accounts[a].issuer
  }

  lemma BindingEarns(db: Db, r: Request, key: Id)
    requires Tidy(db) && AllEarned(db) && r.thumb !in db.thumbs
    requires key in db.keys && !db.keys[key].revoked && db.keys[key].bound == None && db.keys[key].issuer == r.issuer
    ensures
      var (after, account, created) := GetOrCreate(db, r.thumb, r.issuer);
      && Bind(after, key, account).1 == Bound && AllEarned(Bind(after, key, account).0)
      && Spend(after, key, account, created) == (Bind(after, key, account).0, Ok((account, created)))
  {
  }

  lemma RegisteringEarns(db: Db, r: Request)
    requires Tidy(db) && AllEarned(db) && r.required
    ensures Tidy(NewAccount(db, r).0) && AllEarned(NewAccount(db, r).0)
  {
    hide AllEarned, Spend;
    var admitted := Admit(db, r);
    if admitted.Ok? {
      var (after, account, created) := GetOrCreate(db, r.thumb, r.issuer);
      GetOrCreateKeeps(db, r.thumb, r.issuer);
      BindKeeps(after, admitted.value.value, account);
      BindingEarns(db, r, admitted.value.value);
    }
  }

  lemma MintEarns(db: Db, issuer: IssuerId)
    requires Tidy(db) && AllEarned(db)
    ensures Tidy(Mint(db, issuer)) && AllEarned(Mint(db, issuer))
  {
    MintKeeps(db, issuer);
  }

  lemma RevokeEarns(db: Db, key: Id)
    requires Tidy(db) && AllEarned(db)
    ensures Tidy(Revoke(db, key)) && AllEarned(Revoke(db, key))
  {
    RevokeKeeps(db, key);
  }

  lemma DeactivateEarns(db: Db, account: Id)
    requires Tidy(db) && AllEarned(db)
    ensures Tidy(Deactivate(db, account)) && AllEarned(Deactivate(db, account))
  {
    DeactivateKeeps(db, account);
  }

  lemma KeyChangeEarns(db: Db, account: Id, thumb: Thumb)
    requires Tidy(db) && AllEarned(db)
    ensures Tidy(KeyChange(db, account, thumb).0) && AllEarned(KeyChange(db, account, thumb).0)
  {
    KeyChangeKeeps(db, account, thumb);
  }

  lemma EmptyIsEarned()
    ensures Tidy(Init().db) && AllEarned(Init().db)
  {
  }

  /** With external account binding required and requests one at a time, every
      account is bound to a key that was minted for that account's own issuer. */
  lemma {:induction false} EveryAccountIsEarned(ops: seq<Whole>)
    requires forall k :: 0 <= k < |ops| && ops[k].Register? ==> ops[k].request.required
    ensures Tidy(DoAll(ops)) && AllEarned(DoAll(ops))
  {
    hide NewAccount, Tidy, AllEarned, Mint, Revoke, Deactivate, KeyChange;
    if ops == [] {
      EmptyIsEarned();
    }
    if ops != [] {
      var init, op := ops[..|ops| - 1], ops[|ops| - 1];
      EveryAccountIsEarned(init);
      var db := DoAll(init);
      match op
      case Register(r) => RegisteringEarns(db, r);
      case MintOne(issuer) => MintEarns(db, issuer);
      case RevokeOne(key) => RevokeEarns(db, key);
      case DeactivateOne(account) => DeactivateEarns(db, account);
      case ChangeOne(account, thumb) => KeyChangeEarns(db, account, thumb);
    }
  }
}
