/**
 What cabin's own TLS certificate does over many calls: it settles down, it is
 reissued a bounded number of times, it recovers from crashes, and it is never
 downgraded while the pair on disk is intact (tls.py).
 */
module TlsRuns {
  import opened Prelude
  import opened Tls

  // ----- after a success ---------------------------------------------------------------

  predicate Canonical(names: Names, written: Names -> Names)
  {
    written(names) == names
  }

  /** The same call again, `later` seconds on and with another fresh key. */
  function Again(call: Call, later: Time, newKey: Key): Call
  {
    call.(now := call.now + later, newKey := newKey)
  }

  /** A call right after one that issued from an issuer changes nothing if and only
      if the names read back as they were asked for and the issuer is not named
      like the certificate itself. */
  lemma SettlesIffCanonical(s: State, call: Call, written: Names -> Names, newKey: Key)
    requires IssuerRow(s.binding, call.rows).Some?
    requires EnsureCurrent(s, call, written, Completes).1
    ensures
      var issuer := IssuerRow(s.binding, call.rows).value;
      var after := EnsureCurrent(s, call, written, Completes).0;
      var changed := EnsureCurrent(after, Again(call, 0, newKey), written, Completes).1;
      !changed <==> (Canonical(call.names, written) && issuer.subject != Name(written(call.names).cn, ""))
  {
  }

  const BIG_CA := CaRow(true, true, Name("cabin CA", ""), 100, 3650 * DAY)

  /** A process that starts with an empty disk and one active issuer. */
  const EMPTY := State(NoCrt, NoKey, None, None, Unbound, [])

  /** An IPv6 host written out in full; a certificate prints it in its short form. */
  const LONG_FORM := Names("0:0:0:0:0:0:0:1", {"IP:0:0:0:0:0:0:0:1"})

  function Shortened(names: Names): Names
  {
    if names == LONG_FORM then Names(names.cn, {"IP:::1"}) else names
  }

  /** With such a host as its name, cabin reissues its certificate on every call. */
  lemma LongAddressNeverSettles()
    ensures
      var call := Call(0, 1, [BIG_CA], LONG_FORM, 1, None);
      var (once, first) := EnsureCurrent(EMPTY, call, Shortened, Completes);
      var (twice, second) := EnsureCurrent(once, Again(call, 0, 2), Shortened, Completes);
      first && second && twice.crt != once.crt && |twice.stored| == 2
  {
    OneActive([BIG_CA]);
    assert "IP:0:0:0:0:0:0:0:1" != "IP:::1";
    assert LONG_FORM.sans != {"IP:::1"} by { assert "IP:::1" !in LONG_FORM.sans; }
  }

  /** So it does when its issuer is named like the certificate itself. */
  lemma NamesakeNeverSettles()
    ensures
      var rows := [BIG_CA.(subject := Name("cabin.lan", ""))];
      var call := Call(0, 1, rows, Names("cabin.lan", {"DNS:cabin.lan"}), 1, None);
      var (once, first) := EnsureCurrent(EMPTY, call, names => names, Completes);
      var (twice, second) := EnsureCurrent(once, Again(call, 0, 2), names => names, Completes);
      first && second && twice.crt != once.crt && |twice.stored| == 2
  {
    OneActive([BIG_CA.(subject := Name("cabin.lan", ""))]);
  }

  lemma OneActive(rows: seq<CaRow>)
    requires |rows| == 1 && rows[0].intermediate && rows[0].active
    ensures ActiveIssuers(rows) == [0]
  {
    assert rows[..0] == [];
  }

  /** Once settled, the next reissue happens exactly when 60 days have passed, the
      issuer still has a day more to give than the certificate took, and the issuer
      has not expired by then. A certificate clamped to its issuer's expiry is final. */
  lemma ReissuedExactlyWhenWorthIt(s: State, call: Call, written: Names -> Names, later: Time, newKey: Key)
    requires IssuerRow(s.binding, call.rows).Some?
    requires EnsureCurrent(s, call, written, Completes).1
    requires Canonical(call.names, written)
    requires IssuerRow(s.binding, call.rows).value.subject != Name(call.names.cn, "")
    requires later >= 0
    ensures
      var issuer := IssuerRow(s.binding, call.rows).value;
      var after := EnsureCurrent(s, call, written, Completes).0;
      var changed := EnsureCurrent(after, Again(call, later, newKey), written, Completes).1;
      changed <==> && later >= LIFETIME - RENEW_BEFORE
                   && issuer.notAfter >= call.now + LIFETIME + MIN_RENEWAL_GAIN
                   && issuer.notAfter > call.now + later
  {
  }

  // ----- a run with everything but the clock fixed ----------------------------------------

  datatype Tick = Tick(now: Time, newKey: Key, refusal: Option<string>, stop: Stop)

  /** What stays fixed: the CA table, the bound issuer, the names and the master key. */
  datatype Setting = Setting(rows: seq<CaRow>, id: nat, names: Names, master: nat, written: Names -> Names)

  predicate Proper(g: Setting)
  {
    && Usable(g.rows, g.id) && Canonical(g.names, g.written)
    && g.rows[g.id].subject != Name(g.names.cn, "")
  }

  function Issuer(g: Setting): CaRow
    requires Proper(g)
  {
    g.rows[g.id]
  }

  function CallAt(g: Setting, tick: Tick): Call
  {
    Call(tick.now, g.master, g.rows, g.names, tick.newKey, tick.refusal)
  }

  function After(g: Setting, s: State, ticks: seq<Tick>): State
  {
    if ticks == [] then s
    else
      var last := |ticks| - 1;
      EnsureCurrent(After(g, s, ticks[..last]), CallAt(g, ticks[last]), g.written, ticks[last].stop).0
  }

  function Crashes(ticks: seq<Tick>): nat
  {
    if ticks == [] then 0
    else Crashes(ticks[..|ticks| - 1]) + if ticks[|ticks| - 1].stop != Completes then 1 else 0
  }

  predicate ClockAdvances(start: Time, ticks: seq<Tick>)
  {
    forall i, j :: 0 <= i <= j < |ticks| ==> start <= ticks[i].now <= ticks[j].now
  }

  function Clock(start: Time, ticks: seq<Tick>): Time
  {
    if ticks == [] then start else ticks[|ticks| - 1].now
  }

  /** The certificate file is one this issuer made for these names, at or before
      `clock`; its key may have been lost to a crash. */
  predicate Ours(g: Setting, s: State, clock: Time)
    requires Proper(g)
  {
    && s.binding == BoundTo(g.id)
    && s.crt.Crt?
    && Fits(s.crt.cert, Some(Issuer(g)), CaIssued, g.names)
    && s.crt.cert.notAfter <= Min(clock + LIFETIME, Issuer(g).notAfter)
  }

  predicate Broken(g: Setting, s: State)
  {
    Load(s, g.master).None?
  }

  /** One tick pays for the row it stores: with a day of validity gained, with a
      crash, or with the repair of a pair that a crash broke. */
  lemma TickPays(g: Setting, s: State, clock: Time, tick: Tick)
    requires Proper(g) && Ours(g, s, clock) && clock <= tick.now
    ensures
      var after := EnsureCurrent(s, CallAt(g, tick), g.written, tick.stop).0;
      var crash := if tick.stop != Completes then 1 else 0;
      && Ours(g, after, tick.now)
      && |s.stored| <= |after.stored|
      && (|after.stored| - |s.stored|) * DAY + (if Broken(g, after) then DAY else 0) - (if Broken(g, s) then DAY else 0)
         <= after.crt.cert.notAfter - s.crt.cert.notAfter + 2 * DAY * crash
  {
  }

  lemma {:induction false} EveryTickIsPaidFor(g: Setting, s: State, start: Time, ticks: seq<Tick>)
    requires Proper(g) && Ours(g, s, start) && !Broken(g, s) && ClockAdvances(start, ticks)
    ensures
      var after := After(g, s, ticks);
      && Ours(g, after, Clock(start, ticks))
      && |s.stored| <= |after.stored|
      && (|after.stored| - |s.stored|) * DAY + (if Broken(g, after) then DAY else 0)
         <= after.crt.cert.notAfter - s.crt.cert.notAfter + 2 * DAY * Crashes(ticks)
  {
    hide Broken, EnsureCurrent, Fits, Canonical, Usable;
    if ticks != [] {
      var last := |ticks| - 1;
      EveryTickIsPaidFor(g, s, start, ticks[..last]);
      TickPays(g, After(g, s, ticks[..last]), Clock(start, ticks[..last]), ticks[last]);
    }
  }

  /** However often the loop ticks and wherever the process crashes, the rows it
      adds to the inventory are bounded by the days between the first expiry and
      the issuer's, plus two for each crash. */
  lemma ReissuesAreBounded(g: Setting, s: State, start: Time, ticks: seq<Tick>)
    requires Proper(g) && Ours(g, s, start) && !Broken(g, s) && ClockAdvances(start, ticks)
    ensures
      var after := After(g, s, ticks);
      |after.stored| - |s.stored| <= (Issuer(g).notAfter - s.crt.cert.notAfter) / DAY + 2 * Crashes(ticks)
  {
    hide After, Crashes, ClockAdvances;
    EveryTickIsPaidFor(g, s, start, ticks);
    var stored := |After(g, s, ticks).stored| - |s.stored|;
    Divided(stored - 2 * Crashes(ticks), Issuer(g).notAfter - s.crt.cert.notAfter);
  }

  lemma Divided(n: int, span: Time)
    requires n * DAY <= span
    ensures n <= span / DAY
  {
  }

  /** Without crashes each new certificate outlives the one it replaces by a day. */
  lemma {:induction false} EachReissueGainsADay(g: Setting, s: State, start: Time, ticks: seq<Tick>)
    requires Proper(g) && Ours(g, s, start) && !Broken(g, s) && ClockAdvances(start, ticks) && Crashes(ticks) == 0
    ensures
      var after := After(g, s, ticks);
      && !Broken(g, after) && |s.stored| <= |after.stored|
      && after.crt.cert.notAfter >= s.crt.cert.notAfter + (|after.stored| - |s.stored|) * MIN_RENEWAL_GAIN
  {
    EveryTickIsPaidFor(g, s, start, ticks);
    if ticks != [] {
      var last := |ticks| - 1;
      EachReissueGainsADay(g, s, start, ticks[..last]);
    }
  }

  // ----- crashes ---------------------------------------------------------------------------

  /** A crash between the two files is noticed: the next process finds no material,
      rather than a certificate with another one's key. */
  lemma TornWriteIsNoticed(s: State, call: Call, written: Names -> Names)
    requires s.sealed.SealedKey? ==> s.sealed.key != call.newKey
    ensures
      var (after, changed) := EnsureCurrent(s, call, written, DiesBetweenFiles);
      changed ==> Load(after, call.master) == None && after.sealed == s.sealed && after.mode == None
  {
  }

  /** A process that finds no material issues at once whenever it can, and the pair
      is whole again. */
  lemma LostMaterialIsReplaced(s: State, call: Call, written: Names -> Names)
    requires Load(s, call.master) == None
    ensures
      var issuer := IssuerRow(s.binding, call.rows);
      var (after, changed) := EnsureCurrent(s, call, written, Completes);
      && (changed <==> call.refusal.None? && (issuer.Some? ==> issuer.value.notAfter > call.now))
      && (changed ==>
            && Load(after, call.master).Some?
            && (issuer.Some? ==> IssuedBy(Load(after, call.master).value, issuer.value))
            && (issuer.None? ==> ModeOf(Load(after, call.master).value) == SelfSigned))
      && (!changed ==> (after.crt, after.sealed) == (s.crt, s.sealed))
  {
  }

  // ----- never downgraded ----------------------------------------------------------------------

  /** A self-signed certificate is written exactly when issuing is not refused, no
      issuer resolves, and there is either no pair to keep or a self-signed one whose
      names are wrong or whose time is running out. */
  lemma SelfSignedExactly(s: State, call: Call, written: Names -> Names, stop: Stop)
    requires IssuersNamedApart(call, written)
    ensures
      var current := Load(s, call.master);
      var (after, changed) := EnsureCurrent(s, call, written, stop);
      (changed && stop != DiesAfterStoring && after.crt.Crt? && ModeOf(after.crt.cert) == SelfSigned)
      <==> && stop != DiesAfterStoring && call.refusal.None? && IssuerRow(s.binding, call.rows).None?
           && (current.Some? ==>
                 && ModeOf(current.value) == SelfSigned
                 && (|| current.value.subject.cn != call.names.cn || current.value.sans != call.names.sans
                     || call.now >= current.value.notAfter - RENEW_BEFORE))
  {
  }

  /** A call, and where the process dies in it, if it does. */
  datatype Attempt = Attempt(call: Call, stop: Stop)

  function Process(s: State, attempts: seq<Attempt>, written: Names -> Names): State
  {
    if attempts == [] then s
    else
      var last := attempts[|attempts| - 1];
      EnsureCurrent(Process(s, attempts[..|attempts| - 1], written), last.call, written, last.stop).0
  }

  ghost predicate IssuersNamedApart(call: Call, written: Names -> Names)
  {
    forall id: nat :: Usable(call.rows, id) ==> call.rows[id].subject != Name(written(call.names).cn, "")
  }

  predicate HoldsCaIssued(s: State, master: nat)
  {
    Load(s, master).Some? && ModeOf(Load(s, master).value) == CaIssued
  }

  /** A CA-issued pair is reissued: it does not fit what is wanted, or its time is
      running out and the issuer has a day more to give. */
  predicate Reissues(current: Cert, issuer: CaRow, call: Call)
  {
    && call.refusal.None? && issuer.notAfter > call.now
    && (|| !Fits(current, Some(issuer), CaIssued, call.names)
        || (&& call.now >= current.notAfter - RENEW_BEFORE
            && Min(call.now + LIFETIME, issuer.notAfter) - current.notAfter >= MIN_RENEWAL_GAIN))
  }

  /** The pair is lost: torn by a crash between the two files of a reissue, or sealed
      under another master key and not replaced at once, because no issuer resolves,
      issuing is refused, the issuer has expired, or the process dies too early. */
  predicate LosesPair(s: State, master: nat, a: Attempt)
  {
    var issuer := IssuerRow(s.binding, a.call.rows);
    if a.call.master == master then
      && issuer.Some? && s.crt.Crt? && Reissues(s.crt.cert, issuer.value, a.call)
      && a.stop == DiesBetweenFiles && !(s.sealed.SealedKey? && s.sealed.key == a.call.newKey)
    else
      || issuer.None? || a.call.refusal.Some? || issuer.value.notAfter <= a.call.now
      || a.stop !in {Completes, DiesAfterFiles}
  }

  /** Exactly when a CA-issued pair does not survive a call: when it is lost in one of
      these ways. Nothing else about issuers, names or clock can take it away. */
  lemma CaIssuedUnlessPairIsLost(s: State, master: nat, a: Attempt, written: Names -> Names)
    requires HoldsCaIssued(s, master) && IssuersNamedApart(a.call, written)
    ensures
      var after := EnsureCurrent(s, a.call, written, a.stop).0;
      && (HoldsCaIssued(after, a.call.master) <==> !LosesPair(s, master, a))
      && (a.stop == Completes && HoldsCaIssued(after, a.call.master) ==> after.mode == Some(CaIssued))
      && (s.binding != Unbound ==> after.binding == s.binding)
  {
  }

  /** The certificate file holds a CA-issued certificate, with or without its key. */
  predicate CaIssuedFile(s: State)
  {
    s.crt.Crt? && ModeOf(s.crt.cert) == CaIssued
  }

  /** The pair cannot be loaded, no issuer resolves, and nothing stops the process
      from writing a self-signed certificate. */
  predicate Downgrades(s: State, a: Attempt)
  {
    && Load(s, a.call.master).None? && IssuerRow(s.binding, a.call.rows).None?
    && a.call.refusal.None? && a.stop != DiesAfterStoring
  }

  /** Exactly when a CA-issued certificate is replaced by a self-signed one. */
  lemma DowngradedExactly(s: State, a: Attempt, written: Names -> Names)
    requires CaIssuedFile(s) && IssuersNamedApart(a.call, written)
    ensures
      var after := EnsureCurrent(s, a.call, written, a.stop).0;
      && after.crt.Crt?
      && (ModeOf(after.crt.cert) == SelfSigned <==> Downgrades(s, a))
  {
  }

  predicate HeldAfter(s: State, attempts: seq<Attempt>, k: nat, written: Names -> Names)
    requires k <= |attempts|
  {
    CaIssuedFile(Process(s, attempts[..k], written))
  }

  predicate DowngradedAt(s: State, attempts: seq<Attempt>, k: nat, written: Names -> Names)
    requires k < |attempts|
  {
    Downgrades(Process(s, attempts[..k], written), attempts[k])
  }

  lemma HeldNext(s: State, attempts: seq<Attempt>, k: nat, written: Names -> Names)
    requires k < |attempts| && IssuersNamedApart(attempts[k].call, written) && HeldAfter(s, attempts, k, written)
    ensures HeldAfter(s, attempts, k + 1, written) <==> !DowngradedAt(s, attempts, k, written)
  {
    hide EnsureCurrent, IssuersNamedApart, Downgrades;
    assert attempts[..k + 1][..k] == attempts[..k];
    DowngradedExactly(Process(s, attempts[..k], written), attempts[k], written);
  }

  lemma {:induction false} HeldWithoutDowngrade(s: State, attempts: seq<Attempt>, k: nat, written: Names -> Names)
    requires k <= |attempts| && CaIssuedFile(s)
    requires forall j :: 0 <= j < |attempts| ==> IssuersNamedApart(attempts[j].call, written)
    requires forall j :: 0 <= j < k ==> !DowngradedAt(s, attempts, j, written)
    ensures HeldAfter(s, attempts, k, written)
  {
    hide IssuersNamedApart, DowngradedAt, CaIssuedFile;
    if k > 0 {
      hide HeldAfter;
      HeldWithoutDowngrade(s, attempts, k - 1, written);
      HeldNext(s, attempts, k - 1, written);
    }
  }

  /** Over any run, with crashes and changing master keys: the certificate file holds
      CA-issued material throughout if and only if no call downgrades it. */
  lemma CaIssuedThroughoutExactly(s: State, attempts: seq<Attempt>, written: Names -> Names)
    requires CaIssuedFile(s)
    requires forall k :: 0 <= k < |attempts| ==> IssuersNamedApart(attempts[k].call, written)
    ensures (forall k :: 0 <= k <= |attempts| ==> HeldAfter(s, attempts, k, written))
       <==> (forall k :: 0 <= k < |attempts| ==> !DowngradedAt(s, attempts, k, written))
  {
    hide IssuersNamedApart, HeldAfter, DowngradedAt, CaIssuedFile;
    if forall k :: 0 <= k <= |attempts| ==> HeldAfter(s, attempts, k, written) {
      forall k | 0 <= k < |attempts| ensures !DowngradedAt(s, attempts, k, written) {
        assert HeldAfter(s, attempts, k + 1, written);
        HeldNext(s, attempts, k, written);
      }
    }
    if forall k :: 0 <= k < |attempts| ==> !DowngradedAt(s, attempts, k, written) {
      forall k | 0 <= k <= |attempts| ensures HeldAfter(s, attempts, k, written) {
        HeldWithoutDowngrade(s, attempts, k, written);
      }
    }
  }

  function LastMaster(master: nat, attempts: seq<Attempt>): nat
  {
    if attempts == [] then master else attempts[|attempts| - 1].call.master
  }

  /** Whatever happens to issuers, names, clock and processes: as long as no pair is
      lost, CA-issued material stays CA-issued and whole; and once an issuer is bound,
      no later one takes over. */
  lemma {:induction false} NeverDowngraded(s: State, master: nat, attempts: seq<Attempt>, written: Names -> Names)
    requires HoldsCaIssued(s, master)
    requires forall k :: 0 <= k < |attempts| ==>
               && IssuersNamedApart(attempts[k].call, written)
               && !LosesPair(Process(s, attempts[..k], written), LastMaster(master, attempts[..k]), attempts[k])
    ensures
      var after := Process(s, attempts, written);
      && HoldsCaIssued(after, LastMaster(master, attempts))
      && (attempts != [] && attempts[|attempts| - 1].stop == Completes ==> after.mode == Some(CaIssued))
      && (s.binding != Unbound ==> after.binding == s.binding)
  {
    hide EnsureCurrent, HoldsCaIssued, IssuersNamedApart, LosesPair;
    if attempts != [] {
      var last := |attempts| - 1;
      var init := attempts[..last];
      assert forall k :: 0 <= k < last ==> init[k] == attempts[k] && init[..k] == attempts[..k];
      NeverDowngraded(s, master, init, written);
      CaIssuedUnlessPairIsLost(Process(s, init, written), LastMaster(master, init), attempts[last], written);
    }
  }

  /** A renewal dies between its two files, and before the next call the issuer is
      retired: the CA-issued certificate is replaced by a self-signed one. */
  function TornThenRetired(): seq<Attempt>
  {
    var names := Names("cabin.lan", {"DNS:cabin.lan"});
    [Attempt(Call(0, 1, [BIG_CA], names, 1, None), Completes),
     Attempt(Call(61 * DAY, 1, [BIG_CA], names, 2, None), DiesBetweenFiles),
     Attempt(Call(61 * DAY, 1, [BIG_CA.(active := false)], names, 3, None), Completes)]
  }

  lemma TornPairMayBeDowngraded()
    ensures
      var attempts := TornThenRetired();
      var written := (names: Names) => names;
      && HoldsCaIssued(Process(EMPTY, attempts[..1], written), 1)
      && DowngradedAt(EMPTY, attempts, 2, written)
      && Process(EMPTY, attempts, written).crt.Crt?
      && ModeOf(Process(EMPTY, attempts, written).crt.cert) == SelfSigned
  {
    OneActive([BIG_CA]);
    var attempts := TornThenRetired();
    var written := (names: Names) => names;
    assert attempts[..1][..0] == [] && attempts[..2][..1] == attempts[..1] && attempts[..3] == attempts;
    var s1 := EnsureCurrent(EMPTY, attempts[0].call, written, Completes).0;
    assert Process(EMPTY, attempts[..1], written) == s1 by { assert Process(EMPTY, [], written) == EMPTY; }
    var s2 := EnsureCurrent(s1, attempts[1].call, written, DiesBetweenFiles).0;
    assert Process(EMPTY, attempts[..2], written) == s2;
    assert s2.crt.Crt? && s2.sealed == SealedKey(1, 1) && s2.crt.cert.key == 2 && s2.binding == BoundTo(0);
  }

  lemma OneCallSigns(s: State, a: Attempt, written: Names -> Names, id: nat)
    requires s.binding == BoundTo(id)
    ensures
      var after := EnsureCurrent(s, a.call, written, a.stop).0;
      && after.binding == BoundTo(id)
      && (after.stored == s.stored
          || exists cert :: after.stored == s.stored + [cert] && SignedIn(cert, a.call, id))
  {
    var after := EnsureCurrent(s, a.call, written, a.stop).0;
    if after.stored != s.stored {
      var cert := after.stored[|s.stored|];
      assert after.stored == s.stored + [cert] && SignedIn(cert, a.call, id);
    }
  }

  predicate SignedIn(cert: Cert, call: Call, id: nat)
  {
    Usable(call.rows, id) && IssuedBy(cert, call.rows[id])
  }

  ghost predicate SignedDuring(cert: Cert, attempts: seq<Attempt>, id: nat)
  {
    exists k :: 0 <= k < |attempts| && SignedIn(cert, attempts[k].call, id)
  }

  /** Every certificate cabin stores for itself is signed by the bound issuer, at
      a moment when that issuer is an active intermediate. */
  lemma {:induction false} OnlyTheBoundIssuerSigns(s: State, attempts: seq<Attempt>, written: Names -> Names, id: nat)
    requires s.binding == BoundTo(id)
    ensures
      var after := Process(s, attempts, written);
      && after.binding == BoundTo(id)
      && |s.stored| <= |after.stored| && after.stored[..|s.stored|] == s.stored
      && forall k :: |s.stored| <= k < |after.stored| ==> SignedDuring(after.stored[k], attempts, id)
  {
    hide EnsureCurrent, SignedIn;
    if attempts != [] {
      var last := |attempts| - 1;
      OnlyTheBoundIssuerSigns(s, attempts[..last], written, id);
      var before, after := Process(s, attempts[..last], written), Process(s, attempts, written);
      OneCallSigns(before, attempts[last], written, id);
      forall k | |s.stored| <= k < |after.stored| ensures SignedDuring(after.stored[k], attempts, id) {
        if k < |before.stored| {
          assert after.stored[k] == before.stored[k];
          var c :| 0 <= c < last && SignedIn(before.stored[k], attempts[..last][c].call, id);
          assert SignedIn(after.stored[k], attempts[c].call, id);
        } else {
          assert SignedIn(after.stored[k], attempts[last].call, id);
        }
      }
    }
  }
}
