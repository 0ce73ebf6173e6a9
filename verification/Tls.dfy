/**
 cabin's own TLS certificate (tls.py): what one call of `ensure_current` decides,
 and what it leaves on disk, in memory and in the settings.
 */
module Tls {
  import opened Prelude

  /** Seconds. */
  type Time = int

  type Key = nat

  const DAY: Time := 86400
  const LIFETIME: Time := 90 * DAY
  const RENEW_BEFORE: Time := 30 * DAY
  const MIN_RENEWAL_GAIN: Time := DAY

  datatype Mode = SelfSigned | CaIssued

  /** A distinguished name: the common name and everything else in it. */
  datatype Name = Name(cn: string, rest: string)

  datatype Names = Names(cn: string, sans: set<string>)

  /** `signer` is the key whose signature the certificate bears. */
  datatype Cert = Cert(subject: Name, issuer: Name, signer: Key, key: Key, sans: set<string>, notAfter: Time)

  datatype CrtFile = NoCrt | UnreadableCrt | Crt(cert: Cert)

  /** The key is sealed under a master key; another one does not open it. */
  datatype KeyFile = NoKey | UnreadableKey | SealedKey(master: nat, key: Key)

  /** A row of the CA table; its position is its id. */
  datatype CaRow = CaRow(intermediate: bool, active: bool, subject: Name, key: Key, notAfter: Time)

  datatype Binding = Unbound | BoundTo(id: nat) | Nonsense

  /** `stored` are the rows that cabin's own certificates add to the inventory. */
  datatype State = State(crt: CrtFile, sealed: KeyFile, mode: Option<Mode>, lastError: Option<string>,
                         binding: Binding, stored: seq<Cert>)

  /** Everything a call reads from outside: the clock, the master key, the CA
      table, the wanted names, the fresh key pair it would generate, and why
      issuing would be refused for reasons other than expiry. */
  datatype Call = Call(now: Time, master: nat, rows: seq<CaRow>, names: Names, newKey: Key, refusal: Option<string>)

  /** Where the process dies, if it does. */
  datatype Stop = Completes | DiesAfterStoring | DiesBetweenFiles | DiesAfterFiles

  // ----- what is on disk -----------------------------------------------------------

  function ModeOf(cert: Cert): Mode
  {
    if cert.issuer == cert.subject then SelfSigned else CaIssued
  }

  /** The material on disk, if its two halves can be read and belong together. */
  function Load(s: State, master: nat): Option<Cert>
  {
    if s.crt.Crt? && s.sealed.SealedKey? && s.sealed.master == master && s.sealed.key == s.crt.cert.key
    then Some(s.crt.cert) else None
  }

  predicate IssuedBy(cert: Cert, issuer: CaRow)
  {
    cert.issuer == issuer.subject && cert.signer == issuer.key
  }

  // ----- which issuer ----------------------------------------------------------------

  predicate Usable(rows: seq<CaRow>, id: nat)
  {
    id < |rows| && rows[id].intermediate && rows[id].active
  }

  function ActiveIssuers(rows: seq<CaRow>): seq<nat>
  {
    if rows == [] then []
    else
      var last := |rows| - 1;
      ActiveIssuers(rows[..last]) + if rows[last].intermediate && rows[last].active then [last] else []
  }

  /** The issuer, and the binding afterwards: an unambiguous answer is written down. */
  function Resolve(binding: Binding, rows: seq<CaRow>): (r: (Option<nat>, Binding))
    ensures r.0.Some? ==> Usable(rows, r.0.value) && r.1 == BoundTo(r.0.value)
    ensures binding != Unbound ==> r.1 == binding
    ensures r.0.None? ==> r.1 == binding
  {
    match binding
    case BoundTo(id) => (if Usable(rows, id) then Some(id) else None, binding)
    case Nonsense => (None, binding)
    case Unbound =>
      var issuers := ActiveIssuers(rows);
      if |issuers| == 1 then ActiveIssuersAreUsable(rows); (Some(issuers[0]), BoundTo(issuers[0])) else (None, binding)
  }

  lemma {:induction false} ActiveIssuersAreUsable(rows: seq<CaRow>)
    ensures forall id :: id in ActiveIssuers(rows) <==> Usable(rows, id)
  {
    if rows != [] {
      ActiveIssuersAreUsable(rows[..|rows| - 1]);
    }
  }

  // ----- the decision ------------------------------------------------------------------

  function Min(a: Time, b: Time): Time
  {
    if a <= b then a else b
  }

  datatype Decision = Keep | Issue(target: Mode)

  predicate Fits(cert: Cert, issuer: Option<CaRow>, target: Mode, names: Names)
  {
    && ModeOf(cert) == target && cert.subject.cn == names.cn && cert.sans == names.sans
    && (target == CaIssued && issuer.Some? ==> IssuedBy(cert, issuer.value))
  }

  function Target(current: Option<Cert>, issuer: Option<CaRow>): Mode
  {
    if issuer.Some? || (current.Some? && ModeOf(current.value) == CaIssued) then CaIssued else SelfSigned
  }

  function Decide(current: Option<Cert>, issuer: Option<CaRow>, names: Names, now: Time): Decision
  {
    var target := Target(current, issuer);
    if target == CaIssued && issuer.None? then Keep
    else if current.None? || !Fits(current.value, issuer, target, names) then Issue(target)
    else if now < current.value.notAfter - RENEW_BEFORE then Keep
    else if target == CaIssued && Min(now + LIFETIME, issuer.value.notAfter) - current.value.notAfter < MIN_RENEWAL_GAIN then Keep
    else Issue(target)
  }

  /** The new certificate. `written` is what the wanted names read back as once
      they are in a certificate: addresses are printed in one canonical form. */
  function Make(call: Call, issuer: Option<CaRow>, target: Mode, written: Names -> Names): Result<Cert, string>
    requires target == CaIssued ==> issuer.Some?
  {
    var names := written(call.names);
    var subject := Name(names.cn, "");
    if call.refusal.Some? then Err(call.refusal.value)
    else if target == SelfSigned then Ok(Cert(subject, subject, call.newKey, call.newKey, names.sans, call.now + LIFETIME))
    else if Min(call.now + LIFETIME, issuer.value.notAfter) <= call.now then Err("the signing CA certificate has expired")
    else Ok(Cert(subject, issuer.value.subject, issuer.value.key, call.newKey, names.sans, Min(call.now + LIFETIME, issuer.value.notAfter)))
  }

  // ----- one call -----------------------------------------------------------------------

  /** A new process knows neither a mode nor an error. */
  function Restarted(s: State): State
  {
    s.(mode := None, lastError := None)
  }

  function IssuerRow(binding: Binding, rows: seq<CaRow>): Option<CaRow>
  {
    var issuer := Resolve(binding, rows).0;
    if issuer.Some? then Some(rows[issuer.value]) else None
  }

  function Install(s: State, cert: Cert, target: Mode, master: nat, stop: Stop): State
  {
    var kept := if target == CaIssued then s.(stored := s.stored + [cert]) else s;
    match stop
    case DiesAfterStoring => Restarted(kept)
    case DiesBetweenFiles => Restarted(kept.(crt := Crt(cert)))
    case DiesAfterFiles => Restarted(kept.(crt := Crt(cert), sealed := SealedKey(master, cert.key)))
    case Completes => kept.(crt := Crt(cert), sealed := SealedKey(master, cert.key), mode := Some(target), lastError := None)
  }

  function EnsureCurrent(s: State, call: Call, written: Names -> Names, stop: Stop): (State, bool)
  {
    var current := Load(s, call.master);
    var issuer := IssuerRow(s.binding, call.rows);
    var bound := s.(binding := Resolve(s.binding, call.rows).1);
    var kept := bound.(mode := if current.Some? then Some(ModeOf(current.value)) else None);
    match Decide(current, issuer, call.names, call.now)
    case Keep => (kept, false)
    case Issue(target) =>
      match Make(call, issuer, target, written)
      case Err(message) => (kept.(lastError := Some(message)), false)
      case Ok(cert) => (Install(bound, cert, target, call.master, stop), true)
  }

  // ----- the manager ----------------------------------------------------------------------

  class TlsManager {
    var crt: CrtFile
    var sealed: KeyFile
    var mode: Option<Mode>
    var lastError: Option<string>
    var binding: Binding
    var stored: seq<Cert>

    ghost function Contents(): State
      reads this
    {
      State(crt, sealed, mode, lastError, binding, stored)
    }

    /** A process starts over whatever a previous one left behind. */
    constructor (crt: CrtFile, sealed: KeyFile, binding: Binding, stored: seq<Cert>)
      ensures Contents() == State(crt, sealed, None, None, binding, stored)
    {
      this.crt, this.sealed, this.binding, this.stored := crt, sealed, binding, stored;
      mode, lastError := None, None;
    }

    method ListActiveIssuers(rows: seq<CaRow>) returns (issuers: seq<nat>)
      ensures issuers == ActiveIssuers(rows)
    {
      issuers := [];
      for id := 0 to |rows|
        invariant issuers == ActiveIssuers(rows[..id])
      {
        assert rows[..id + 1][..id] == rows[..id];
        if rows[id].intermediate && rows[id].active {
          issuers := issuers + [id];
        }
      }
      assert rows[..|rows|] == rows;
    }

    method ResolveTlsIssuer(rows: seq<CaRow>) returns (issuer: Option<nat>)
      modifies this`binding
      ensures (issuer, binding) == Resolve(old(binding), rows)
    {
      match binding {
        case BoundTo(id) =>
          if id < |rows| && rows[id].intermediate && rows[id].active {
            return Some(id);
          }
          return None;
        case Nonsense =>
          return None;
        case Unbound =>
          var issuers := ListActiveIssuers(rows);
          if |issuers| == 1 {
            binding := BoundTo(issuers[0]);
            return Some(issuers[0]);
          }
          return None;
      }
    }

    method LoadCurrent(master: nat) returns (current: Option<Cert>)
      ensures current == Load(Contents(), master)
    {
      if crt == NoCrt || sealed == NoKey {
        return None;
      }
      if crt == UnreadableCrt {
        return None;
      }
      if sealed == UnreadableKey || sealed.master != master {
        return None;
      }
      if sealed.key != crt.cert.key {
        return None;
      }
      return Some(crt.cert);
    }

    method EnsureCurrentMaterial(call: Call, written: Names -> Names) returns (changed: bool)
      modifies this
      ensures (Contents(), changed) == EnsureCurrent(old(Contents()), call, written, Completes)
    {
      var current := LoadCurrent(call.master);
      if current.Some? && mode == None {
        mode := Some(ModeOf(current.value));
      }
      var id := ResolveTlsIssuer(call.rows);
      var issuer: Option<CaRow> := None;
      if id.Some? {
        issuer := Some(call.rows[id.value]);
      }
      var target := SelfSigned;
      if issuer.Some? || (current.Some? && ModeOf(current.value) == CaIssued) {
        target := CaIssued;
      }
      var keeping := if current.Some? then Some(ModeOf(current.value)) else None;
      if target == CaIssued && issuer.None? {
        mode := keeping;
        return false;
      }
      var namesChanged := current.None? || current.value.subject.cn != call.names.cn || current.value.sans != call.names.sans;
      var modeChanged := current.None? || ModeOf(current.value) != target;
      if !modeChanged && target == CaIssued {
        modeChanged := !IssuedBy(current.value, issuer.value);
      }
      if !modeChanged && !namesChanged {
        if call.now < current.value.notAfter - RENEW_BEFORE {
          mode := keeping;
          return false;
        }
        if target == CaIssued {
          var candidate := Min(call.now + LIFETIME, issuer.value.notAfter);
          if candidate - current.value.notAfter < MIN_RENEWAL_GAIN {
            mode := keeping;
            return false;
          }
        }
      }
      var made := Make(call, issuer, target, written);
      match made {
        case Err(message) =>
          mode := keeping;
          lastError := Some(message);
          return false;
        case Ok(cert) =>
          if target == CaIssued {
            stored := stored + [cert];
          }
          crt := Crt(cert);
          sealed := SealedKey(call.master, cert.key);
          mode := Some(target);
          lastError := None;
          return true;
      }
    }
  }
}
