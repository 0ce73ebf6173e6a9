/**
 The names of a finalization request against the names of its order
 (acme/csr.py): section 7.4 of RFC 8555 asks for exact agreement.
 */
module Csr {
  import opened Prelude
  import opened Text
  import opened NameConstraints

  datatype Kind = Dns | Ip

  datatype Identifier = Identifier(kind: Kind, value: string)

  /** A subjectAltName entry; an address is given in its printed form. */
  datatype CsrName = CsrDns(value: string) | CsrIp(value: string) | CsrOther

  datatype CommonName = NoCn | TextCn(value: string) | OtherCn

  datatype Request = Request(names: seq<CsrName>, cn: CommonName)

  datatype Error = UnsupportedName | ExtraNames(tokens: set<string>) | MissingNames(tokens: set<string>) | CnNotText | CnNotOrdered

  /** How addresses are read and printed. */
  datatype Addresses = Addresses(read: string -> Option<Address>, show: Address -> string)

  function Token(kind: Kind, value: string, addresses: Addresses): string
  {
    match kind
    case Ip => "ip:" + (match addresses.read(value) case Some(a) => addresses.show(a) case None => Lower(value))
    case Dns => "dns:" + Lower(value)
  }

  function OrderTokens(identifiers: seq<Identifier>, addresses: Addresses): set<string>
  {
    set i | 0 <= i < |identifiers| :: Token(identifiers[i].kind, identifiers[i].value, addresses)
  }

  function KindOf(name: CsrName): Kind
  {
    if name.CsrIp? then Ip else Dns
  }

  function CsrTokens(names: seq<CsrName>, addresses: Addresses): set<string>
  {
    set i | 0 <= i < |names| && !names[i].CsrOther? :: Token(KindOf(names[i]), names[i].value, addresses)
  }

  /** None when the request names exactly what was ordered. */
  function CheckIdentifiers(r: Request, identifiers: seq<Identifier>, addresses: Addresses): Option<Error>
  {
    var ordered, requested := OrderTokens(identifiers, addresses), CsrTokens(r.names, addresses);
    if CsrOther in r.names then Some(UnsupportedName)
    else if requested - ordered != {} then Some(ExtraNames(requested - ordered))
    else if ordered - requested != {} then Some(MissingNames(ordered - requested))
    else
      match r.cn
      case NoCn => None
      case OtherCn => Some(CnNotText)
      case TextCn(cn) =>
        if Token(Dns, cn, addresses) in ordered || Token(Ip, cn, addresses) in ordered then None else Some(CnNotOrdered)
  }

  /** The tokens gathered one by one; a name of another form stops at once. */
  method CollectTokens(names: seq<CsrName>, addresses: Addresses) returns (tokens: Result<set<string>, Error>)
    ensures tokens == if CsrOther in names then Err(UnsupportedName) else Ok(CsrTokens(names, addresses))
  {
    hide Token, Lower;
    var found: set<string> := {};
    for k := 0 to |names|
      invariant CsrOther !in names[..k]
      invariant found == CsrTokens(names[..k], addresses)
    {
      if names[k].CsrOther? {
        return Err(UnsupportedName);
      }
      MoreTokens(names, k, addresses);
      found := found + {Token(KindOf(names[k]), names[k].value, addresses)};
    }
    assert names[..|names|] == names;
    return Ok(found);
  }

  lemma MoreTokens(names: seq<CsrName>, k: nat, addresses: Addresses)
    requires k < |names| && !names[k].CsrOther?
    ensures CsrTokens(names[..k + 1], addresses)
         == CsrTokens(names[..k], addresses) + {Token(KindOf(names[k]), names[k].value, addresses)}
  {
    hide Token;
    var whole, part := names[..k + 1], names[..k];
    assert forall i :: 0 <= i < k ==> whole[i] == part[i];
    forall t | t in CsrTokens(part, addresses) ensures t in CsrTokens(whole, addresses) {
      var i :| 0 <= i < k && !part[i].CsrOther? && t == Token(KindOf(part[i]), part[i].value, addresses);
      assert whole[i] == part[i];
    }
    assert whole[k] == names[k];
  }

  // ----- what agreement means --------------------------------------------------------------

  /** Host names agree without regard to case; addresses agree as addresses; a host
      name and an address never do. */
  predicate SameName(k1: Kind, v1: string, k2: Kind, v2: string, addresses: Addresses)
  {
    && k1 == k2
    && (k1 == Dns ==> Lower(v1) == Lower(v2))
    && (k1 == Ip ==> addresses.read(v1) == addresses.read(v2) && (addresses.read(v1).None? ==> Lower(v1) == Lower(v2)))
  }

  /** What is printed reads back, and reading ignores case. */
  ghost predicate Faithful(addresses: Addresses)
  {
    && (forall a: Address :: addresses.read(addresses.show(a)) == Some(a))
    && (forall v: string :: addresses.read(Lower(v)) == addresses.read(v))
  }

  lemma TokensAreNames(k1: Kind, v1: string, k2: Kind, v2: string, addresses: Addresses)
    requires Faithful(addresses)
    ensures Token(k1, v1, addresses) == Token(k2, v2, addresses) <==> SameName(k1, v1, k2, v2, addresses)
  {
    hide Lower;
    var t1, t2 := Token(k1, v1, addresses), Token(k2, v2, addresses);
    if k1 != k2 {
      assert t1[0] != t2[0];
    } else if k1 == Dns {
      assert t1[4..] == Lower(v1) && t2[4..] == Lower(v2);
    } else {
      var p1 := if addresses.read(v1).Some? then addresses.show(addresses.read(v1).value) else Lower(v1);
      var p2 := if addresses.read(v2).Some? then addresses.show(addresses.read(v2).value) else Lower(v2);
      assert t1 == "ip:" + p1 && t2 == "ip:" + p2 && t1[3..] == p1 && t2[3..] == p2;
      assert addresses.read(p1) == addresses.read(v1) && addresses.read(p2) == addresses.read(v2);
    }
  }

  predicate Ordered(identifiers: seq<Identifier>, kind: Kind, value: string, addresses: Addresses)
  {
    exists i :: 0 <= i < |identifiers| && SameName(identifiers[i].kind, identifiers[i].value, kind, value, addresses)
  }

  predicate Requested(names: seq<CsrName>, kind: Kind, value: string, addresses: Addresses)
  {
    exists i :: 0 <= i < |names| && !names[i].CsrOther? && SameName(KindOf(names[i]), names[i].value, kind, value, addresses)
  }

  lemma OrderedIsToken(identifiers: seq<Identifier>, kind: Kind, value: string, addresses: Addresses)
    requires Faithful(addresses)
    ensures Token(kind, value, addresses) in OrderTokens(identifiers, addresses) <==> Ordered(identifiers, kind, value, addresses)
  {
    hide Token, SameName, Faithful;
    forall i | 0 <= i < |identifiers|
      ensures Token(identifiers[i].kind, identifiers[i].value, addresses) == Token(kind, value, addresses)
         <==> SameName(identifiers[i].kind, identifiers[i].value, kind, value, addresses)
    {
      TokensAreNames(identifiers[i].kind, identifiers[i].value, kind, value, addresses);
    }
  }

  lemma RequestedIsToken(names: seq<CsrName>, kind: Kind, value: string, addresses: Addresses)
    requires Faithful(addresses)
    ensures Token(kind, value, addresses) in CsrTokens(names, addresses) <==> Requested(names, kind, value, addresses)
  {
    hide Token, SameName, Faithful;
    forall i | 0 <= i < |names| && !names[i].CsrOther?
      ensures Token(KindOf(names[i]), names[i].value, addresses) == Token(kind, value, addresses)
         <==> SameName(KindOf(names[i]), names[i].value, kind, value, addresses)
    {
      TokensAreNames(KindOf(names[i]), names[i].value, kind, value, addresses);
    }
  }

  ghost predicate NothingExtra(names: seq<CsrName>, identifiers: seq<Identifier>, addresses: Addresses)
  {
    forall i :: 0 <= i < |names| && !names[i].CsrOther? ==> Ordered(identifiers, KindOf(names[i]), names[i].value, addresses)
  }

  ghost predicate NothingMissing(names: seq<CsrName>, identifiers: seq<Identifier>, addresses: Addresses)
  {
    forall i :: 0 <= i < |identifiers| ==> Requested(names, identifiers[i].kind, identifiers[i].value, addresses)
  }

  lemma NoExtraTokens(names: seq<CsrName>, identifiers: seq<Identifier>, addresses: Addresses)
    requires Faithful(addresses)
    ensures CsrTokens(names, addresses) <= OrderTokens(identifiers, addresses) <==> NothingExtra(names, identifiers, addresses)
  {
    hide Token, Ordered, OrderTokens, Faithful;
    forall i | 0 <= i < |names| && !names[i].CsrOther?
      ensures Token(KindOf(names[i]), names[i].value, addresses) in OrderTokens(identifiers, addresses)
         <==> Ordered(identifiers, KindOf(names[i]), names[i].value, addresses)
    {
      OrderedIsToken(identifiers, KindOf(names[i]), names[i].value, addresses);
    }
    if CsrTokens(names, addresses) <= OrderTokens(identifiers, addresses) {
      forall i | 0 <= i < |names| && !names[i].CsrOther? ensures Ordered(identifiers, KindOf(names[i]), names[i].value, addresses) {
        assert Token(KindOf(names[i]), names[i].value, addresses) in CsrTokens(names, addresses);
      }
    }
  }

  lemma NoMissingTokens(names: seq<CsrName>, identifiers: seq<Identifier>, addresses: Addresses)
    requires Faithful(addresses)
    ensures OrderTokens(identifiers, addresses) <= CsrTokens(names, addresses) <==> NothingMissing(names, identifiers, addresses)
  {
    hide Token, Requested, CsrTokens, Faithful;
    forall i | 0 <= i < |identifiers|
      ensures Token(identifiers[i].kind, identifiers[i].value, addresses) in CsrTokens(names, addresses)
         <==> Requested(names, identifiers[i].kind, identifiers[i].value, addresses)
    {
      RequestedIsToken(names, identifiers[i].kind, identifiers[i].value, addresses);
    }
    if OrderTokens(identifiers, addresses) <= CsrTokens(names, addresses) {
      forall i | 0 <= i < |identifiers| ensures Requested(names, identifiers[i].kind, identifiers[i].value, addresses) {
        assert Token(identifiers[i].kind, identifiers[i].value, addresses) in OrderTokens(identifiers, addresses);
      }
    }
  }

  /** A request passes exactly when it carries only names that can be ordered, each of
      them was ordered, each ordered name is there, and its common name, if it has
      one, is one of them. */
  lemma PassesIffNamesAgree(r: Request, identifiers: seq<Identifier>, addresses: Addresses)
    requires Faithful(addresses)
    ensures CheckIdentifiers(r, identifiers, addresses).None?
       <==> && CsrOther !in r.names
            && NothingExtra(r.names, identifiers, addresses)
            && NothingMissing(r.names, identifiers, addresses)
            && (r.cn.NoCn? || (r.cn.TextCn? && (Ordered(identifiers, Dns, r.cn.value, addresses) || Ordered(identifiers, Ip, r.cn.value, addresses))))
  {
    hide Token, Ordered, CsrTokens, OrderTokens, NothingExtra, NothingMissing, Faithful;
    NoExtraTokens(r.names, identifiers, addresses);
    NoMissingTokens(r.names, identifiers, addresses);
    if r.cn.TextCn? {
      OrderedIsToken(identifiers, Dns, r.cn.value, addresses);
      OrderedIsToken(identifiers, Ip, r.cn.value, addresses);
    }
  }
}
