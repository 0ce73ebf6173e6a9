/**
 Name constraints (ca/leaf.py): the parser of operator input, the extension it
 becomes, the reader, and the check every leaf passes before it is signed. The
 check is proved to accept what section 4.2.1.10 of RFC 5280 allows.
 */
module NameConstraints {
  import opened Prelude
  import opened Text

  // ----- addresses and networks -----------------------------------------------------

  datatype Family = V4 | V6

  datatype Address = Address(family: Family, value: nat)

  function Width(family: Family): nat
  {
    match family case V4 => 32 case V6 => 128
  }

  function Pow2(n: nat): (r: nat)
    ensures r > 0
  {
    if n == 0 then 1 else 2 * Pow2(n - 1)
  }

  /** A network in prefix notation. */
  datatype Prefix = Prefix(family: Family, base: nat, prefix: nat)
  {
    /** The prefix fits the family and no host bit is set. */
    predicate Proper()
    {
      prefix <= Width(family) && base % HostSpan() == 0
    }

    function HostSpan(): (r: nat)
      ensures r > 0
    {
      if prefix <= Width(family) then Pow2(Width(family) - prefix) else 1
    }

    /** Masking the address gives the network address; families never mix. */
    predicate Contains(a: Address)
    {
      a.family == family && a.value - a.value % HostSpan() == base
    }

    /** The addresses of the network are one contiguous range. */
    predicate Spans(a: Address)
    {
      a.family == family && base <= a.value < base + HostSpan()
    }
  }

  /** Neither the address library nor a certificate that parses yields another. */
  type Network = n: Prefix | n.Proper() witness Prefix(V4, 0, 32)

  lemma MaskingIsARange(n: Network, a: Address)
    ensures n.Contains(a) <==> n.Spans(a)
  {
    Masked(a.value, n.base, n.HostSpan());
  }

  lemma Masked(value: nat, base: nat, span: nat)
    requires span > 0 && base % span == 0
    ensures value - value % span == base <==> base <= value < base + span
  {
    if base <= value < base + span {
      var q, k := base / span, value / span;
      Divides(base, span);
      Divides(value, span);
      SameQuotient(span, k, value % span, q);
    }
  }

  lemma Divides(value: nat, span: nat)
    requires span > 0
    ensures value == span * (value / span) + value % span
  {
  }

  lemma SameQuotient(span: nat, k: nat, r: nat, q: nat)
    requires r < span && span * q <= span * k + r < span * q + span
    ensures k == q
  {
    if k < q {
      Scaled(span, k + 1, q);
    } else if q < k {
      Scaled(span, q + 1, k);
    }
  }

  lemma Scaled(span: nat, a: nat, b: nat)
    requires a <= b
    ensures span * a <= span * b
    ensures a > 0 ==> span * a == span * (a - 1) + span
  {
  }

  // ----- the extension ------------------------------------------------------------------

  datatype GeneralName =
    | DnsSubtree(suffix: string)
    | IpSubtree(network: Network)
    | EmailSubtree(mailbox: string)
    | OtherSubtree

  /** The extension value. A side that is absent is an empty sequence here. */
  datatype Extension = Extension(permitted: seq<GeneralName>, excluded: seq<GeneralName>)

  /** What an operator asked for: lower-case suffixes and proper networks. */
  datatype Spec = Spec(permittedDns: seq<string>, permittedIp: seq<Network>, excludedDns: seq<string>, excludedIp: seq<Network>)
  {
    predicate IsEmpty()
    {
      permittedDns == [] && permittedIp == [] && excludedDns == [] && excludedIp == []
    }

    predicate Normal()
    {
      && (forall i :: 0 <= i < |permittedDns| ==> IsLower(permittedDns[i]))
      && (forall i :: 0 <= i < |excludedDns| ==> IsLower(excludedDns[i]))
    }
  }

  const NO_CONSTRAINTS := Spec([], [], [], [])

  function DnsOf(names: seq<GeneralName>): seq<string>
  {
    if names == [] then []
    else (if names[0].DnsSubtree? then [Lower(names[0].suffix)] else []) + DnsOf(names[1..])
  }

  function IpOf(names: seq<GeneralName>): seq<Network>
  {
    if names == [] then []
    else (if names[0].IpSubtree? then [names[0].network] else []) + IpOf(names[1..])
  }

  function Subtrees(dns: seq<string>, ip: seq<Network>): seq<GeneralName>
  {
    seq(|dns|, i requires 0 <= i < |dns| => DnsSubtree(dns[i])) + seq(|ip|, i requires 0 <= i < |ip| => IpSubtree(ip[i]))
  }

  /** No constraints means no extension at all, never an empty one. */
  function ExtensionOf(spec: Spec): (r: Option<Extension>)
    ensures r.None? <==> spec.IsEmpty()
  {
    if spec.IsEmpty() then None
    else
      var e := Extension(Subtrees(spec.permittedDns, spec.permittedIp), Subtrees(spec.excludedDns, spec.excludedIp));
      assert |e.permitted| + |e.excluded| > 0;
      Some(e)
  }

  function ConstraintsOf(extension: Option<Extension>): Spec
  {
    match extension
    case None => NO_CONSTRAINTS
    case Some(e) => Spec(DnsOf(e.permitted), IpOf(e.permitted), DnsOf(e.excluded), IpOf(e.excluded))
  }

  lemma DnsOfHead(a: seq<GeneralName>)
    requires a != []
    ensures DnsOf(a) == DnsOf([a[0]]) + DnsOf(a[1..])
  {
    assert [a[0]][1..] == [] && DnsOf([]) == [];
  }

  lemma {:induction false} DnsOfConcat(a: seq<GeneralName>, b: seq<GeneralName>)
    ensures DnsOf(a + b) == DnsOf(a) + DnsOf(b)
  {
    hide Lower;
    if a == [] {
      assert a + b == b;
    } else {
      var rest := a[1..];
      assert (a + b)[1..] == rest + b && (a + b)[0] == a[0];
      DnsOfConcat(rest, b);
      var head := DnsOf([a[0]]);
      DnsOfHead(a);
      DnsOfHead(a + b);
      assert (head + DnsOf(rest)) + DnsOf(b) == head + (DnsOf(rest) + DnsOf(b));
    }
  }

  lemma IpOfHead(a: seq<GeneralName>)
    requires a != []
    ensures IpOf(a) == IpOf([a[0]]) + IpOf(a[1..])
  {
    assert [a[0]][1..] == [] && IpOf([]) == [];
  }

  lemma {:induction false} IpOfConcat(a: seq<GeneralName>, b: seq<GeneralName>)
    ensures IpOf(a + b) == IpOf(a) + IpOf(b)
  {
    if a == [] {
      assert a + b == b;
    } else {
      var rest := a[1..];
      assert (a + b)[1..] == rest + b && (a + b)[0] == a[0];
      IpOfConcat(rest, b);
      var head := IpOf([a[0]]);
      IpOfHead(a);
      IpOfHead(a + b);
      assert (head + IpOf(rest)) + IpOf(b) == head + (IpOf(rest) + IpOf(b));
    }
  }

  lemma {:induction false} OfDns(dns: seq<string>)
    requires forall i :: 0 <= i < |dns| ==> IsLower(dns[i])
    ensures DnsOf(Subtrees(dns, [])) == dns && IpOf(Subtrees(dns, [])) == []
  {
    if dns != [] {
      assert Subtrees(dns, [])[1..] == Subtrees(dns[1..], []);
      OfDns(dns[1..]);
    }
  }

  lemma {:induction false} OfIp(ip: seq<Network>)
    ensures DnsOf(Subtrees([], ip)) == [] && IpOf(Subtrees([], ip)) == ip
  {
    if ip != [] {
      assert Subtrees([], ip)[1..] == Subtrees([], ip[1..]);
      OfIp(ip[1..]);
    }
  }

  lemma SideReadsBack(dns: seq<string>, ip: seq<Network>)
    requires forall i :: 0 <= i < |dns| ==> IsLower(dns[i])
    ensures DnsOf(Subtrees(dns, ip)) == dns && IpOf(Subtrees(dns, ip)) == ip
  {
    assert Subtrees(dns, ip) == Subtrees(dns, []) + Subtrees([], ip);
    DnsOfConcat(Subtrees(dns, []), Subtrees([], ip));
    IpOfConcat(Subtrees(dns, []), Subtrees([], ip));
    OfDns(dns);
    OfIp(ip);
  }

  /** What is read back from a certificate is what the operator asked for. */
  lemma ReadsBack(spec: Spec)
    requires spec.Normal()
    ensures ConstraintsOf(ExtensionOf(spec)) == spec
  {
    SideReadsBack(spec.permittedDns, spec.permittedIp);
    SideReadsBack(spec.excludedDns, spec.excludedIp);
  }

  // ----- the parser -------------------------------------------------------------------------

  const MAX_NAME_CONSTRAINTS := 50

  /** How the address library reads an entry; a bare address is its own network. */
  datatype IpReading = NotIp | HostBitsSet | Read(network: Network)

  datatype ParseError = Wildcard(entry: string) | HostBits(entry: string) | NotAnEntry(entry: string) | TooMany(total: nat)

  datatype Entry = DnsEntry(suffix: string) | IpEntry(network: Network)

  function ParseEntry(entry: string, readIp: string -> IpReading): (r: Result<Entry, ParseError>)
    ensures r.Ok? && r.value.DnsEntry? ==> IsLower(r.value.suffix) && r.value.suffix != ""
  {
    if StartsWith(entry, "*.") then Err(Wildcard(entry))
    else
      match readIp(entry)
      case Read(network) => Ok(IpEntry(network))
      case HostBitsSet => Err(HostBits(entry))
      case NotIp =>
        var name := if StartsWith(entry, ".") then entry[1..] else entry;
        LowerTwice(name);
        if name == "" || !IsHostname(name) then Err(NotAnEntry(entry)) else Ok(DnsEntry(Lower(name)))
  }

  /** The entries of one side in order, or the first one that cannot be read. */
  function ParseEntries(lines: seq<string>, readIp: string -> IpReading): Result<(seq<string>, seq<Network>), ParseError>
  {
    if lines == [] then Ok(([], []))
    else
      match ParseEntries(lines[..|lines| - 1], readIp)
      case Err(error) => Err(error)
      case Ok((dns, ip)) =>
        var entry := Strip(lines[|lines| - 1]);
        if entry == "" then Ok((dns, ip))
        else
          match ParseEntry(entry, readIp)
          case Err(error) => Err(error)
          case Ok(DnsEntry(suffix)) => Ok((dns + [suffix], ip))
          case Ok(IpEntry(network)) => Ok((dns, ip + [network]))
  }

  function ParseSide(lines: seq<string>, readIp: string -> IpReading): Result<(seq<string>, seq<Network>), ParseError>
  {
    match ParseEntries(lines, readIp)
    case Err(error) => Err(error)
    case Ok((dns, ip)) =>
      if |dns| + |ip| > MAX_NAME_CONSTRAINTS then Err(TooMany(|dns| + |ip|)) else Ok((dns, ip))
  }

  lemma {:induction false} FirstErrorWins(lines: seq<string>, k: nat, readIp: string -> IpReading)
    requires k <= |lines| && ParseEntries(lines[..k], readIp).Err?
    ensures ParseEntries(lines, readIp) == ParseEntries(lines[..k], readIp)
  {
    if k == |lines| {
      assert lines[..k] == lines;
    } else {
      var init := lines[..|lines| - 1];
      assert init[..k] == lines[..k];
      FirstErrorWins(init, k, readIp);
    }
  }

  /** Skipping blank lines, stopping at the first bad one, counting at the end. */
  method ParseLines(lines: seq<string>, readIp: string -> IpReading) returns (side: Result<(seq<string>, seq<Network>), ParseError>)
    ensures side == ParseSide(lines, readIp)
  {
    hide ParseEntry, Strip;
    var dns: seq<string>, ip: seq<Network> := [], [];
    for k := 0 to |lines|
      invariant ParseEntries(lines[..k], readIp) == Ok((dns, ip))
    {
      assert lines[..k + 1][..k] == lines[..k];
      var entry := Strip(lines[k]);
      if entry != "" {
        var parsed := ParseEntry(entry, readIp);
        match parsed {
          case Err(error) =>
            FirstErrorWins(lines, k + 1, readIp);
            return Err(error);
          case Ok(DnsEntry(suffix)) => dns := dns + [suffix];
          case Ok(IpEntry(network)) => ip := ip + [network];
        }
      }
    }
    assert lines[..|lines|] == lines;
    if |dns| + |ip| > MAX_NAME_CONSTRAINTS {
      return Err(TooMany(|dns| + |ip|));
    }
    return Ok((dns, ip));
  }

  function Parse(permitted: seq<string>, excluded: seq<string>, readIp: string -> IpReading): Result<Spec, ParseError>
  {
    match ParseSide(permitted, readIp)
    case Err(error) => Err(error)
    case Ok((permittedDns, permittedIp)) =>
      match ParseSide(excluded, readIp)
      case Err(error) => Err(error)
      case Ok((excludedDns, excludedIp)) => Ok(Spec(permittedDns, permittedIp, excludedDns, excludedIp))
  }

  lemma {:induction false} ParsedIsLower(lines: seq<string>, readIp: string -> IpReading)
    ensures ParseEntries(lines, readIp).Ok? ==>
              forall i :: 0 <= i < |ParseEntries(lines, readIp).value.0| ==>
                IsLower(ParseEntries(lines, readIp).value.0[i]) && ParseEntries(lines, readIp).value.0[i] != ""
  {
    if lines != [] {
      ParsedIsLower(lines[..|lines| - 1], readIp);
    }
  }

  /** For every operator input that parses, the certificate carries exactly the
      parsed constraints, and no empty suffix is among them. */
  lemma ParsedConstraintsReadBack(permitted: seq<string>, excluded: seq<string>, readIp: string -> IpReading)
    ensures
      var spec := Parse(permitted, excluded, readIp);
      spec.Ok? ==> ConstraintsOf(ExtensionOf(spec.value)) == spec.value && "" !in spec.value.permittedDns && "" !in spec.value.excludedDns
  {
    ParsedIsLower(permitted, readIp);
    ParsedIsLower(excluded, readIp);
    var spec := Parse(permitted, excluded, readIp);
    if spec.Ok? {
      ReadsBack(spec.value);
    }
  }

  // ----- the check --------------------------------------------------------------------------

  datatype CheckError =
    | ExcludedBy(name: string, hit: GeneralName)
    | NotPermitted(name: string)
    | CannotEvaluate(name: string)
    | NotAnAddress(name: string)

  predicate DnsWithin(name: string, suffix: string)
  {
    name == suffix || EndsWith(name, "." + suffix)
  }

  /** The subtree a name falls into, as the check decides it for one name form. */
  predicate Hits(g: GeneralName, kind: string, value: string, address: Option<Address>)
  {
    match kind
    case "DNS" => g.DnsSubtree? && DnsWithin(Lower(value), Lower(g.suffix))
    case "IP" => g.IpSubtree? && address.Some? && g.network.Contains(address.value)
    case _ => false
  }

  predicate SameForm(g: GeneralName, kind: string)
  {
    match kind
    case "DNS" => g.DnsSubtree?
    case "IP" => g.IpSubtree?
    case "EMAIL" => g.EmailSubtree?
    case _ => false
  }

  /** A SAN entry up to and after its first colon. */
  function Partition(san: string): (r: (string, string))
    ensures san == r.0 + ":" + r.1 || (san == r.0 && r.1 == "")
    ensures ':' !in r.0
  {
    if san == "" then ("", "")
    else if san[0] == ':' then ("", san[1..])
    else
      var rest := Partition(san[1..]);
      assert san == [san[0]] + san[1..];
      ([san[0]] + rest.0, rest.1)
  }

  lemma {:induction false} PartitionAtFirst(head: string, tail: string)
    requires ':' !in head
    ensures Partition(head + ":" + tail) == (head, tail)
  {
    var whole := head + ":" + tail;
    if head == "" {
      assert whole == ":" + tail;
    } else {
      assert whole[1..] == head[1..] + ":" + tail;
      PartitionAtFirst(head[1..], tail);
      assert [head[0]] + head[1..] == head;
    }
  }

  function FirstHit(names: seq<GeneralName>, kind: string, value: string, address: Option<Address>): Option<GeneralName>
  {
    if names == [] then None
    else if Hits(names[0], kind, value, address) then Some(names[0])
    else FirstHit(names[1..], kind, value, address)
  }

  predicate AnyOfForm(names: seq<GeneralName>, kind: string)
  {
    exists i :: 0 <= i < |names| && SameForm(names[i], kind)
  }

  /** The answer for one entry: excluded wins, then the permitted side must hold it
      if it speaks about that form at all; forms that cannot be judged are refused. */
  function CheckOne(e: Extension, san: string, readAddress: string -> Option<Address>): Option<CheckError>
  {
    var (kind, value) := Partition(san);
    if kind == "EMAIL" then
      if AnyOfForm(e.permitted, kind) || AnyOfForm(e.excluded, kind) then Some(CannotEvaluate(san)) else None
    else if kind == "IP" && readAddress(value).None? then Some(NotAnAddress(san))
    else if kind == "DNS" || kind == "IP" then
      var address := if kind == "IP" then readAddress(value) else None;
      match FirstHit(e.excluded, kind, value, address)
      case Some(hit) => Some(ExcludedBy(san, hit))
      case None =>
        if AnyOfForm(e.permitted, kind) && FirstHit(e.permitted, kind, value, address).None? then Some(NotPermitted(san)) else None
    else None
  }

  predicate HasDnsSan(sans: seq<string>)
  {
    exists i :: 0 <= i < |sans| && StartsWith(sans[i], "DNS:")
  }

  /** The common name is judged as a host name only when no SAN is one. */
  function NamesToCheck(cn: Option<string>, sans: seq<string>): seq<string>
  {
    if !HasDnsSan(sans) && cn.Some? && IsHostname(cn.value) then sans + ["DNS:" + cn.value] else sans
  }

  function CheckAll(e: Extension, names: seq<string>, readAddress: string -> Option<Address>): Option<CheckError>
  {
    if names == [] then None
    else
      var first := CheckOne(e, names[0], readAddress);
      if first.Some? then first else CheckAll(e, names[1..], readAddress)
  }

  /** `check_name_constraints`: the first refusal, or none. */
  function Check(extension: Option<Extension>, cn: Option<string>, sans: seq<string>, readAddress: string -> Option<Address>): Option<CheckError>
  {
    match extension
    case None => None
    case Some(e) => CheckAll(e, NamesToCheck(cn, sans), readAddress)
  }

  method CheckNameConstraints(extension: Option<Extension>, cn: Option<string>, sans: seq<string>, readAddress: string -> Option<Address>)
    returns (refusal: Option<CheckError>)
    ensures refusal == Check(extension, cn, sans, readAddress)
  {
    if extension == None {
      return None;
    }
    var names := sans;
    if !HasDnsSan(sans) && cn.Some? && IsHostname(cn.value) {
      names := names + ["DNS:" + cn.value];
    }
    for k := 0 to |names|
      invariant CheckAll(extension.value, names, readAddress) == CheckAll(extension.value, names[k..], readAddress)
    {
      refusal := CheckOne(extension.value, names[k], readAddress);
      if refusal.Some? {
        return;
      }
    }
    return None;
  }

  // ----- what RFC 5280 allows -----------------------------------------------------------------

  /** A name as its labels, leftmost first; the empty name has none. */
  function LabelsOf(name: string): seq<string>
  {
    if name == "" then [] else Split(Lower(name))
  }

  /** Section 4.2.1.10: a DNS name satisfies a constraint if it is the constraint
      with zero or more labels added on the left; an address, if it lies in the
      range. Host names compare without regard to case. */
  predicate InSubtree(g: GeneralName, kind: string, value: string, address: Option<Address>)
  {
    match kind
    case "DNS" => g.DnsSubtree? && IsTail(LabelsOf(g.suffix), LabelsOf(value))
    case "IP" => g.IpSubtree? && address.Some? && g.network.Spans(address.value)
    case _ => false
  }

  ghost predicate InSome(names: seq<GeneralName>, kind: string, value: string, address: Option<Address>)
  {
    exists i :: 0 <= i < |names| && InSubtree(names[i], kind, value, address)
  }

  /** Excluded wins; a permitted side that has the form must contain the name. A
      mailbox under a mailbox constraint is refused, since cabin cannot judge it. */
  ghost predicate Allowed(e: Extension, san: string, readAddress: string -> Option<Address>)
  {
    var (kind, value) := Partition(san);
    var address := if kind == "IP" then readAddress(value) else None;
    && (kind == "IP" ==> address.Some?)
    && !InSome(e.excluded, kind, value, address)
    && (AnyOfForm(e.permitted, kind) ==> InSome(e.permitted, kind, value, address))
    && (kind == "EMAIL" ==> !AnyOfForm(e.excluded, kind))
  }

  /** A DNS name that neither is empty nor ends in a dot. */
  predicate IsUndotted(kind: string, value: string)
  {
    kind == "DNS" && value != "" && value[|value| - 1] != '.'
  }

  /** An imported extension may carry the empty DNS constraint, which every name
      satisfies. For that one, the check agrees with RFC 5280 exactly on the empty
      name and on names that end in a dot; for all others, it always agrees. */
  lemma HitsIsMembership(g: GeneralName, kind: string, value: string, address: Option<Address>)
    ensures (Hits(g, kind, value, address) <==> InSubtree(g, kind, value, address)) <==> !(g == DnsSubtree("") && IsUndotted(kind, value))
    ensures g == DnsSubtree("") && IsUndotted(kind, value) ==> InSubtree(g, kind, value, address)
  {
    if kind == "DNS" && g.DnsSubtree? {
      if g.suffix == "" {
        EmptyConstraintDiffers(value);
      } else {
        NamedSuffix(g.suffix, value);
      }
    } else if kind == "IP" && g.IpSubtree? && address.Some? {
      MaskingIsARange(g.network, address.value);
    }
  }

  lemma NamedSuffix(suffix: string, value: string)
    requires suffix != ""
    ensures DnsWithin(Lower(value), Lower(suffix)) <==> IsTail(LabelsOf(suffix), LabelsOf(value))
  {
    SuffixIsLabelTail(Lower(value), Lower(suffix));
  }

  lemma EmptyConstraintDiffers(value: string)
    ensures InSubtree(DnsSubtree(""), "DNS", value, None)
    ensures Hits(DnsSubtree(""), "DNS", value, None) <==> !IsUndotted("DNS", value)
  {
    assert Lower("") == "";
    if value != "" {
      assert Lower(value)[|value| - 1] == LowerChar(value[|value| - 1]);
    }
  }

  /** What a list of subtrees contains is what the check finds in it, and any
      undotted name besides if the empty constraint is among them. */
  lemma {:induction false} FirstHitIsSome(names: seq<GeneralName>, kind: string, value: string, address: Option<Address>)
    ensures InSome(names, kind, value, address)
       <==> FirstHit(names, kind, value, address).Some? || (IsUndotted(kind, value) && DnsSubtree("") in names)
  {
    hide Hits, InSubtree, IsUndotted;
    if names != [] {
      HitsIsMembership(names[0], kind, value, address);
      FirstHitIsSome(names[1..], kind, value, address);
      InSomeByParts(names, kind, value, address);
      assert names == [names[0]] + names[1..];
    }
  }

  lemma InSomeByParts(names: seq<GeneralName>, kind: string, value: string, address: Option<Address>)
    requires names != []
    ensures InSome(names, kind, value, address)
       <==> InSubtree(names[0], kind, value, address) || InSome(names[1..], kind, value, address)
  {
    hide InSubtree;
    if InSome(names, kind, value, address) {
      var i :| 0 <= i < |names| && InSubtree(names[i], kind, value, address);
      if i > 0 {
        assert InSubtree(names[1..][i - 1], kind, value, address);
      }
    }
    if i :| 0 <= i < |names[1..]| && InSubtree(names[1..][i], kind, value, address) {
      assert InSubtree(names[i + 1], kind, value, address);
    }
  }

  lemma OtherFormsAreFree(names: seq<GeneralName>, kind: string, value: string, address: Option<Address>)
    requires kind != "DNS" && kind != "IP"
    ensures !InSome(names, kind, value, address)
    ensures kind != "EMAIL" ==> !AnyOfForm(names, kind)
  {
  }

  /** The name is in some subtree other than the empty DNS constraint. */
  ghost predicate InNamed(names: seq<GeneralName>, kind: string, value: string)
  {
    exists i :: 0 <= i < |names| && names[i] != DnsSubtree("") && InSubtree(names[i], kind, value, None)
  }

  lemma {:induction false} FirstHitIsNamed(names: seq<GeneralName>, kind: string, value: string)
    requires IsUndotted(kind, value)
    ensures FirstHit(names, kind, value, None).Some? <==> InNamed(names, kind, value)
  {
    hide Hits, InSubtree, IsUndotted;
    if names != [] {
      HitsIsMembership(names[0], kind, value, None);
      FirstHitIsNamed(names[1..], kind, value);
      if InNamed(names, kind, value) {
        var i :| 0 <= i < |names| && names[i] != DnsSubtree("") && InSubtree(names[i], kind, value, None);
        if i > 0 {
          assert names[1..][i - 1] != DnsSubtree("") && InSubtree(names[1..][i - 1], kind, value, None);
        }
      }
      if i :| 0 <= i < |names[1..]| && names[1..][i] != DnsSubtree("") && InSubtree(names[1..][i], kind, value, None) {
        assert names[i + 1] != DnsSubtree("") && InSubtree(names[i + 1], kind, value, None);
      }
    }
  }

  /** An empty DNS constraint decides about an undotted name: it is the only thing that
      excludes it while the permitted side would let it through, or it is the only thing
      that permits it while nothing excludes it. */
  ghost predicate Misjudged(e: Extension, san: string)
  {
    var (kind, value) := Partition(san);
    && IsUndotted(kind, value)
    && !InNamed(e.excluded, kind, value)
    && if DnsSubtree("") in e.excluded then AnyOfForm(e.permitted, kind) ==> InNamed(e.permitted, kind, value)
       else DnsSubtree("") in e.permitted && !InNamed(e.permitted, kind, value)
  }

  lemma UndottedIsDns(kind: string, value: string)
    ensures IsUndotted(kind, value) ==> kind == "DNS"
  {
  }

  lemma EmptyIsOfForm(names: seq<GeneralName>)
    requires DnsSubtree("") in names
    ensures AnyOfForm(names, "DNS")
  {
    var i :| 0 <= i < |names| && names[i] == DnsSubtree("");
    assert SameForm(names[i], "DNS");
  }

  /** For every extension and every name: the check of one name is right if and only
      if the name is not misjudged because of an empty DNS constraint. */
  lemma CheckOneIsRightExactly(e: Extension, san: string, readAddress: string -> Option<Address>)
    ensures (CheckOne(e, san, readAddress).None? <==> Allowed(e, san, readAddress)) <==> !Misjudged(e, san)
  {
    hide InSome, InNamed, AnyOfForm, FirstHit, Partition, IsUndotted;
    var (kind, value) := Partition(san);
    var address := if kind == "IP" then readAddress(value) else None;
    UndottedIsDns(kind, value);
    if IsUndotted(kind, value) {
      FirstHitIsNamed(e.excluded, kind, value);
      FirstHitIsNamed(e.permitted, kind, value);
    }
    if kind == "DNS" || kind == "IP" {
      FirstHitIsSome(e.excluded, kind, value, address);
      FirstHitIsSome(e.permitted, kind, value, address);
      if kind == "DNS" && DnsSubtree("") in e.permitted {
        EmptyIsOfForm(e.permitted);
      }
    } else {
      OtherFormsAreFree(e.excluded, kind, value, address);
      OtherFormsAreFree(e.permitted, kind, value, address);
    }
  }

  lemma {:induction false} CheckAllIsPointwise(e: Extension, names: seq<string>, readAddress: string -> Option<Address>)
    ensures CheckAll(e, names, readAddress).None? <==> forall i :: 0 <= i < |names| ==> CheckOne(e, names[i], readAddress).None?
  {
    hide CheckOne;
    if names != [] {
      CheckAllIsPointwise(e, names[1..], readAddress);
      if CheckAll(e, names, readAddress).None? {
        forall i | 0 <= i < |names| ensures CheckOne(e, names[i], readAddress).None? {
          if i > 0 {
            assert names[i] == names[1..][i - 1];
          }
        }
      }
      if forall i :: 0 <= i < |names| ==> CheckOne(e, names[i], readAddress).None? {
        forall i | 0 <= i < |names[1..]| ensures CheckOne(e, names[1..][i], readAddress).None? {
          assert names[1..][i] == names[i + 1];
        }
      }
    }
  }

  /** The check passes exactly the requests whose every name RFC 5280 allows, unless
      an empty DNS constraint makes it misjudge one of them. */
  lemma CheckIsRfc5280(e: Extension, cn: Option<string>, sans: seq<string>, readAddress: string -> Option<Address>)
    requires forall i :: 0 <= i < |NamesToCheck(cn, sans)| ==> !Misjudged(e, NamesToCheck(cn, sans)[i])
    ensures Check(Some(e), cn, sans, readAddress).None?
       <==> forall i :: 0 <= i < |NamesToCheck(cn, sans)| ==> Allowed(e, NamesToCheck(cn, sans)[i], readAddress)
  {
    hide CheckOne, Allowed, CheckAll, NamesToCheck, Misjudged;
    var names := NamesToCheck(cn, sans);
    CheckAllIsPointwise(e, names, readAddress);
    forall i | 0 <= i < |names| ensures CheckOne(e, names[i], readAddress).None? <==> Allowed(e, names[i], readAddress) {
      CheckOneIsRightExactly(e, names[i], readAddress);
    }
  }

  /** A CA that excludes every DNS name by the empty constraint is not understood: the
      check lets a name through that RFC 5280 refuses. */
  lemma EmptyConstraintLetsThrough(readAddress: string -> Option<Address>)
    ensures
      var e := Extension([], [DnsSubtree("")]);
      Check(Some(e), None, ["DNS:a"], readAddress) == None && !Allowed(e, "DNS:a", readAddress)
  {
    var e := Extension([], [DnsSubtree("")]);
    assert "DNS" + ":" + "a" == "DNS:a";
    PartitionAtFirst("DNS", "a");
    EmptyConstraintDiffers("a");
    assert e.excluded[1..] == [];
    assert FirstHit(e.excluded[1..], "DNS", "a", None) == None;
    assert InSubtree(e.excluded[0], "DNS", "a", None);
    assert ["DNS:a"][1..] == [];
  }

  /** A subtree list built from suffixes none of which is empty has no empty constraint. */
  lemma BuiltHasNoEmpty(dns: seq<string>, ip: seq<Network>)
    requires "" !in dns
    ensures DnsSubtree("") !in Subtrees(dns, ip)
  {
  }

  /** For a CA whose constraints came from operator input, whatever the input, the check
      passes exactly the requests whose every name RFC 5280 allows. */
  lemma OperatorConstraintsAreRfc5280(permitted: seq<string>, excluded: seq<string>, readIp: string -> IpReading,
                                      cn: Option<string>, sans: seq<string>, readAddress: string -> Option<Address>)
    ensures
      var spec := Parse(permitted, excluded, readIp);
      spec.Ok? && ExtensionOf(spec.value).Some? ==>
        var e := ExtensionOf(spec.value);
        (Check(e, cn, sans, readAddress).None?
         <==> forall i :: 0 <= i < |NamesToCheck(cn, sans)| ==> Allowed(e.value, NamesToCheck(cn, sans)[i], readAddress))
  {
    hide Check, Allowed, NamesToCheck, Parse, Subtrees;
    var spec := Parse(permitted, excluded, readIp);
    ParsedConstraintsReadBack(permitted, excluded, readIp);
    if spec.Ok? && ExtensionOf(spec.value).Some? {
      BuiltHasNoEmpty(spec.value.permittedDns, spec.value.permittedIp);
      BuiltHasNoEmpty(spec.value.excludedDns, spec.value.excludedIp);
      CheckIsRfc5280(ExtensionOf(spec.value).value, cn, sans, readAddress);
    }
  }
}
