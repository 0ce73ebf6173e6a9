/**
 The names of a certificate (ca/leaf.py) and the preview of the issue form
 (web/certs_ui.py), which must agree with the signer.
 */
module San {
  import opened Prelude
  import opened Text
  import opened NameConstraints

  const MAX_SANS := 100
  const MAX_CN_LENGTH := 64

  datatype Error =
    | EmptyEntry(entry: string) | BadIp(value: string) | BadHostname(value: string) | BadEmail(value: string)
    | NoUsableSan | TooManySans | EmptyCn | LongCn | ControlCn

  type Reader = string -> Option<Address>

  // ----- one entry -----------------------------------------------------------------------

  predicate IsPrefix(s: string)
  {
    s == "dns" || s == "ip" || s == "email"
  }

  predicate HasSpace(s: string)
  {
    exists i :: 0 <= i < |s| && IsSpace(s[i])
  }

  /** The kind an entry is of, and its value. A prefix counts only if it is one of
      ours, so an IPv6 address is not read as one. */
  function Classify(raw: string, readAddress: Reader): (string, string)
  {
    var (prefix, rest) := Partition(raw);
    if ':' in raw && IsPrefix(Lower(Strip(prefix))) then (Lower(Strip(prefix)), Strip(rest))
    else if readAddress(raw).Some? then ("ip", raw)
    else if '@' in raw then ("email", raw)
    else ("dns", raw)
  }

  function Problem(kind: string, value: string, entry: string, readAddress: Reader): Option<Error>
  {
    if value == "" then Some(EmptyEntry(entry))
    else if kind == "ip" && readAddress(value).None? then Some(BadIp(value))
    else if kind == "dns" && !IsHostname(value) then Some(BadHostname(value))
    else if kind == "email" && ('@' !in value || HasSpace(value)) then Some(BadEmail(value))
    else None
  }

  function NormalizeSan(entry: string, readAddress: Reader): Result<string, Error>
  {
    var (kind, value) := Classify(Strip(entry), readAddress);
    match Problem(kind, value, entry, readAddress)
    case Some(error) => Err(error)
    case None => Ok(Upper(kind) + ":" + value)
  }

  lemma ClassifyFacts(raw: string, readAddress: Reader)
    requires Stripped(raw)
    ensures
      var (kind, value) := Classify(raw, readAddress);
      IsPrefix(kind) && Stripped(value)
  {
    StripIsStripped(Partition(raw).1);
  }

  function Shout(kind: string): string
  {
    if kind == "dns" then "DNS" else if kind == "ip" then "IP" else "EMAIL"
  }

  lemma UpperKind(kind: string)
    requires IsPrefix(kind)
    ensures Upper(kind) == Shout(kind)
  {
    if kind == "dns" {
      assert Upper("dns") == "DNS";
    } else if kind == "ip" {
      assert Upper("ip") == "IP";
    } else {
      assert Upper("email") == "EMAIL";
    }
  }

  lemma LowerKind(kind: string)
    requires IsPrefix(kind)
    ensures Lower(Shout(kind)) == kind
  {
    if kind == "dns" {
      assert Lower("DNS") == "dns";
    } else if kind == "ip" {
      assert Lower("IP") == "ip";
    } else {
      assert Lower("EMAIL") == "email";
    }
  }

  lemma KindRoundTrip(kind: string)
    requires IsPrefix(kind)
    ensures Lower(Strip(Upper(kind))) == kind && ':' !in Upper(kind) && Upper(kind) != ""
    ensures !IsSpace(Upper(kind)[0])
  {
    hide Upper, Lower, Strip;
    UpperKind(kind);
    LowerKind(kind);
    StripIsStripped(Upper(kind));
  }

  /** An entry in canonical form is classified as what it says it is. */
  lemma CanonicalIsClassified(kind: string, value: string, readAddress: Reader)
    requires IsPrefix(kind) && value != "" && Stripped(value)
    ensures
      var entry := Upper(kind) + ":" + value;
      Strip(entry) == entry && Classify(entry, readAddress) == (kind, value)
  {
    hide Partition, Strip, Lower, Upper;
    var entry := Upper(kind) + ":" + value;
    KindRoundTrip(kind);
    PartitionAtFirst(Upper(kind), value);
    StripIsStripped(entry);
    StripIsStripped(value);
    assert entry[|entry| - 1] == value[|value| - 1] && entry[0] == Upper(kind)[0];
    assert ':' in entry by { assert entry[|Upper(kind)|] == ':'; }
  }

  /** Normalising is idempotent: what it produces it accepts unchanged. */
  lemma NormalizeTwice(entry: string, readAddress: Reader)
    requires NormalizeSan(entry, readAddress).Ok?
    ensures NormalizeSan(NormalizeSan(entry, readAddress).value, readAddress) == NormalizeSan(entry, readAddress)
  {
    hide Classify, Strip, Partition, IsHostname, HasSpace, Upper;
    StripIsStripped(entry);
    ClassifyFacts(Strip(entry), readAddress);
    var (kind, value) := Classify(Strip(entry), readAddress);
    CanonicalIsClassified(kind, value, readAddress);
  }

  // ----- the list ----------------------------------------------------------------------------

  /** The first occurrence of each entry, in order. */
  function Dedup(entries: seq<string>): (r: seq<string>)
    ensures forall e :: e in r <==> e in entries
    ensures forall i, j :: 0 <= i < j < |r| ==> r[i] != r[j]
    ensures entries != [] ==> r != []
    ensures |entries| == 1 ==> r == entries
  {
    if entries == [] then []
    else
      var before, last := Dedup(entries[..|entries| - 1]), entries[|entries| - 1];
      assert entries == entries[..|entries| - 1] + [last];
      if last in before then before else before + [last]
  }

  lemma {:induction false} DedupOfDistinct(entries: seq<string>)
    requires forall i, j :: 0 <= i < j < |entries| ==> entries[i] != entries[j]
    ensures Dedup(entries) == entries
  {
    if entries != [] {
      var init, last := entries[..|entries| - 1], entries[|entries| - 1];
      DedupOfDistinct(init);
      assert last !in init;
      assert init + [last] == entries;
    }
  }

  /** Normalising stops at the first bad entry. */
  function NormalizeAll(entries: seq<string>, readAddress: Reader): Result<seq<string>, Error>
  {
    if entries == [] then Ok([])
    else
      match NormalizeSan(entries[0], readAddress)
      case Err(error) => Err(error)
      case Ok(first) =>
        match NormalizeAll(entries[1..], readAddress)
        case Err(error) => Err(error)
        case Ok(others) => Ok([first] + others)
  }

  function NonBlank(lines: seq<string>): seq<string>
  {
    if lines == [] then [] else (if Strip(lines[0]) == "" then [] else [lines[0]]) + NonBlank(lines[1..])
  }

  function ParseSanLines(lines: seq<string>, readAddress: Reader): Result<seq<string>, Error>
  {
    match NormalizeAll(NonBlank(lines), readAddress)
    case Err(error) => Err(error)
    case Ok(entries) => Ok(Dedup(entries))
  }

  function SanFromCn(cn: string, readAddress: Reader): Option<string>
  {
    if readAddress(cn).Some? then Some("IP:" + cn) else if IsHostname(cn) then Some("DNS:" + cn) else None
  }

  /** Explicit entries win, then the request's, then the common name. */
  function ResolveSans(explicit: seq<string>, csrSans: seq<string>, cn: Option<string>, readAddress: Reader): (r: Result<seq<string>, Error>)
    ensures r.Ok? ==> 0 < |r.value| <= MAX_SANS && forall i, j :: 0 <= i < j < |r.value| ==> r.value[i] != r.value[j]
    ensures r.Ok? && explicit != [] ==> forall e :: e in r.value <==> e in explicit
    ensures r.Ok? && explicit == [] && csrSans != [] ==> forall e :: e in r.value <==> e in csrSans
    ensures r.Ok? && explicit == [] && csrSans == [] ==>
              cn.Some? && r.value == [(if readAddress(cn.value).Some? then "IP:" else "DNS:") + cn.value]
  {
    var chosen := if explicit != [] then explicit else csrSans;
    var fallback := if cn.Some? then SanFromCn(cn.value, readAddress) else None;
    if chosen == [] && fallback.None? then Err(NoUsableSan)
    else
      var resolved := Dedup(if chosen == [] then [fallback.value] else chosen);
      if |resolved| > MAX_SANS then Err(TooManySans) else Ok(resolved)
  }

  function ValidateCn(subject: string): Result<string, Error>
  {
    var cn := Strip(subject);
    if cn == "" then Err(EmptyCn)
    else if |cn| > MAX_CN_LENGTH then Err(LongCn)
    else if exists i :: 0 <= i < |cn| && (cn[i] as int < 32 || cn[i] as int == 127) then Err(ControlCn)
    else Ok(cn)
  }

  // ----- the signer and the preview -----------------------------------------------------------

  datatype Refusal = BadNames(error: Error) | OutsideConstraints(problem: CheckError)

  /** The form's route parses the lines; the signer normalises what it is given
      again, resolves it against the validated common name, and checks the names. */
  function IssueNames(extension: Option<Extension>, subject: string, lines: seq<string>, readAddress: Reader): Result<seq<string>, Refusal>
  {
    match ParseSanLines(lines, readAddress)
    case Err(error) => Err(BadNames(error))
    case Ok(sans) =>
      match ValidateCn(subject)
      case Err(error) => Err(BadNames(error))
      case Ok(cn) =>
        match NormalizeAll(sans, readAddress)
        case Err(error) => Err(BadNames(error))
        case Ok(explicit) =>
          match ResolveSans(explicit, [], Some(cn), readAddress)
          case Err(error) => Err(BadNames(error))
          case Ok(resolved) =>
            match Check(extension, Some(cn), resolved, readAddress)
            case Some(problem) => Err(OutsideConstraints(problem))
            case None => Ok(resolved)
  }

  datatype Mark = Mark(name: string, ok: bool)

  datatype Preview = Preview(names: seq<Mark>, refusal: Option<Refusal>)

  function PreviewCn(subject: string): Option<string>
  {
    if Strip(subject) == "" then None else Some(Strip(subject))
  }

  function PreviewNames(subject: string, lines: seq<string>, readAddress: Reader): Result<seq<string>, Error>
  {
    match ParseSanLines(lines, readAddress)
    case Err(error) => Err(error)
    case Ok(sans) => ResolveSans(sans, [], PreviewCn(subject), readAddress)
  }

  function Marks(extension: Option<Extension>, names: seq<string>, readAddress: Reader): seq<Mark>
  {
    seq(|names|, i requires 0 <= i < |names| => Mark(names[i], Check(extension, None, [names[i]], readAddress).None?))
  }

  function PreviewOf(extension: Option<Extension>, subject: string, lines: seq<string>, readAddress: Reader): Preview
  {
    match PreviewNames(subject, lines, readAddress)
    case Err(error) => Preview([], Some(BadNames(error)))
    case Ok(resolved) =>
      Preview(Marks(extension, resolved, readAddress),
              match Check(extension, PreviewCn(subject), resolved, readAddress)
              case Some(problem) => Some(OutsideConstraints(problem))
              case None => None)
  }

  /** One mark for each name, then one verdict over the whole set. */
  method IssuePreview(extension: Option<Extension>, subject: string, lines: seq<string>, readAddress: Reader) returns (preview: Preview)
    ensures preview == PreviewOf(extension, subject, lines, readAddress)
  {
    hide ParseSanLines, ResolveSans, Check;
    var names: seq<Mark> := [];
    var resolved: seq<string> := [];
    var refusal: Option<Refusal> := None;
    var found := PreviewNames(subject, lines, readAddress);
    match found {
      case Err(error) => refusal := Some(BadNames(error));
      case Ok(value) => resolved := value;
    }
    for k := 0 to |resolved|
      invariant names == Marks(extension, resolved, readAddress)[..k]
    {
      var problem := Check(extension, None, [resolved[k]], readAddress);
      names := names + [Mark(resolved[k], problem.None?)];
    }
    if resolved != [] {
      var problem := Check(extension, PreviewCn(subject), resolved, readAddress);
      if problem.Some? {
        refusal := Some(OutsideConstraints(problem.value));
      }
    }
    return Preview(names, refusal);
  }

  // ----- they agree -------------------------------------------------------------------------------

  predicate Canonical(entries: seq<string>, readAddress: Reader)
  {
    forall i :: 0 <= i < |entries| ==> NormalizeSan(entries[i], readAddress) == Ok(entries[i])
  }

  lemma {:induction false} NormalizedAreCanonical(entries: seq<string>, readAddress: Reader)
    requires NormalizeAll(entries, readAddress).Ok?
    ensures Canonical(NormalizeAll(entries, readAddress).value, readAddress)
  {
    hide NormalizeSan;
    if entries != [] {
      NormalizeTwice(entries[0], readAddress);
      NormalizedAreCanonical(entries[1..], readAddress);
    }
  }

  lemma {:induction false} CanonicalStays(entries: seq<string>, readAddress: Reader)
    requires Canonical(entries, readAddress)
    ensures NormalizeAll(entries, readAddress) == Ok(entries)
  {
    hide NormalizeSan;
    if entries != [] {
      CanonicalStays(entries[1..], readAddress);
      assert [entries[0]] + entries[1..] == entries;
    }
  }

  /** Parsing the form's lines once more changes nothing. */
  lemma ParsedStays(lines: seq<string>, readAddress: Reader)
    requires ParseSanLines(lines, readAddress).Ok?
    ensures NormalizeAll(ParseSanLines(lines, readAddress).value, readAddress) == ParseSanLines(lines, readAddress)
  {
    hide NormalizeSan, NormalizeAll, NonBlank;
    var entries := NormalizeAll(NonBlank(lines), readAddress).value;
    NormalizedAreCanonical(NonBlank(lines), readAddress);
    forall i | 0 <= i < |Dedup(entries)| ensures NormalizeSan(Dedup(entries)[i], readAddress) == Ok(Dedup(entries)[i]) {
      assert Dedup(entries)[i] in entries;
    }
    CanonicalStays(Dedup(entries), readAddress);
  }

  /** For every common name the signer accepts and every text in the SAN box, the
      preview names the list that would be signed, and reports a refusal exactly
      when issuing is refused over these names, for the same reason. */
  lemma PreviewAgreesWithSigner(extension: Option<Extension>, subject: string, lines: seq<string>, readAddress: Reader)
    requires ValidateCn(subject).Ok?
    ensures
      var preview := PreviewOf(extension, subject, lines, readAddress);
      match IssueNames(extension, subject, lines, readAddress)
      case Err(refusal) => preview.refusal == Some(refusal)
      case Ok(resolved) => preview.refusal == None && PreviewNames(subject, lines, readAddress) == Ok(resolved)
  {
    hide ParseSanLines, ResolveSans, Check, NormalizeAll, Strip;
    if ParseSanLines(lines, readAddress).Ok? {
      ParsedStays(lines, readAddress);
    }
  }

  /** The common name is judged as a host name, and refused. */
  predicate CnRuleRefuses(extension: Option<Extension>, cn: Option<string>, sans: seq<string>, readAddress: Reader)
  {
    && extension.Some? && !HasDnsSan(sans) && cn.Some? && IsHostname(cn.value)
    && CheckOne(extension.value, "DNS:" + cn.value, readAddress).Some?
  }

  lemma SingleName(extension: Option<Extension>, san: string, readAddress: Reader)
    ensures Check(extension, None, [san], readAddress).Some?
       <==> extension.Some? && CheckOne(extension.value, san, readAddress).Some?
  {
    hide CheckOne;
    if extension.Some? {
      assert [san][1..] == [];
      assert CheckAll(extension.value, [], readAddress).None?;
    }
  }

  /** The verdict over the whole set: some single name is refused, or the rule about
      the common name refuses. The marks alone do not decide it. */
  lemma VerdictIsSomeMarkOrCnRule(extension: Option<Extension>, cn: Option<string>, sans: seq<string>, readAddress: Reader)
    ensures Check(extension, cn, sans, readAddress).Some?
       <==> || (exists i :: 0 <= i < |sans| && !Marks(extension, sans, readAddress)[i].ok)
            || CnRuleRefuses(extension, cn, sans, readAddress)
  {
    hide CheckOne, CheckAll, HasDnsSan, IsHostname;
    var marks := Marks(extension, sans, readAddress);
    forall i | 0 <= i < |sans| ensures marks[i].ok <==> !(extension.Some? && CheckOne(extension.value, sans[i], readAddress).Some?) {
      SingleName(extension, sans[i], readAddress);
    }
    if extension.Some? {
      var names := NamesToCheck(cn, sans);
      CheckAllIsPointwise(extension.value, names, readAddress);
      assert forall i :: 0 <= i < |sans| ==> names[i] == sans[i];
      assert |names| > |sans| ==> names[|sans|] == "DNS:" + cn.value;
    }
  }
}
