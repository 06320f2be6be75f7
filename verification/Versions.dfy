/** Semantic version triples: parsing, printing and ordering (registry/version.go). */
module Versions {
  import opened Common
  import opened Text

  const MAX_UINT64: nat := 0xFFFF_FFFF_FFFF_FFFF

  datatype Version = Version(major: nat, minor: nat, patch: nat) {
    /** The fields are uint64 in the source. */
    predicate Fits() {
      major <= MAX_UINT64 && minor <= MAX_UINT64 && patch <= MAX_UINT64
    }
  }

  const NO_VERSION := Version(0, 0, 0)

  // ---------------------------------------------------------------- decimal numbers

  predicate IsDigit(c: char) {
    '0' <= c <= '9'
  }

  predicate AllDigits(s: string) {
    forall i :: 0 <= i < |s| ==> IsDigit(s[i])
  }

  function DecimalValue(s: string): nat
    requires AllDigits(s)
  {
    if s == [] then 0 else DecimalValue(s[..|s| - 1]) * 10 + (s[|s| - 1] as int - '0' as int)
  }

  function Decimal(n: nat): (s: string)
    ensures s != [] && AllDigits(s)
  {
    if n < 10 then [n as char + '0'] else Decimal(n / 10) + [(n % 10) as char + '0']
  }

  /** No leading zero, except in "0" itself. */
  predicate Canonical(s: string) {
    s != [] && AllDigits(s) && (|s| > 1 ==> s[0] != '0')
  }

  lemma {:induction false} DecimalRoundTrip(n: nat)
    ensures Canonical(Decimal(n)) && DecimalValue(Decimal(n)) == n
    ensures n > 0 ==> Decimal(n)[0] != '0'
  {
    if n >= 10 {
      DecimalRoundTrip(n / 10);
      var s := Decimal(n);
      assert s[..|s| - 1] == Decimal(n / 10);
    }
  }

  lemma {:induction false} CanonicalIsUnique(s: string)
    requires Canonical(s)
    ensures Decimal(DecimalValue(s)) == s
    ensures s[0] != '0' ==> DecimalValue(s) > 0
  {
    var t, d := s[..|s| - 1], s[|s| - 1] as int - '0' as int;
    assert s == t + [s[|s| - 1]];
    if t != [] {
      assert t[0] == s[0] && Canonical(t);
      CanonicalIsUnique(t);
      assert DecimalValue(s) / 10 == DecimalValue(t) && DecimalValue(s) % 10 == d;
    }
  }

  // ---------------------------------------------------------------- parsing and printing

  /** One dot-separated component: the checks of the loop body in `ParseVersion`. */
  function Component(part: string): Option<nat> {
    if part == "" || (|part| > 1 && part[0] == '0') || !AllDigits(part) then None
    else if DecimalValue(part) > MAX_UINT64 then None
    else Some(DecimalValue(part))
  }

  function StripPrefix(s: string): string {
    if s != "" && (s[0] == 'v' || s[0] == 'V') then s[1..] else s
  }

  /** The number at position `i`: zero where the component is missing. */
  function ComponentAt(parts: seq<string>, i: nat): Option<nat> {
    if i < |parts| then Component(parts[i]) else Some(0)
  }

  function ParseVersion(s: string): Option<Version> {
    var body := StripPrefix(TrimSpace(s));
    var parts := Split(body, '.');
    if TrimSpace(s) == "" || body == "" || |parts| > 3 then None
    else match (ComponentAt(parts, 0), ComponentAt(parts, 1), ComponentAt(parts, 2))
      case (Some(a), Some(b), Some(c)) => Some(Version(a, b, c))
      case _ => None
  }

  /** The checks on one component, with the loop over its characters. */
  method ParseComponent(part: string) returns (num: Option<nat>)
    ensures num == Component(part)
  {
    if part == "" || (|part| > 1 && part[0] == '0') {
      return None;
    }
    for k := 0 to |part|
      invariant forall i :: 0 <= i < k ==> IsDigit(part[i])
    {
      if part[k] < '0' || part[k] > '9' {
        return None;
      }
    }
    if DecimalValue(part) > MAX_UINT64 {
      return None;
    }
    return Some(DecimalValue(part));
  }

  /** The loop of the source, filling `nums` one component at a time. */
  method Parse(s: string) returns (r: Option<Version>)
    ensures r == ParseVersion(s)
  {
    var trimmed := TrimSpace(s);
    if trimmed == "" {
      return None;
    }
    if trimmed[0] == 'v' || trimmed[0] == 'V' {
      trimmed := trimmed[1..];
    }
    if trimmed == "" {
      return None;
    }
    var parts := Split(trimmed, '.');
    if |parts| == 0 || |parts| > 3 {
      return None;
    }
    var nums := new nat[3](_ => 0);
    for i := 0 to |parts|
      invariant forall j :: 0 <= j < i ==> Component(parts[j]) == Some(nums[j])
      invariant forall j :: i <= j < 3 ==> nums[j] == 0
    {
      var num := ParseComponent(parts[i]);
      if num.None? {
        return None;
      }
      nums[i] := num.value;
    }
    return Some(Version(nums[0], nums[1], nums[2]));
  }

  function Print(v: Version): string {
    Join([Decimal(v.major), Decimal(v.minor), Decimal(v.patch)], '.')
  }

  lemma PrintShape(v: Version)
    ensures Print(v) == Decimal(v.major) + "." + Decimal(v.minor) + "." + Decimal(v.patch)
    ensures Split(Print(v), '.') == [Decimal(v.major), Decimal(v.minor), Decimal(v.patch)]
    ensures StripPrefix(TrimSpace(Print(v))) == Print(v) != ""
  {
    var parts := [Decimal(v.major), Decimal(v.minor), Decimal(v.patch)];
    assert Join(parts[1..], '.') == parts[1] + "." + parts[2];
    SplitOfJoin(parts, '.');
    var s := Print(v);
    assert IsDigit(s[0]) && IsDigit(s[|s| - 1]);
    TrimSpaceId(s);
  }

  /** Parsing a printed version returns it, for every uint64 triple. */
  lemma ParseOfPrint(v: Version)
    requires v.Fits()
    ensures ParseVersion(Print(v)) == Some(v)
  {
    PrintShape(v);
    DecimalRoundTrip(v.major);
    DecimalRoundTrip(v.minor);
    DecimalRoundTrip(v.patch);
  }

  /**
   * Printing what was parsed gives a string that parses to the same version, and
   * it is the input itself (without blanks and prefix) when that had three components.
   */
  lemma PrintOfParse(s: string)
    requires ParseVersion(s).Some?
    ensures ParseVersion(s).value.Fits()
    ensures ParseVersion(Print(ParseVersion(s).value)) == ParseVersion(s)
    ensures var body := StripPrefix(TrimSpace(s));
            |Split(body, '.')| == 3 <==> Print(ParseVersion(s).value) == body
  {
    var v := ParseVersion(s).value;
    var body := StripPrefix(TrimSpace(s));
    var parts := Split(body, '.');
    ParseOfPrint(v);
    PrintShape(v);
    JoinOfSplit(body, '.');
    if |parts| == 3 {
      CanonicalIsUnique(parts[0]);
      CanonicalIsUnique(parts[1]);
      CanonicalIsUnique(parts[2]);
      assert parts == [Decimal(v.major), Decimal(v.minor), Decimal(v.patch)];
    }
  }

  lemma DecimalHasNoDot(n: nat)
    ensures '.' !in Decimal(n) && Canonical(Decimal(n)) && DecimalValue(Decimal(n)) == n
    ensures IsDigit(Decimal(n)[0]) && IsDigit(Decimal(n)[|Decimal(n)| - 1])
  {
    DecimalRoundTrip(n);
  }

  /** A text of one to three numbers, as a version prints without its last zero components. */
  ghost predicate Spells(body: string, v: Version) {
    || body == Decimal(v.major) + "." + Decimal(v.minor) + "." + Decimal(v.patch)
    || (v.patch == 0 && body == Decimal(v.major) + "." + Decimal(v.minor))
    || (v.patch == 0 && v.minor == 0 && body == Decimal(v.major))
  }

  lemma ComponentMeans(part: string, n: nat)
    ensures Component(part) == Some(n) <==> part == Decimal(n) && n <= MAX_UINT64
  {
    DecimalRoundTrip(n);
    if Component(part).Some? {
      CanonicalIsUnique(part);
    }
  }

  lemma SplitMeans(body: string, parts: seq<string>)
    requires |parts| >= 1 && forall i :: 0 <= i < |parts| ==> '.' !in parts[i]
    ensures Split(body, '.') == parts <==> body == Join(parts, '.')
  {
    SplitOfJoin(parts, '.');
    JoinOfSplit(body, '.');
  }

  /** The components of a text with one, two or three of them; missing ones are zero. */
  lemma PartsMean(body: string, v: Version)
    ensures var parts := Split(body, '.');
            && (|parts| == 3 && parts[0] == Decimal(v.major) && parts[1] == Decimal(v.minor) && parts[2] == Decimal(v.patch) <==>
                body == Decimal(v.major) + "." + Decimal(v.minor) + "." + Decimal(v.patch))
            && (|parts| == 2 && parts[0] == Decimal(v.major) && parts[1] == Decimal(v.minor) <==>
                body == Decimal(v.major) + "." + Decimal(v.minor))
            && (|parts| == 1 && parts[0] == Decimal(v.major) <==> body == Decimal(v.major))
  {
    DecimalHasNoDot(v.major);
    DecimalHasNoDot(v.minor);
    DecimalHasNoDot(v.patch);
    var one, two, three := [Decimal(v.major)], [Decimal(v.major), Decimal(v.minor)], [Decimal(v.major), Decimal(v.minor), Decimal(v.patch)];
    SplitMeans(body, one);
    SplitMeans(body, two);
    SplitMeans(body, three);
    assert two[1..] == [Decimal(v.minor)] && three[1..] == [Decimal(v.minor), Decimal(v.patch)] && three[1..][1..] == [Decimal(v.patch)];
    assert Join(two, '.') == Decimal(v.major) + "." + Decimal(v.minor);
    assert Join(three[1..], '.') == Decimal(v.minor) + "." + Decimal(v.patch);
    assert Join(three, '.') == Decimal(v.major) + "." + Decimal(v.minor) + "." + Decimal(v.patch);
  }

  /** What a text parses to, exactly: its numbers after blanks and prefix, zero for those missing, all within uint64. */
  lemma ParseIff(s: string, v: Version)
    ensures ParseVersion(s) == Some(v) <==> v.Fits() && Spells(StripPrefix(TrimSpace(s)), v)
  {
    var body := StripPrefix(TrimSpace(s));
    var parts := Split(body, '.');
    PartsMean(body, v);
    ComponentMeans(parts[0], v.major);
    if |parts| > 1 {
      ComponentMeans(parts[1], v.minor);
    }
    if |parts| > 2 {
      ComponentMeans(parts[2], v.patch);
    }
    if body == "" {
      assert parts == [""];
    }
  }

  /** Surrounding blanks and one leading v or V do not change what a text parses to. */
  lemma ParseIgnoresDecoration(l: string, prefix: string, body: string, r: string)
    requires AllBlank(l) && AllBlank(r) && (prefix == "" || prefix == "v" || prefix == "V")
    requires body != "" && IsTrimmed(body) && body[0] != 'v' && body[0] != 'V'
    ensures ParseVersion(l + prefix + body + r) == ParseVersion(body)
  {
    var text := prefix + body;
    assert l + prefix + body + r == l + text + r;
    assert IsTrimmed(text) by {
      assert text[|text| - 1] == body[|body| - 1];
    }
    TrimSpaceMeans(l, text, r);
    TrimSpaceId(body);
    assert StripPrefix(text) == body;
  }

  // ---------------------------------------------------------------- ordering

  function Compare(v: Version, w: Version): int {
    if v.major != w.major then (if v.major < w.major then -1 else 1)
    else if v.minor != w.minor then (if v.minor < w.minor then -1 else 1)
    else if v.patch != w.patch then (if v.patch < w.patch then -1 else 1)
    else 0
  }

  predicate Newer(v: Version, w: Version) {
    Compare(v, w) > 0
  }

  /** On uint64 triples the order is that of the 192-bit number major:minor:patch. */
  ghost function Rank(v: Version): nat {
    (v.major * (MAX_UINT64 + 1) + v.minor) * (MAX_UINT64 + 1) + v.patch
  }

  lemma CompareIsNumericOrder(v: Version, w: Version)
    requires v.Fits() && w.Fits()
    ensures Compare(v, w) < 0 <==> Rank(v) < Rank(w)
    ensures Compare(v, w) == 0 <==> v == w
    ensures Compare(v, w) == -Compare(w, v)
    ensures Compare(v, w) in {-1, 0, 1}
  {
  }

  lemma NewerTransitive(u: Version, v: Version, w: Version)
    requires Newer(u, v) && Newer(v, w)
    ensures Newer(u, w) && u != w
  {
  }
}
