/**
 * Version records, latest pointers and the key of a package's pointer
 * (registry/record.go, registry/keymanager.go:23-29, registry/dns.go:27-29).
 */
module Records {
  import opened Common
  import opened Text
  import opened Versions
  import opened KademliaIds
  import Hex

  const RECORD_TAG := "version-record"
  const LATEST_TAG := "latest-pointer"
  const ZERO_HASH := Zeros()

  function Zeros(): (h: string)
    ensures |h| == 64 && forall i :: 0 <= i < 64 ==> h[i] == '0'
  {
    seq(64, _ => '0')
  }

  type PublicKey = seq<Byte>

  datatype VersionRecord = VersionRecord(
    tag: string, domain: string, package: string, version: string,
    blobHash: string, previous: string, signature: string)

  datatype LatestPointer = LatestPointer(
    tag: string, domain: string, package: string, version: string,
    recordHash: string, signature: string)

  /**
   * The library calls the registry relies on, as parameters: SHA-256, JSON decoding of
   * the two record types, and the Ed25519 check of a record's signature by a key.
   */
  datatype Library = Library(
    digest: Bytes -> KademliaId,
    unmarshalRecord: Bytes -> Option<VersionRecord>,
    unmarshalPointer: Bytes -> Option<LatestPointer>,
    recordSignedBy: (PublicKey, VersionRecord) -> bool,
    pointerSignedBy: (PublicKey, LatestPointer) -> bool)
  {
    /** Decoding one text as a record and as a pointer reads the same tag field. */
    ghost predicate ReadsOneTag() {
      forall b :: unmarshalRecord(b).Some? && unmarshalPointer(b).Some? ==> unmarshalRecord(b).value.tag == unmarshalPointer(b).value.tag
    }
  }

  // ---------------------------------------------------------------- names

  predicate IsAlnum(c: char) {
    'a' <= c <= 'z' || 'A' <= c <= 'Z' || '0' <= c <= '9'
  }

  /** One domain label: 1..63 letters, digits and inner hyphens. */
  predicate IsLabel(s: string) {
    1 <= |s| <= 63 && IsAlnum(s[0]) && IsAlnum(s[|s| - 1]) &&
    forall i :: 0 <= i < |s| ==> IsAlnum(s[i]) || s[i] == '-'
  }

  function NormalizeDomain(domain: string): string {
    DropTrailing(ToLower(TrimSpace(domain)), '.')
  }

  predicate AllLabels(labels: seq<string>) {
    forall i :: 0 <= i < |labels| ==> IsLabel(labels[i])
  }

  predicate IsValidDomain(domain: string) {
    var norm := NormalizeDomain(domain);
    norm != "" && |norm| <= 253 && AllLabels(Split(norm, '.'))
  }

  /** Letters, digits and inner dots, underscores and hyphens. */
  predicate IsPackageText(pkg: string) {
    1 <= |pkg| <= 128 && IsAlnum(pkg[0]) && IsAlnum(pkg[|pkg| - 1]) &&
    forall i :: 0 <= i < |pkg| ==> IsAlnum(pkg[i]) || pkg[i] == '.' || pkg[i] == '_' || pkg[i] == '-'
  }

  predicate IsValidPackageName(name: string) {
    IsPackageText(TrimSpace(name)) && !Contains(TrimSpace(name), "..")
  }

  // ---------------------------------------------------------------- well-formedness

  predicate PointerValid(lp: LatestPointer) {
    lp.tag == LATEST_TAG && IsValidDomain(lp.domain) && IsValidPackageName(lp.package) &&
    ParseVersion(lp.version).Some? && |lp.recordHash| == 64
  }

  predicate RecordValid(vr: VersionRecord) {
    vr.tag == RECORD_TAG && IsValidDomain(vr.domain) && IsValidPackageName(vr.package) &&
    ParseVersion(vr.version).Some? && |vr.blobHash| == 64 &&
    (vr.previous == "" || |vr.previous| == 64)
  }

  /** `VersionRecord.Validate` fills in an absent predecessor. */
  function FillPrevious(vr: VersionRecord): VersionRecord {
    if vr.previous == "" then vr.(previous := ZERO_HASH) else vr
  }

  function ParseRecord(lib: Library, data: Bytes): (r: Option<VersionRecord>)
    ensures r.Some? <==> lib.unmarshalRecord(data).Some? && RecordValid(lib.unmarshalRecord(data).value)
    ensures r.Some? ==> RecordValid(r.value) && |r.value.previous| == 64
    ensures r.Some? ==> r.value.(previous := "") == lib.unmarshalRecord(data).value.(previous := "")
  {
    match lib.unmarshalRecord(data)
    case Some(vr) => if RecordValid(vr) then Some(FillPrevious(vr)) else None
    case None => None
  }

  function ParsePointer(lib: Library, data: Bytes): (r: Option<LatestPointer>)
    ensures r.Some? <==> lib.unmarshalPointer(data).Some? && PointerValid(lib.unmarshalPointer(data).value)
    ensures r.Some? ==> r == lib.unmarshalPointer(data)
  {
    match lib.unmarshalPointer(data)
    case Some(lp) => if PointerValid(lp) then Some(lp) else None
    case None => None
  }

  predicate PointerVerified(lib: Library, key: PublicKey, lp: LatestPointer) {
    lp.signature != "" && lib.pointerSignedBy(key, lp)
  }

  predicate RecordVerified(lib: Library, key: PublicKey, vr: VersionRecord) {
    vr.signature != "" && lib.recordSignedBy(key, vr)
  }

  /** The normal form in which record hashes are compared. */
  function NormHash(hash: string): string {
    ToLower(TrimSpace(hash))
  }

  /** Comparing with the zero hash ignoring case is comparing normal forms. */
  lemma FoldsToZero(hash: string)
    ensures EqualFold(TrimSpace(hash), ZERO_HASH) <==> NormHash(hash) == ZERO_HASH
  {
    assert ToLower(ZERO_HASH) == ZERO_HASH;
  }

  /** Where a record's predecessor is looked up. */
  function Predecessor(vr: VersionRecord): string {
    var prev := NormHash(vr.previous);
    if prev == "" then ZERO_HASH else prev
  }

  // ---------------------------------------------------------------- pointer keys

  function PointerKeyString(domain: string, package: string): string {
    NormalizeDomain(domain) + ":" + TrimSpace(package) + ":latest"
  }

  function PointerKey(lib: Library, lp: LatestPointer): KademliaId {
    lib.digest(PointerKeyString(lp.domain, lp.package))
  }

  lemma ValidDomainHasNoColon(domain: string)
    requires IsValidDomain(domain)
    ensures ':' !in NormalizeDomain(domain)
  {
    var norm := NormalizeDomain(domain);
    if ':' in norm {
      var i := SplitCovers(norm, '.', ':');
      assert false;
    }
  }

  lemma {:induction false} ColonSplitsUniquely(a: string, b: string, x: string, y: string)
    requires ':' !in a && ':' !in b
    requires a + ":" + x == b + ":" + y
    ensures a == b && x == y
  {
    var s, t := a + ":" + x, b + ":" + y;
    if a == [] || b == [] {
      assert s[0] == t[0];
      assert a == [] && b == [];
      assert s[1..] == x && t[1..] == y;
    } else {
      assert s[0] == a[0] && t[0] == b[0];
      assert s[1..] == a[1..] + ":" + x && t[1..] == b[1..] + ":" + y;
      ColonSplitsUniquely(a[1..], b[1..], x, y);
      assert a == [a[0]] + a[1..] && b == [b[0]] + b[1..];
    }
  }

  /** Valid names share a key string only when they name the same package. */
  lemma KeyStringInjective(d1: string, p1: string, d2: string, p2: string)
    requires IsValidDomain(d1) && IsValidDomain(d2)
    ensures PointerKeyString(d1, p1) == PointerKeyString(d2, p2) <==>
            NormalizeDomain(d1) == NormalizeDomain(d2) && TrimSpace(p1) == TrimSpace(p2)
  {
    var a, b := NormalizeDomain(d1), NormalizeDomain(d2);
    var x, y := TrimSpace(p1) + ":latest", TrimSpace(p2) + ":latest";
    assert PointerKeyString(d1, p1) == a + ":" + x && PointerKeyString(d2, p2) == b + ":" + y;
    if PointerKeyString(d1, p1) == PointerKeyString(d2, p2) {
      ValidDomainHasNoColon(d1);
      ValidDomainHasNoColon(d2);
      ColonSplitsUniquely(a, b, x, y);
      assert x[..|x| - 7] == TrimSpace(p1) && y[..|y| - 7] == TrimSpace(p2);
    }
  }

  /** The key text: the domain in lower case and the package, whatever blanks and trailing dots are written around them. */
  lemma KeyTextOf(l: string, domain: string, dots: string, r: string, l2: string, package: string, r2: string)
    requires AllBlank(l) && AllBlank(r) && AllBlank(l2) && AllBlank(r2) && IsTrimmed(package)
    requires domain != "" && IsTrimmed(domain) && domain[|domain| - 1] != '.' && forall i :: 0 <= i < |dots| ==> dots[i] == '.'
    ensures PointerKeyString(l + domain + dots + r, l2 + package + r2) == ToLower(domain) + ":" + package + ":latest"
  {
    var text := domain + dots;
    assert l + domain + dots + r == l + text + r;
    TrimSpaceMeans(l, text, r);
    TrimSpaceMeans(l2, package, r2);
    assert ToLower(text) == ToLower(domain) + dots;
    DropTrailingMeans(ToLower(domain), '.', dots);
  }

  /** Domains that differ only in case have the same key. */
  lemma KeyIgnoresCase(domain: string, package: string)
    ensures PointerKeyString(ToLower(domain), package) == PointerKeyString(domain, package)
  {
    LowerTrims(domain);
    assert ToLower(ToLower(TrimSpace(domain))) == ToLower(TrimSpace(domain));
  }

  lemma LowerTrims(s: string)
    ensures TrimSpace(ToLower(s)) == ToLower(TrimSpace(s))
  {
    LowerTrimsLeft(s);
    LowerTrimsRight(TrimLeft(s));
  }

  lemma {:induction false} LowerTrimsLeft(s: string)
    ensures TrimLeft(ToLower(s)) == ToLower(TrimLeft(s))
  {
    if s != [] && IsSpace(s[0]) {
      assert ToLower(s)[1..] == ToLower(s[1..]);
      LowerTrimsLeft(s[1..]);
    }
  }

  lemma {:induction false} LowerTrimsRight(s: string)
    ensures TrimRight(ToLower(s)) == ToLower(TrimRight(s))
  {
    if s != [] && IsSpace(s[|s| - 1]) {
      assert ToLower(s)[..|s| - 1] == ToLower(s[..|s| - 1]);
      LowerTrimsRight(s[..|s| - 1]);
    }
  }

  // ---------------------------------------------------------------- reading stored bytes

  /** A decoded version record with its parsed version and the hash of its predecessor. */
  datatype Entry = Entry(record: VersionRecord, version: Version, previous: string)

  /** A well-formed pointer with its parsed version, the hash it refers to and its key. */
  datatype Head = Head(pointer: LatestPointer, version: Version, start: string, folded: string, key: KademliaId)

  function EntryOf(vr: VersionRecord): Entry
    requires RecordValid(vr)
  {
    Entry(vr, ParseVersion(vr.version).value, Predecessor(vr))
  }

  function HeadOf(lib: Library, lp: LatestPointer): Option<Head> {
    if !PointerValid(lp) then None
    else Some(Head(lp, ParseVersion(lp.version).value, NormHash(lp.recordHash), ToLower(lp.recordHash), PointerKey(lib, lp)))
  }

  /**
   * How the validator and the store read byte strings. The chain and store proofs hold
   * for every sound reader; `ReaderOf` is the one the source uses.
   */
  datatype Reader = Reader(
    digest: Bytes -> KademliaId,
    hash: Bytes -> string,
    locate: string -> Option<KademliaId>,
    record: Bytes -> Option<Entry>,
    pointer: Bytes -> Option<Head>,
    recordSignedBy: (PublicKey, VersionRecord) -> bool,
    pointerSignedBy: (PublicKey, LatestPointer) -> bool)
  {
    /** The text of a digest is not empty and leads back to it; equal version texts mean equal versions. */
    ghost predicate Sound() {
      (forall b :: locate(hash(b)) == Some(digest(b)) && hash(b) != "") &&
      (forall b, p :: record(b).Some? && pointer(p).Some? && record(b).value.record.version == pointer(p).value.pointer.version
                      ==> record(b).value.version == pointer(p).value.version)
    }
  }

  /** Texts of equal digests are equal, and no byte string is both a record and a pointer. */
  ghost predicate Separates(rd: Reader) {
    (forall a, b :: rd.digest(a) == rd.digest(b) ==> rd.hash(a) == rd.hash(b)) &&
    (forall b :: rd.record(b).None? || rd.pointer(b).None?)
  }

  function ReadRecord(lib: Library, data: Bytes): Option<Entry> {
    match ParseRecord(lib, data)
    case Some(vr) => Some(EntryOf(vr))
    case None => None
  }

  function ReadPointer(lib: Library, data: Bytes): Option<Head> {
    match ParsePointer(lib, data)
    case Some(lp) => HeadOf(lib, lp)
    case None => None
  }

  function ReaderOf(lib: Library): Reader {
    Reader(lib.digest,
           (b: Bytes) => Hex.Encode(lib.digest(b)),
           (h: string) => Hex.Decode(h),
           (b: Bytes) => ReadRecord(lib, b),
           (b: Bytes) => ReadPointer(lib, b),
           (k: PublicKey, vr: VersionRecord) => RecordVerified(lib, k, vr),
           (k: PublicKey, lp: LatestPointer) => PointerVerified(lib, k, lp))
  }

  lemma ReaderOfIsSound(lib: Library)
    ensures ReaderOf(lib).Sound()
  {
    forall b ensures ReaderOf(lib).locate(ReaderOf(lib).hash(b)) == Some(lib.digest(b)) && ReaderOf(lib).hash(b) != "" {
      Hex.DecodeOfEncode(lib.digest(b));
    }
  }

  lemma ReaderOfSeparates(lib: Library)
    requires lib.ReadsOneTag()
    ensures Separates(ReaderOf(lib))
  {
    forall b ensures ReaderOf(lib).record(b).None? || ReaderOf(lib).pointer(b).None? {
      assert RECORD_TAG != LATEST_TAG;
    }
  }
}
