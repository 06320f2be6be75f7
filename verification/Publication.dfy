/**
 * What a publication must look like, in terms of the library calls and the raw fields alone
 * (registry/validator.go:57-202, registry/record.go:84-110 and 279-299). `chain` holds the
 * published records, newest first.
 */
module Publication {
  import opened Common
  import opened Text
  import opened Versions
  import opened Records
  import Hex

  /** The hexadecimal text of the SHA-256 digest. */
  ghost function Fingerprint(lib: Library, data: Bytes): string {
    Hex.Encode(lib.digest(data))
  }

  ghost predicate WellFormed(lp: LatestPointer) {
    lp.tag == "latest-pointer" && IsValidDomain(lp.domain) && IsValidPackageName(lp.package) &&
    ParseVersion(lp.version).Some? && |lp.recordHash| == 64
  }

  ghost predicate WellFormedRecord(vr: VersionRecord) {
    vr.tag == "version-record" && IsValidDomain(vr.domain) && IsValidPackageName(vr.package) &&
    ParseVersion(vr.version).Some? && |vr.blobHash| == 64 && (vr.previous == "" || |vr.previous| == 64)
  }

  /** The record as it is signed: an absent predecessor is written as the zero hash. */
  ghost function AsSigned(vr: VersionRecord): VersionRecord {
    if vr.previous == "" then vr.(previous := ZERO_HASH) else vr
  }

  /** The bytes are a record of the pointer's package, signed by the key. */
  ghost predicate IsRecordOf(lib: Library, key: PublicKey, lp: LatestPointer, data: Bytes) {
    && data != "" && lib.unmarshalRecord(data).Some?
    && var vr := lib.unmarshalRecord(data).value;
    && WellFormedRecord(vr) && vr.domain == lp.domain && vr.package == lp.package
    && vr.signature != "" && lib.recordSignedBy(key, AsSigned(vr))
  }

  /** The record names `hash` as its predecessor; no name at all stands for the zero hash. */
  ghost predicate RefersTo(lib: Library, data: Bytes, hash: string) {
    && lib.unmarshalRecord(data).Some?
    && var prev := ToLower(TrimSpace(lib.unmarshalRecord(data).value.previous));
    if prev == "" then hash == ZERO_HASH else hash == prev
  }

  ghost function VersionIn(lib: Library, data: Bytes): Version {
    if lib.unmarshalRecord(data).Some? && ParseVersion(lib.unmarshalRecord(data).value.version).Some?
    then ParseVersion(lib.unmarshalRecord(data).value.version).value
    else NO_VERSION
  }

  /** Where the chain must end: at the record of the stored pointer, or before the first record. */
  ghost function EndOf(existing: Option<LatestPointer>): string {
    if existing.Some? then ToLower(TrimSpace(existing.value.recordHash)) else ZERO_HASH
  }

  /** Record `i` is in order, and refers to the next record or to the end. */
  ghost predicate IsLink(lib: Library, key: PublicKey, lp: LatestPointer, end: string, chain: seq<Bytes>, i: nat)
    requires i < |chain|
  {
    && IsRecordOf(lib, key, lp, chain[i])
    && Fingerprint(lib, chain[i]) != ZERO_HASH && Fingerprint(lib, chain[i]) != end
    && RefersTo(lib, chain[i], if i + 1 < |chain| then Fingerprint(lib, chain[i + 1]) else end)
    && (i + 1 < |chain| ==> Newer(VersionIn(lib, chain[i]), VersionIn(lib, chain[i + 1])))
  }

  /** The records a pointer publishes on top of what is stored. */
  ghost predicate IsPublished(lib: Library, key: PublicKey, lp: LatestPointer, existing: Option<LatestPointer>,
                              depth: nat, chain: seq<Bytes>)
  {
    && 1 <= |chain| <= depth
    && Fingerprint(lib, chain[0]) == ToLower(TrimSpace(lp.recordHash))
    && lib.unmarshalRecord(chain[0]).Some? && lib.unmarshalRecord(chain[0]).value.version == lp.version
    && (forall i :: 0 <= i < |chain| ==> IsLink(lib, key, lp, EndOf(existing), chain, i))
    && (existing.Some? && ParseVersion(existing.value.version).Some? ==>
          Newer(VersionIn(lib, chain[|chain| - 1]), ParseVersion(existing.value.version).value))
  }

  /** The pointer itself is well formed, signed by the key, and newer than a stored one of the same package. */
  ghost predicate MayReplace(lib: Library, key: PublicKey, lp: LatestPointer, existing: Option<LatestPointer>) {
    && WellFormed(lp) && ToLower(TrimSpace(lp.recordHash)) != ZERO_HASH
    && lp.signature != "" && lib.pointerSignedBy(key, lp)
    && (existing.Some? ==>
          && var was := existing.value;
          && WellFormed(was) && ToLower(TrimSpace(was.recordHash)) != ZERO_HASH
          && was.domain == lp.domain && was.package == lp.package
          && Newer(ParseVersion(lp.version).value, ParseVersion(was.version).value)
          && ToLower(lp.recordHash) != ToLower(was.recordHash))
  }

  ghost predicate Supplied(lib: Library, getter: string -> Option<Bytes>, chain: seq<Bytes>) {
    forall i :: 0 <= i < |chain| ==> getter(Fingerprint(lib, chain[i])) == Some(chain[i])
  }

  // ---------------------------------------------------------------- how the reader reads single records

  lemma ZeroIsPlain()
    ensures ToLower(TrimSpace(ZERO_HASH)) == ZERO_HASH && ToLower(TrimSpace("")) == ""
  {
    TrimSpaceId(ZERO_HASH);
    assert ToLower(ZERO_HASH) == ZERO_HASH;
  }

  /** The reader reads the bytes as the library decodes them. */
  ghost predicate ReadsAs(rd: Reader, lib: Library, data: Bytes) {
    var e := rd.record(data);
    && rd.hash(data) == Fingerprint(lib, data)
    && (e.Some? <==> lib.unmarshalRecord(data).Some? && WellFormedRecord(lib.unmarshalRecord(data).value))
    && (e.Some? ==>
          && e.value.record == AsSigned(lib.unmarshalRecord(data).value)
          && e.value.version == VersionIn(lib, data)
          && RefersTo(lib, data, e.value.previous)
          && forall key :: rd.recordSignedBy(key, e.value.record) <==>
                           lib.unmarshalRecord(data).value.signature != "" && lib.recordSignedBy(key, e.value.record))
  }

  ghost predicate Reads(rd: Reader, lib: Library) {
    forall data :: ReadsAs(rd, lib, data)
  }

  lemma ReaderReads(lib: Library)
    ensures Reads(ReaderOf(lib), lib)
  {
    forall data ensures ReadsAs(ReaderOf(lib), lib, data) {
      ReaderReadsAs(lib, data);
    }
  }

  lemma ReaderReadsAs(lib: Library, data: Bytes)
    ensures ReadsAs(ReaderOf(lib), lib, data)
  {
    ZeroIsPlain();
  }

  /** The head is what the validator knows of the raw pointer. */
  ghost predicate ReadsHead(h: Head, lp: LatestPointer) {
    && ParseVersion(lp.version).Some? && h.pointer == lp && h.version == ParseVersion(lp.version).value
    && h.start == ToLower(TrimSpace(lp.recordHash)) && h.folded == ToLower(lp.recordHash)
  }

  lemma HeadMeans(lib: Library, lp: LatestPointer)
    ensures HeadOf(lib, lp).Some? <==> WellFormed(lp)
    ensures WellFormed(lp) ==> ReadsHead(HeadOf(lib, lp).value, lp)
  {
  }
}
