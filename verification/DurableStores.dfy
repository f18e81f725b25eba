/** The credential service's durable stores (cico-service/src/durable-stores.ts). Every update is one atomic
    step; digests are symbolic. */
module DurableStores {
  import opened Wrappers
  import JsText

  newtype Byte = x: int | 0 <= x < 256

  /** The issuer's complete request material (`requestFingerprint`); the claims by their JSON text. */
  datatype Material = Material(provider: string, evidenceAuthorization: string, holderBinding: seq<Byte>, claims: string)

  datatype Digest =
    | EvidenceDigest(authorization: string)
    | EnrollmentDigest(enrollment: string)
    | MaterialDigest(material: Material)
    | IssuanceDigest(material: Material)

  // -------------------------------------------------- evidence authorizations

  datatype Grant = Grant(enrollmentKey: Digest, materialKey: Option<Digest>)

  type Authorizations = map<Digest, Grant>

  datatype ClaimAnswer = Thrown | Answered(granted: bool)

  /** Whether a record, if there is one, leaves the authorization to this enrollment and material. */
  predicate Claimable(records: Authorizations, authorization: string, enrollment: string, material: Option<Material>)
  {
    var key := EvidenceDigest(authorization);
    key in records ==>
      && records[key].enrollmentKey == EnrollmentDigest(enrollment)
      && (records[key].materialKey.Some? && material.Some? ==> records[key].materialKey.value == MaterialDigest(material.value))
  }

  /** The records after a granted claim: known material is never forgotten. */
  function Granted(records: Authorizations, authorization: string, enrollment: string, material: Option<Material>): (r: Authorizations)
  {
    var key := EvidenceDigest(authorization);
    var known := if key in records then records[key].materialKey else None;
    records[key := Grant(EnrollmentDigest(enrollment),
                         if material.Some? then Some(MaterialDigest(material.value)) else known)]
  }

  function ClaimOutcome(records: Authorizations, authorization: string, enrollment: string, material: Option<Material>)
    : (ClaimAnswer, Authorizations)
  {
    if authorization == "" || enrollment == "" then (Thrown, records)
    else if Claimable(records, authorization, enrollment, material)
    then (Answered(true), Granted(records, authorization, enrollment, material))
    else (Answered(false), records)
  }

  /** A claim is granted exactly for an unclaimed authorization, or one of the same enrollment whose known material,
      if both are known, is the same; it then records the enrollment and all material known, and nothing else
      changes. Empty names are refused outright. */
  lemma ClaimDecides(records: Authorizations, authorization: string, enrollment: string, material: Option<Material>)
    ensures var (answer, after) := ClaimOutcome(records, authorization, enrollment, material); var key := EvidenceDigest(authorization);
            var known := if key in records then records[key].materialKey else None;
            && (answer.Thrown? <==> authorization == "" || enrollment == "")
            && (answer == Answered(true) <==>
                && authorization != "" && enrollment != ""
                && (key !in records || (records[key].enrollmentKey == EnrollmentDigest(enrollment)
                                        && (known.None? || material.None? || known == Some(MaterialDigest(material.value))))))
            && (answer != Answered(true) ==> after == records)
            && (answer == Answered(true) ==>
                && after.Keys == records.Keys + {key} && (forall k | k in records && k != key :: after[k] == records[k])
                && after[key].enrollmentKey == EnrollmentDigest(enrollment)
                && after[key].materialKey == (if known.Some? then known else if material.Some? then Some(MaterialDigest(material.value)) else None))
  {
  }

  class FileEvidenceAuthorizationStore {
    var authorizations: Authorizations

    constructor ()
      ensures authorizations == map[]
    {
      authorizations := map[];
    }

    method Claim(evidenceAuthorization: string, enrollmentId: string, issuanceMaterial: Option<Material>) returns (answer: ClaimAnswer)
      modifies this
      ensures (answer, authorizations) == ClaimOutcome(old(authorizations), evidenceAuthorization, enrollmentId, issuanceMaterial)
    {
      if evidenceAuthorization == "" || enrollmentId == "" {
        return Thrown;
      }
      var key := EvidenceDigest(evidenceAuthorization);
      var materialKey := if issuanceMaterial.Some? then Some(MaterialDigest(issuanceMaterial.value)) else None;
      if key !in authorizations {
        authorizations := authorizations[key := Grant(EnrollmentDigest(enrollmentId), materialKey)];
        return Answered(true);
      }
      var existing := authorizations[key];
      if existing.enrollmentKey != EnrollmentDigest(enrollmentId) {
        return Answered(false);
      }
      if existing.materialKey.Some? && materialKey.Some? && existing.materialKey != materialKey {
        return Answered(false);
      }
      if existing.materialKey.None? && materialKey.Some? {
        authorizations := authorizations[key := existing.(materialKey := materialKey)];
      }
      assert authorizations == Granted(old(authorizations), evidenceAuthorization, enrollmentId, issuanceMaterial);
      return Answered(true);
    }
  }

  type ClaimCall = (string, string, Option<Material>)

  function AfterClaims(records: Authorizations, calls: seq<ClaimCall>): Authorizations
    decreases |calls|
  {
    if calls == [] then records
    else AfterClaims(ClaimOutcome(records, calls[0].0, calls[0].1, calls[0].2).1, calls[1..])
  }

  lemma {:induction false} ClaimsStay(records: Authorizations, calls: seq<ClaimCall>, key: Digest)
    requires key in records
    ensures var after := AfterClaims(records, calls);
            && key in after && after[key].enrollmentKey == records[key].enrollmentKey
            && (records[key].materialKey.Some? ==> after[key].materialKey == records[key].materialKey)
    decreases |calls|
  {
    if calls != [] {
      ClaimsStay(ClaimOutcome(records, calls[0].0, calls[0].1, calls[0].2).1, calls[1..], key);
    }
  }

  /** An authorization, once granted, is granted again after any further claims exactly to the same enrollment
      with the same material. */
  lemma ClaimIsExclusive(records: Authorizations, authorization: string, e: string, m: Material, calls: seq<ClaimCall>,
                         e': string, m': Material)
    requires ClaimOutcome(records, authorization, e, Some(m)).0 == Answered(true) && e' != ""
    ensures var later := AfterClaims(ClaimOutcome(records, authorization, e, Some(m)).1, calls);
            ClaimOutcome(later, authorization, e', Some(m')).0 == Answered(e' == e && m' == m)
  {
    ClaimsStay(ClaimOutcome(records, authorization, e, Some(m)).1, calls, EvidenceDigest(authorization));
  }

  // ---------------------------------------------------------------- hex codec

  function HexChar(d: int): char
    requires 0 <= d < 16
  {
    if d < 10 then (48 + d) as char else (87 + d) as char
  }

  /** `Number.parseInt` of one hexadecimal digit in either case; other characters do not occur. */
  function HexValue(c: char): (d: int)
    ensures 0 <= d < 16
  {
    if '0' <= c <= '9' then c as int - 48
    else if 'a' <= c <= 'f' then c as int - 87
    else if 'A' <= c <= 'F' then c as int - 55
    else 0
  }

  predicate LowerHex(s: string) { forall i | 0 <= i < |s| :: '0' <= s[i] <= '9' || 'a' <= s[i] <= 'f' }

  function ByteToHex(b: Byte): (s: string)
    ensures |s| == 2 && LowerHex(s)
  {
    [HexChar(b as int / 16), HexChar(b as int % 16)]
  }

  function ByteFromHex(high: char, low: char): Byte { (HexValue(high) * 16 + HexValue(low)) as Byte }

  function BytesToHex(bytes: seq<Byte>): (s: string)
    ensures |s| == 2 * |bytes| && LowerHex(s)
  {
    if bytes == [] then "" else ByteToHex(bytes[0]) + BytesToHex(bytes[1..])
  }

  function BytesFromHex(s: string): (bytes: seq<Byte>)
    ensures |bytes| == |s| / 2
  {
    if |s| < 2 then [] else [ByteFromHex(s[0], s[1])] + BytesFromHex(s[2..])
  }

  lemma {:induction false} HexRoundTrip(bytes: seq<Byte>)
    ensures BytesFromHex(BytesToHex(bytes)) == bytes
  {
    if bytes != [] {
      assert BytesToHex(bytes)[2..] == BytesToHex(bytes[1..]);
      HexRoundTrip(bytes[1..]);
    }
  }

  lemma HexDigit(a: char)
    requires '0' <= a <= '9' || 'a' <= a <= 'f'
    ensures HexChar(HexValue(a)) == a
  {
    if a <= '9' { assert (48 + (a as int - 48)) as char == a; } else { assert (87 + (a as int - 87)) as char == a; }
  }

  lemma HexPair(a: char, b: char)
    requires LowerHex([a]) && LowerHex([b])
    ensures ByteToHex(ByteFromHex(a, b)) == [a, b]
  {
    assert [a][0] == a && [b][0] == b;
    HexDigit(a);
    HexDigit(b);
  }

  lemma {:induction false} HexTextRoundTrip(s: string)
    requires LowerHex(s) && |s| % 2 == 0
    ensures BytesToHex(BytesFromHex(s)) == s
  {
    if s != "" {
      var bytes := BytesFromHex(s);
      HexTextRoundTrip(s[2..]);
      assert bytes[1..] == BytesFromHex(s[2..]);
      HexPair(s[0], s[1]);
      assert s == [s[0], s[1]] + s[2..];
    }
  }

  // --------------------------------------------------------- issuance records

  datatype Receipt = Receipt(confirmed: bool, action: string, network: string, transactionId: string, transactionHash: string,
                             contractAddress: string, circuit: string, blockHeight: int, blockHash: string, blockTimestamp: string)

  datatype Issuance = Issuance(issuanceId: string, credentialBlind: seq<Byte>, credentialLeaf: seq<Byte>, receipt: Receipt)

  datatype PersistedIssuance = PersistedIssuance(issuanceId: string, credentialBlindHex: string, credentialLeafHex: string, receipt: Receipt)

  datatype Record = Record(fingerprintHash: Digest, result: PersistedIssuance)

  type Journal = map<Digest, Record>

  predicate CanonicalReceipt(r: Receipt)
  {
    && r.confirmed && r.action in {"credential", "vote", "cohort"} && r.network == "preview"
    && r.transactionId != "" && r.transactionHash != "" && r.contractAddress != "" && r.circuit != ""
    && 0 <= r.blockHeight <= JsText.MAX_SAFE && r.blockHash != "" && r.blockTimestamp != ""
  }

  /** `serializeIssuanceResult`; none where it throws. */
  function Serialized(r: Issuance): Option<PersistedIssuance>
  {
    if |r.credentialBlind| == 32 && |r.credentialLeaf| == 32 && CanonicalReceipt(r.receipt)
    then Some(PersistedIssuance(r.issuanceId, BytesToHex(r.credentialBlind), BytesToHex(r.credentialLeaf), r.receipt))
    else None
  }

  function Decoded(p: PersistedIssuance): Issuance
  {
    Issuance(p.issuanceId, BytesFromHex(p.credentialBlindHex), BytesFromHex(p.credentialLeafHex), p.receipt)
  }

  /** `parsePersistedIssuanceResult`: what the state file may hold. */
  predicate Parses(p: PersistedIssuance)
  {
    && p.issuanceId != "" && |p.credentialBlindHex| == 64 && LowerHex(p.credentialBlindHex)
    && |p.credentialLeafHex| == 64 && LowerHex(p.credentialLeafHex) && CanonicalReceipt(p.receipt)
  }

  /** Encoding is undone by decoding, and every record the state file may hold is the encoding of what it
      decodes to. */
  lemma IssuanceRoundTrip(r: Issuance, p: PersistedIssuance)
    ensures Serialized(r).Some? ==> Decoded(Serialized(r).value) == r && (r.issuanceId != "" ==> Parses(Serialized(r).value))
    ensures Parses(p) ==> Serialized(Decoded(p)) == Some(p)
  {
    HexRoundTrip(r.credentialBlind);
    HexRoundTrip(r.credentialLeaf);
    if Parses(p) {
      HexTextRoundTrip(p.credentialBlindHex);
      HexTextRoundTrip(p.credentialLeafHex);
    }
  }

  datatype PutResult = Stored(journal: Journal) | Kept | Conflicting | Unserializable

  function PutOutcome(journal: Journal, enrollment: string, fingerprintHash: Digest, r: Issuance): PutResult
  {
    match Serialized(r)
    case None => Unserializable
    case Some(p) =>
      var key := EnrollmentDigest(enrollment);
      if enrollment == "" then Unserializable
      else if key !in journal then Stored(journal[key := Record(fingerprintHash, p)])
      else if journal[key] == Record(fingerprintHash, p) then Kept
      else Conflicting
  }

  /** A put stores a new enrollment, keeps one that is already there with the same material and result, refuses one
      that is there with another, and refuses what cannot be written. */
  lemma PutDecides(journal: Journal, enrollment: string, fingerprintHash: Digest, r: Issuance)
    requires forall k | k in journal :: Parses(journal[k].result)
    ensures var put := PutOutcome(journal, enrollment, fingerprintHash, r); var found := Looked(journal, enrollment);
            var x := r.receipt;
            var writable := && enrollment != "" && |r.credentialBlind| == 32 && |r.credentialLeaf| == 32
                            && x.confirmed && (x.action == "credential" || x.action == "vote" || x.action == "cohort") && x.network == "preview"
                            && x.transactionId != "" && x.transactionHash != "" && x.contractAddress != "" && x.circuit != ""
                            && 0 <= x.blockHeight <= 9007199254740991 && x.blockHash != "" && x.blockTimestamp != "";
            && (put.Unserializable? <==> !writable)
            && (put.Stored? <==> writable && found.Missing?)
            && (put.Kept? <==> writable && found == Found(fingerprintHash, r))
            && (put.Conflicting? <==> writable && found.Found? && found != Found(fingerprintHash, r))
  {
    var key := EnrollmentDigest(enrollment);
    if key in journal { IssuanceRoundTrip(r, journal[key].result); }
    HexRoundTrip(r.credentialBlind);
    HexRoundTrip(r.credentialLeaf);
  }

  datatype Lookup = BadKey | Missing | Found(fingerprintHash: Digest, result: Issuance)

  function Looked(journal: Journal, enrollment: string): Lookup
  {
    var key := EnrollmentDigest(enrollment);
    if key in journal then Found(journal[key].fingerprintHash, Decoded(journal[key].result)) else Missing
  }

  /** What was put is found again, byte for byte; other enrollments find what they found before. */
  lemma PutThenGet(journal: Journal, enrollment: string, fingerprintHash: Digest, r: Issuance, other: string)
    requires PutOutcome(journal, enrollment, fingerprintHash, r).Stored?
    ensures var after := PutOutcome(journal, enrollment, fingerprintHash, r).journal;
            && Looked(after, enrollment) == Found(fingerprintHash, r)
            && (other != enrollment ==> Looked(after, other) == Looked(journal, other))
  {
    HexRoundTrip(r.credentialBlind);
    HexRoundTrip(r.credentialLeaf);
  }

  class FileCredentialIssuanceStore {
    var issuances: Journal

    constructor ()
      ensures issuances == map[]
    {
      issuances := map[];
    }

    method Get(enrollmentId: string) returns (found: Lookup)
      ensures found == if enrollmentId == "" then BadKey else Looked(issuances, enrollmentId)
    {
      if enrollmentId == "" {
        return BadKey;
      }
      var key := EnrollmentDigest(enrollmentId);
      if key in issuances {
        found := Found(issuances[key].fingerprintHash, Decoded(issuances[key].result));
      } else {
        found := Missing;
      }
    }

    /** A stored result is read back unchanged; a record is never overwritten. */
    method Put(enrollmentId: string, fingerprintHash: Digest, result: Issuance) returns (outcome: PutResult)
      modifies this
      ensures outcome == PutOutcome(old(issuances), enrollmentId, fingerprintHash, result)
      ensures issuances == if outcome.Stored? then outcome.journal else old(issuances)
      ensures forall k | k in old(issuances) :: k in issuances && issuances[k] == old(issuances)[k]
      ensures outcome.Stored? || outcome.Kept? ==> Looked(issuances, enrollmentId) == Found(fingerprintHash, result)
    {
      HexRoundTrip(result.credentialBlind);
      HexRoundTrip(result.credentialLeaf);
      var canonical := Serialized(result);
      if enrollmentId == "" || canonical.None? {
        return Unserializable;
      }
      var key := EnrollmentDigest(enrollmentId);
      if key in issuances {
        var existing := issuances[key];
        if existing.fingerprintHash != fingerprintHash {
          return Conflicting;
        }
        if existing.result != canonical.value {
          return Conflicting;
        }
        return Kept;
      }
      issuances := issuances[key := Record(fingerprintHash, canonical.value)];
      return Stored(issuances);
    }
  }
}
