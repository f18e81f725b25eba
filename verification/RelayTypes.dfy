/** Requests, capabilities, digests, jobs and receipts of the walletless relay
    (relayer/src/v2-types.ts, v2-hash.ts, v2-capability.ts, v2-indexer.ts, api/src/receipts/canonical.ts). */
module RelayTypes {
  import opened Wrappers
  import opened JsText
  import opened Canonical

  datatype Action = Credential | Vote | Cohort

  datatype Status =
    | Authorized | Validated | DustReserved | Finalized | Submitted | IndexerPending
    | Confirmed | Failed | RecoveryRequired

  datatype ErrorCode =
    | CapabilityReplayed | TransactionRejected | SubmissionUnknown | SubmissionIdMismatch
    | IndexerContractMismatch | IndexerRejected | NeedsRecovery

  /** A parsed request; `tx` is lower-case hexadecimal. */
  datatype Request = Request(
    actionId: Text, idempotencyKey: Text, network: Text, contractAddress: Text,
    circuit: Text, action: Action, tx: Text)

  /** The fields of a request that its hash covers. */
  datatype HashedFields = HashedFields(network: Text, contractAddress: Text, circuit: Text, action: Action, tx: Text)

  /** SHA-256 with a domain prefix, as a free (collision-free) constructor per domain. What is hashed for
      a request is `RequestText` of its fields, which `RequestTextIsFaithful` shows to be one-to-one. */
  datatype Digest =
    | RequestHash(fields: HashedFields)
    | TxDigest(tx: Text)
    | CapabilityDigest(token: Token)

  datatype Claims = Claims(
    actionId: Text, idempotencyKey: Text, network: Text, contractAddress: Text,
    circuit: Text, action: Action, requestHash: Digest)

  /** A capability token: what its payload decodes to, and the exact text it was sent as, so that two
      spellings of one payload are two tokens. */
  datatype Token = Token(claims: Claims, expiresAt: int, wire: Text)

  // ----------------------------------------------------------- request hash

  function ActionText(a: Action): Text
  {
    match a
    case Credential => U("credential")
    case Vote => U("vote")
    case Cohort => U("cohort")
  }

  function LowerUnit(u: CodeUnit): CodeUnit { if 65 <= u <= 90 then u + 32 else u }

  /** `toLowerCase` on the ASCII text of a hexadecimal transaction. */
  function Lower(t: Text): Text { seq(|t|, i requires 0 <= i < |t| => LowerUnit(t[i])) }

  predicate IsLower(t: Text) { Lower(t) == t }

  function Preimage(h: HashedFields): Json
  {
    Obj([
      Field(U("action"), Str(ActionText(h.action))),
      Field(U("contractAddress"), Str(h.contractAddress)),
      Field(U("circuit"), Str(h.circuit)),
      Field(U("network"), Str(h.network)),
      Field(U("tx"), Str(h.tx)),
      Field(U("version"), Num(U("1")))
    ])
  }

  /** The text that `v2RequestHash` hashes. */
  function RequestText(h: HashedFields): Text { Print(Preimage(h)) }

  function Hashed(r: Request): HashedFields
  {
    HashedFields(r.network, r.contractAddress, r.circuit, r.action, Lower(r.tx))
  }

  /** `v2RequestHash`. */
  function RequestHashOf(r: Request): Digest { RequestHash(Hashed(r)) }

  lemma PreimageWellFormed(h: HashedFields)
    ensures WellFormed(Preimage(h))
  {
    var fs := Preimage(h).fields;
    assert |fs[0].key| == 6 && |fs[1].key| == 15 && |fs[2].key| == |fs[3].key| == |fs[5].key| == 7 && |fs[4].key| == 2;
    assert fs[2].key[0] == 99 && fs[3].key[0] == 110 && fs[5].key[0] == 118;
    assert IsNumeral(U("1"));
  }

  lemma ActionTextInjective(a: Action, b: Action)
    requires ActionText(a) == ActionText(b)
    ensures a == b
  {
    assert |ActionText(Credential)| == 10 && |ActionText(Vote)| == 4 && |ActionText(Cohort)| == 6;
  }

  /** Objects that print alike hold alike values under alike keys. */
  lemma SamePrintSameField(fs: seq<Field>, fs': seq<Field>, i: nat)
    requires WellFormed(Obj(fs)) && WellFormed(Obj(fs')) && Print(Obj(fs)) == Print(Obj(fs'))
    requires i < |fs| && i < |fs'| && fs[i].key == fs'[i].key
    ensures Meaning(fs[i].val) == Meaning(fs'[i].val)
  {
    PrintDecidesMeaning(Obj(fs), Obj(fs'));
    assert VObj(Members(fs)) == VObj(Members(fs'));
    MembersAt(fs);
    MembersAt(fs');
  }

  lemma SameTextSameField(h: HashedFields, h': HashedFields, i: nat)
    requires RequestText(h) == RequestText(h') && i < 6
    ensures Meaning(Preimage(h).fields[i].val) == Meaning(Preimage(h').fields[i].val)
  {
    PreimageWellFormed(h);
    PreimageWellFormed(h');
    SamePrintSameField(Preimage(h).fields, Preimage(h').fields, i);
  }

  /** The hashed text pins every hashed field: equal texts come from equal requests, and only from them. */
  lemma RequestTextIsFaithful(h: HashedFields, h': HashedFields)
    ensures RequestText(h) == RequestText(h') <==> h == h'
  {
    if RequestText(h) == RequestText(h') {
      assert VStr(ActionText(h.action)) == VStr(ActionText(h'.action)) by { SameTextSameField(h, h', 0); }
      assert VStr(h.contractAddress) == VStr(h'.contractAddress) by { SameTextSameField(h, h', 1); }
      assert VStr(h.circuit) == VStr(h'.circuit) by { SameTextSameField(h, h', 2); }
      assert VStr(h.network) == VStr(h'.network) by { SameTextSameField(h, h', 3); }
      assert VStr(h.tx) == VStr(h'.tx) by { SameTextSameField(h, h', 4); }
      ActionTextInjective(h.action, h'.action);
    }
  }

  // ------------------------------------------------------------- capability

  function ClaimsFor(r: Request): Claims
  {
    Claims(r.actionId, r.idempotencyKey, r.network, r.contractAddress, r.circuit, r.action, RequestHashOf(r))
  }

  /** `verifyV2Capability`: the digest and expiry of a token that is authentic, unexpired and bound
      to exactly this request; anything else is refused. */
  function VerifyCapability(token: Token, authentic: bool, expected: Claims, now: int): (r: Option<(Digest, int)>)
    ensures r.Some? ==> token.claims == expected && token.expiresAt > now && r.value == (CapabilityDigest(token), token.expiresAt)
  {
    if !authentic || token.expiresAt <= now || token.claims != expected then None
    else Some((CapabilityDigest(token), token.expiresAt))
  }

  /** A token is accepted exactly when its signature is authentic, it has not expired, and each of its claims is
      the request's own. */
  lemma AcceptedCapability(t: Token, authentic: bool, r: Request, now: int)
    ensures VerifyCapability(t, authentic, ClaimsFor(r), now) == Some((CapabilityDigest(t), t.expiresAt)) <==>
            && authentic && now < t.expiresAt
            && t.claims.actionId == r.actionId && t.claims.idempotencyKey == r.idempotencyKey && t.claims.network == r.network
            && t.claims.contractAddress == r.contractAddress && t.claims.circuit == r.circuit && t.claims.action == r.action
            && t.claims.requestHash == RequestHash(HashedFields(r.network, r.contractAddress, r.circuit, r.action, Lower(r.tx)))
    ensures VerifyCapability(t, authentic, ClaimsFor(r), now).None? <==>
            VerifyCapability(t, authentic, ClaimsFor(r), now) != Some((CapabilityDigest(t), t.expiresAt))
  {
  }

  /** A capability digest is good for one action, one key, one request and one transaction text. */
  lemma CapabilityBindsOneAction(t: Token, t': Token, ok: bool, ok': bool, r: Request, r': Request, now: int, now': int)
    requires VerifyCapability(t, ok, ClaimsFor(r), now).Some? && VerifyCapability(t', ok', ClaimsFor(r'), now').Some?
    requires VerifyCapability(t, ok, ClaimsFor(r), now).value.0 == VerifyCapability(t', ok', ClaimsFor(r'), now').value.0
    ensures r.actionId == r'.actionId && r.idempotencyKey == r'.idempotencyKey
    ensures RequestText(Hashed(r)) == RequestText(Hashed(r')) && Lower(r.tx) == Lower(r'.tx)
  {
    assert ClaimsFor(r) == ClaimsFor(r');
    assert Hashed(r) == Hashed(r');
  }

  // --------------------------------------------------------------- receipts

  datatype Receipt = Receipt(
    action: Action, network: Text, transactionId: Text, transactionHash: Text, contractAddress: Text,
    circuit: Text, blockHeight: int, blockHash: Text, blockTimeMs: int)

  predicate Space(u: CodeUnit)
  {
    9 <= u <= 13 || u == 32 || u == 160 || u == 0x1680 || 0x2000 <= u <= 0x200A
    || u == 0x2028 || u == 0x2029 || u == 0x202F || u == 0x205F || u == 0x3000 || u == 0xFEFF
  }

  /** `value.trim().length === 0`. */
  predicate Blank(t: Text) { forall i | 0 <= i < |t| :: Space(t[i]) }

  predicate IsNetwork(t: Text)
  {
    t == U("preview") || t == U("devnet") || t == U("undeployed") || t == U("mainnet")
  }

  const MAX_TIME_MS: int := 8_640_000_000_000_000

  /** `sanitizeCanonicalReceipt`: the receipt itself when every public field is present. */
  function Sanitize(r: Receipt): Option<Receipt>
  {
    if IsNetwork(r.network) && 0 <= r.blockHeight <= MAX_SAFE && r.transactionId != [] && r.transactionHash != []
       && r.contractAddress != [] && r.circuit != [] && r.blockHash != []
    then Some(r) else None
  }

  datatype Query = Query(transactionId: Text, network: Text, contractAddress: Text, circuit: Text, action: Action)

  datatype IndexedTransaction = IndexedTransaction(
    hash: Text, identifiers: seq<Text>, status: Text, contracts: seq<Text>,
    blockHeight: int, blockHash: Text, timestamp: int)

  /** What the indexer answered: nothing usable, a timeout, no such transaction, or a transaction. */
  datatype IndexerAnswer = Unusable | TimedOut | Unknown | Found(tx: IndexedTransaction)

  /** `null`, a receipt, a definitive rejection, or an error that is retried. */
  datatype Resolution = Lagging | Resolved(receipt: Receipt) | Rejected(code: ErrorCode) | Retry

  /** `canonicalReceiptFromIndexer`. */
  function CanonicalReceipt(tx: IndexedTransaction, q: Query): Option<Receipt>
  {
    var ms := if tx.timestamp < 1_000_000_000_000 then tx.timestamp * 1000 else tx.timestamp;
    if Blank(q.transactionId) || Blank(tx.hash) || Blank(q.contractAddress) || Blank(q.circuit) || Blank(tx.blockHash)
       || !(0 <= tx.blockHeight <= MAX_SAFE) || !(-MAX_TIME_MS <= ms <= MAX_TIME_MS)
    then None
    else Some(Receipt(q.action, q.network, q.transactionId, tx.hash, q.contractAddress, q.circuit, tx.blockHeight, tx.blockHash, ms))
  }

  /** `MidnightIndexerReceiptResolver.resolve`. */
  function Resolve(a: IndexerAnswer, q: Query): Resolution
  {
    match a
    case Unusable => Retry
    case TimedOut => Lagging
    case Unknown => Lagging
    case Found(tx) =>
      if q.transactionId !in tx.identifiers then Lagging
      else if tx.status != U("SUCCESS") then Rejected(IndexerRejected)
      else if q.contractAddress !in tx.contracts then Rejected(IndexerContractMismatch)
      else if !IsNetwork(q.network) then Retry
      else match CanonicalReceipt(tx, q)
        case None => Retry
        case Some(r) => Resolved(r)
  }

  predicate Answers(r: Receipt, q: Query)
  {
    r.transactionId == q.transactionId && r.network == q.network && r.contractAddress == q.contractAddress
    && r.circuit == q.circuit && r.action == q.action
  }

  /** A receipt is only ever built from a successful indexed transaction that carries the queried
      identifier and touched the queried contract; it repeats the query and survives sanitising. */
  lemma ResolvedReceiptIsTrue(a: IndexerAnswer, q: Query)
    requires Resolve(a, q).Resolved?
    ensures Answers(Resolve(a, q).receipt, q)
    ensures a.Found? && q.transactionId in a.tx.identifiers && q.contractAddress in a.tx.contracts && a.tx.status == U("SUCCESS")
    ensures Sanitize(Resolve(a, q).receipt) == Some(Resolve(a, q).receipt)
  {
    var r := Resolve(a, q).receipt;
    assert !Blank(r.transactionId) && !Blank(r.transactionHash) && !Blank(r.contractAddress) && !Blank(r.circuit) && !Blank(r.blockHash);
    assert Blank([]);
  }

  /** What a receipt needs of an indexed transaction, beyond its success. */
  predicate Receiptable(tx: IndexedTransaction, q: Query)
  {
    && q.network in {U("preview"), U("devnet"), U("undeployed"), U("mainnet")}
    && !Blank(q.transactionId) && !Blank(tx.hash) && !Blank(q.contractAddress) && !Blank(q.circuit) && !Blank(tx.blockHash)
    && 0 <= tx.blockHeight <= 9007199254740991
    && (if tx.timestamp < 1000000000000 then -8640000000000 <= tx.timestamp else tx.timestamp <= 8640000000000000)
  }

  /** What each answer of the indexer leads to: a receipt for a successful transaction with the id, on the contract;
      a rejection for one that failed or missed the contract; no verdict where it is not indexed yet or the lookup
      timed out; and a retry for anything else. */
  lemma AnswersDecide(a: IndexerAnswer, q: Query)
    ensures Resolve(a, q).Resolved? <==>
            a.Found? && q.transactionId in a.tx.identifiers && a.tx.status == U("SUCCESS") && q.contractAddress in a.tx.contracts && Receiptable(a.tx, q)
    ensures Resolve(a, q) == Rejected(IndexerRejected) <==> a.Found? && q.transactionId in a.tx.identifiers && a.tx.status != U("SUCCESS")
    ensures Resolve(a, q) == Rejected(IndexerContractMismatch) <==>
            a.Found? && q.transactionId in a.tx.identifiers && a.tx.status == U("SUCCESS") && q.contractAddress !in a.tx.contracts
    ensures Resolve(a, q).Rejected? ==> Resolve(a, q).code in {IndexerRejected, IndexerContractMismatch}
    ensures Resolve(a, q) == Lagging <==> a.Unknown? || a.TimedOut? || (a.Found? && q.transactionId !in a.tx.identifiers)
  {
  }

  /** The receipt repeats the query and the indexed transaction. */
  lemma ReceiptRepeatsTransaction(a: IndexerAnswer, q: Query)
    requires Resolve(a, q).Resolved?
    ensures var r := Resolve(a, q).receipt;
            && r.transactionId == q.transactionId && r.network == q.network && r.contractAddress == q.contractAddress
            && r.circuit == q.circuit && r.action == q.action
            && r.transactionHash == a.tx.hash && r.blockHeight == a.tx.blockHeight && r.blockHash == a.tx.blockHash
            && r.blockTimeMs == if a.tx.timestamp < 1000000000000 then 1000 * a.tx.timestamp else a.tx.timestamp
  {
  }

  // ------------------------------------------------------------------- jobs

  datatype Job = Job(
    id: Text, idempotencyKey: Text, capabilityDigest: Digest, requestHash: Digest, txDigest: Digest,
    network: Text, contractAddress: Text, circuit: Text, action: Action,
    status: Status, transitions: seq<Status>, dustReservationId: Option<Text>,
    transactionId: Option<Text>, receipt: Option<Receipt>, errorCode: Option<ErrorCode>)

  type Jobs = map<Text, Job>

  datatype NewJob = NewJob(
    id: Text, idempotencyKey: Text, capabilityDigest: Digest, requestHash: Digest, txDigest: Digest,
    network: Text, contractAddress: Text, circuit: Text, action: Action)

  function Fresh(n: NewJob): Job
  {
    Job(n.id, n.idempotencyKey, n.capabilityDigest, n.requestHash, n.txDigest, n.network, n.contractAddress,
        n.circuit, n.action, Authorized, [Authorized], None, None, None, None)
  }

  datatype Reservation = Reservation(digest: Digest, claims: Claims, expiresAt: int)

  type Capabilities = map<Digest, Reservation>

  predicate Leased(s: Status)
  {
    s.DustReserved? || s.Finalized? || s.Submitted? || s.IndexerPending?
  }

  predicate Terminal(s: Status) { s.Confirmed? || s.Failed? || s.RecoveryRequired? }

  predicate PreSubmit(s: Status) { s.Authorized? || s.Validated? || s.DustReserved? || s.Finalized? }

  predicate Recoverable(s: Status) { !Terminal(s) }

  function JobQuery(j: Job): Query
    requires j.transactionId.Some?
  {
    Query(j.transactionId.value, j.network, j.contractAddress, j.circuit, j.action)
  }
}
