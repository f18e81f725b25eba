/** Evidence checks of a complete deployment manifest: root provenance, lifecycle receipts and indexer
    observations (api/src/passport-v2/deployment-manifest.ts:650-722, 749-860). */
module Manifest {
  import opened Wrappers
  import opened JsText
  import RelayTypes

  datatype StepId =
    | RegistryDeploy | RegistryIssue | RegistryFreeze | RegistryAttest | ReferendumDeploy | PublishRoot | RevokeRoot
    | Cast | ReplayRejected | Close | Reveal | Finalize

  datatype StepStatus = Confirmed | Reconciled | Rejected

  /** A receipt as recorded; `confirmed` is whether its status says so. */
  datatype StepReceipt = StepReceipt(confirmed: bool, body: RelayTypes.Receipt)

  datatype Step = Step(id: StepId, status: StepStatus, receipt: Option<StepReceipt>, rootField: Option<Text>, attestation: Option<Text>)

  datatype Observation = Observation(stage: StepId, available: bool, source: Option<Text>, transactionId: Option<Text>)

  datatype Referendum = Referendum(
    contractAddress: Option<Text>, registryContractBindingHex: Option<Text>, registryContractAddress: Option<Text>,
    initialRootField: Text, acceptedRoots: seq<Text>)

  datatype Manifest = Manifest(
    network: Text, referenda: seq<Referendum>, steps: seq<Step>, observations: seq<Observation>, indexerHttp: Option<Text>)

  predicate Done(s: Step) { s.status.Confirmed? || s.status.Reconciled? }

  /** `array.find`. */
  function Find(steps: seq<Step>, p: Step -> bool): (i: Option<nat>)
    ensures i.Some? ==> i.value < |steps| && p(steps[i.value]) && forall j | 0 <= j < i.value :: !p(steps[j])
    ensures i.None? ==> forall j | 0 <= j < |steps| :: !p(steps[j])
  {
    FindFrom(steps, p, 0)
  }

  function FindFrom(steps: seq<Step>, p: Step -> bool, k: nat): (i: Option<nat>)
    requires k <= |steps|
    ensures i.Some? ==> k <= i.value < |steps| && p(steps[i.value]) && forall j | k <= j < i.value :: !p(steps[j])
    ensures i.None? ==> forall j | k <= j < |steps| :: !p(steps[j])
    decreases |steps| - k
  {
    if k == |steps| then None else if p(steps[k]) then Some(k) else FindFrom(steps, p, k + 1)
  }

  // --------------------------------------------------------- root provenance

  function Stripped(t: Text): Text
  {
    RelayTypes.Lower(if |t| >= 2 && t[..2] == U("0x") then t[2..] else t)
  }

  predicate HexUnit(u: CodeUnit) { 48 <= u <= 57 || 65 <= u <= 70 || 97 <= u <= 102 }

  function Unprefixed(t: Text): Text { if |t| == 66 && t[0] == 48 && t[1] in {88, 120} then t[2..] else t }

  predicate Hex32(t: Text)
  {
    var digits := Unprefixed(t);
    |digits| == 64 && forall i | 0 <= i < |digits| :: HexUnit(digits[i])
  }

  predicate OnContract(s: Step, address: Text)
  {
    s.receipt.Some? && Stripped(s.receipt.value.body.contractAddress) == Stripped(address)
  }

  predicate Publishes(s: Step, referendum: Text, root: Text)
  {
    s.id.PublishRoot? && Done(s) && OnContract(s, referendum) && s.rootField == Some(root)
  }

  predicate Attests(s: Step, registry: Text, root: Text, transaction: Text)
  {
    && s.id.RegistryAttest? && Done(s) && s.receipt.Some? && s.receipt.value.body.transactionId == transaction
    && OnContract(s, registry) && s.rootField == Some(root)
  }

  /** A publish step whose attestation is another transaction, recorded as attesting the same root. */
  predicate Attested(steps: seq<Step>, publish: Step, registry: Text, root: Text)
    requires publish.receipt.Some?
  {
    && publish.receipt.value.body.transactionId != [] && publish.attestation.Some? && !RelayTypes.Blank(publish.attestation.value)
    && publish.attestation.value != publish.receipt.value.body.transactionId
    && Find(steps, (s: Step) => Attests(s, registry, root, publish.attestation.value)).Some?
  }

  /** The check of one accepted root: only the first matching publish step is looked at. */
  predicate RootAccepted(steps: seq<Step>, referendum: Text, registry: Text, root: Text)
  {
    var publish := Find(steps, (s: Step) => Publishes(s, referendum, root));
    publish.Some? && Attested(steps, steps[publish.value], registry, root)
  }

  predicate ReferendumAccepted(m: Manifest, r: Referendum)
  {
    && r.contractAddress.Some? && r.contractAddress.value != []
    && r.registryContractBindingHex.Some? && Hex32(r.registryContractBindingHex.value)
    && r.registryContractAddress.Some? && Hex32(r.registryContractAddress.value)
    && forall i | 0 <= i < |r.acceptedRoots| && r.acceptedRoots[i] != r.initialRootField ::
         RootAccepted(m.steps, r.contractAddress.value, r.registryContractAddress.value, r.acceptedRoots[i])
  }

  predicate ProvenanceAccepted(m: Manifest)
  {
    forall k | 0 <= k < |m.referenda| :: ReferendumAccepted(m, m.referenda[k])
  }

  /** Step `p` published the root on the referendum, and step `a` attested it on the registry, in another
      transaction that `p` names. */
  predicate Provenance(steps: seq<Step>, referendum: Text, registry: Text, root: Text, p: nat, a: nat)
  {
    && p < |steps| && a < |steps| && Publishes(steps[p], referendum, root) && steps[p].receipt.Some?
    && steps[p].receipt.value.body.transactionId != []
    && steps[p].attestation.Some? && !RelayTypes.Blank(steps[p].attestation.value)
    && Attests(steps[a], registry, root, steps[p].attestation.value)
    && steps[a].receipt.value.body.transactionId != steps[p].receipt.value.body.transactionId
  }

  /** Every root accepted beyond the initial one has provenance. */
  lemma AcceptedRootsHaveProvenance(m: Manifest, k: nat, root: Text)
    requires ProvenanceAccepted(m) && k < |m.referenda| && root in m.referenda[k].acceptedRoots && root != m.referenda[k].initialRootField
    ensures var r := m.referenda[k];
            && r.contractAddress.Some? && r.registryContractAddress.Some?
            && exists p, a :: p != a && Provenance(m.steps, r.contractAddress.value, r.registryContractAddress.value, root, p, a)
  {
    var r := m.referenda[k];
    assert ReferendumAccepted(m, r);
    var i :| 0 <= i < |r.acceptedRoots| && r.acceptedRoots[i] == root;
    var referendum, registry := r.contractAddress.value, r.registryContractAddress.value;
    assert RootAccepted(m.steps, referendum, registry, root);
    var p := Find(m.steps, (s: Step) => Publishes(s, referendum, root)).value;
    var a := Find(m.steps, (s: Step) => Attests(s, registry, root, m.steps[p].attestation.value)).value;
    assert Provenance(m.steps, referendum, registry, root, p, a);
  }

  /** The check accepts a root exactly when the first step that published it has provenance. */
  lemma RootAcceptedIff(steps: seq<Step>, referendum: Text, registry: Text, root: Text)
    ensures RootAccepted(steps, referendum, registry, root) <==>
            exists p, a :: Provenance(steps, referendum, registry, root, p, a)
                           && forall q | 0 <= q < p :: !Publishes(steps[q], referendum, root)
  {
    var first := Find(steps, (s: Step) => Publishes(s, referendum, root));
    if RootAccepted(steps, referendum, registry, root) {
      var p := first.value;
      var a := Find(steps, (s: Step) => Attests(s, registry, root, steps[p].attestation.value)).value;
      assert Provenance(steps, referendum, registry, root, p, a);
    }
    if p: nat, a: nat :| Provenance(steps, referendum, registry, root, p, a) && forall q | 0 <= q < p :: !Publishes(steps[q], referendum, root) {
      var publishes := (s: Step) => Publishes(s, referendum, root);
      assert publishes(steps[p]);
      assert first == Some(p);
      var attests := (s: Step) => Attests(s, registry, root, steps[p].attestation.value);
      assert attests(steps[a]);
      assert Find(steps, attests).Some?;
    }
  }

  /** So provenance is not enough: an earlier publish step that names no attestation hides it. */
  lemma EarlierStepHidesProvenance(steps: seq<Step>, referendum: Text, registry: Text, root: Text, p: nat, a: nat, bare: Step)
    requires Provenance(steps, referendum, registry, root, p, a) && Publishes(bare, referendum, root) && bare.attestation.None?
    ensures Provenance([bare] + steps, referendum, registry, root, p + 1, a + 1)
    ensures !RootAccepted([bare] + steps, referendum, registry, root)
  {
    var all := [bare] + steps;
    assert all[0] == bare && all[p + 1] == steps[p] && all[a + 1] == steps[a];
    var publishes := (s: Step) => Publishes(s, referendum, root);
    assert publishes(all[0]);
    assert Find(all, publishes) == Some(0);
  }

  // ------------------------------------------------------ lifecycle evidence

  const LIFECYCLE: seq<StepId> := [Cast, Close, Reveal, Finalize]

  predicate Repeatable(id: StepId) { id.PublishRoot? || id.RegistryAttest? || id.RevokeRoot? }

  /** Every milestone is recorded at most once. */
  predicate Singletons(steps: seq<Step>)
  {
    forall i, j | 0 <= i < j < |steps| && !Repeatable(steps[i].id) :: steps[i].id != steps[j].id
  }

  function Circuit(id: StepId): Text
  {
    if id.Cast? then U("castVote") else if id.Close? then U("closeVote") else if id.Reveal? then U("revealVote") else U("finalizeVote")
  }

  /** The confirmed receipt of a lifecycle step, if it is the one the step claims. */
  function LifecycleReceipt(m: Manifest, address: Text, id: StepId): Option<RelayTypes.Receipt>
  {
    var k := Find(m.steps, (s: Step) => s.id == id);
    if k.None? then None
    else
      var s := m.steps[k.value];
      if Done(s) && s.receipt.Some? && s.receipt.value.confirmed && RelayTypes.Sanitize(s.receipt.value.body).Some?
         && Genuine(m.network, address, id, s.receipt.value.body)
      then Some(s.receipt.value.body) else None
  }

  predicate Genuine(network: Text, address: Text, id: StepId, r: RelayTypes.Receipt)
  {
    && r.action.Vote? && r.network == network && r.circuit == Circuit(id) && !RelayTypes.Blank(r.transactionId)
    && Stripped(r.contractAddress) == Stripped(address)
  }

  predicate Seen(o: Observation) { o.available && o.transactionId.Some? }

  /** No two available observations are of one transaction. */
  predicate ObservationsDistinct(obs: seq<Observation>)
  {
    && (forall i | 0 <= i < |obs| && Seen(obs[i]) :: !RelayTypes.Blank(obs[i].transactionId.value))
    && (forall i, j | 0 <= i < j < |obs| && Seen(obs[i]) && Seen(obs[j]) :: obs[i].transactionId != obs[j].transactionId)
  }

  predicate Observes(o: Observation, id: StepId) { o.stage == id && o.available }

  /** Observation `i` is the only available one of this stage, and is bound to the transaction. */
  predicate BoundBy(m: Manifest, id: StepId, transaction: Text, i: nat)
  {
    && i < |m.observations| && Observes(m.observations[i], id)
    && m.observations[i].transactionId == Some(transaction) && m.observations[i].source == m.indexerHttp
    && forall j | 0 <= j < |m.observations| && Observes(m.observations[j], id) :: j == i
  }

  ghost predicate Evidence(m: Manifest, address: Text, id: StepId)
  {
    && LifecycleReceipt(m, address, id).Some?
    && exists i :: BoundBy(m, id, LifecycleReceipt(m, address, id).value.transactionId, i)
  }

  predicate DistinctReceipts(m: Manifest, address: Text)
  {
    forall a, b | 0 <= a < b < 4 ::
      LifecycleReceipt(m, address, LIFECYCLE[a]).Some? && LifecycleReceipt(m, address, LIFECYCLE[b]).Some?
      ==> LifecycleReceipt(m, address, LIFECYCLE[a]).value.transactionId != LifecycleReceipt(m, address, LIFECYCLE[b]).value.transactionId
  }

  ghost predicate LifecycleProven(m: Manifest, address: Text)
  {
    && (forall a | 0 <= a < 4 :: Evidence(m, address, LIFECYCLE[a]))
    && DistinctReceipts(m, address)
    && |m.observations| >= 5 && ObservationsDistinct(m.observations)
  }

  /** The receipt loop: the four receipts in order, if all are genuine. */
  method CollectReceipts(m: Manifest, address: Text) returns (ok: bool, receipts: seq<RelayTypes.Receipt>)
    ensures ok <==> forall a | 0 <= a < 4 :: LifecycleReceipt(m, address, LIFECYCLE[a]).Some?
    ensures ok ==> |receipts| == 4 && forall a | 0 <= a < 4 :: LifecycleReceipt(m, address, LIFECYCLE[a]) == Some(receipts[a])
  {
    receipts := [];
    for k := 0 to 4
      invariant |receipts| == k
      invariant forall a | 0 <= a < k :: LifecycleReceipt(m, address, LIFECYCLE[a]) == Some(receipts[a])
    {
      var r := LifecycleReceipt(m, address, LIFECYCLE[k]);
      if r.None? {
        return false, [];
      }
      receipts := receipts + [r.value];
    }
    return true, receipts;
  }

  method TransactionsDistinct(receipts: seq<RelayTypes.Receipt>) returns (ok: bool)
    ensures ok <==> forall a, b | 0 <= a < b < |receipts| :: receipts[a].transactionId != receipts[b].transactionId
  {
    var ids: set<Text> := {};
    for k := 0 to |receipts|
      invariant forall t :: t in ids <==> exists a :: 0 <= a < k && receipts[a].transactionId == t
      invariant forall a, b | 0 <= a < b < k :: receipts[a].transactionId != receipts[b].transactionId
    {
      if receipts[k].transactionId in ids {
        return false;
      }
      ids := ids + {receipts[k].transactionId};
    }
    return true;
  }

  method CheckObservations(obs: seq<Observation>) returns (ok: bool)
    ensures ok <==> ObservationsDistinct(obs)
  {
    var ids: set<Text> := {};
    for k := 0 to |obs|
      invariant forall t :: t in ids <==> exists a :: 0 <= a < k && Seen(obs[a]) && obs[a].transactionId == Some(t)
      invariant ObservationsDistinct(obs[..k])
    {
      if Seen(obs[k]) {
        var t := obs[k].transactionId.value;
        if RelayTypes.Blank(t) {
          return false;
        }
        if t in ids {
          return false;
        }
        ids := ids + {t};
      }
      assert obs[..k + 1] == obs[..k] + [obs[k]];
    }
    assert obs[..|obs|] == obs;
    return true;
  }

  /** `observations.filter(...)`, then the length and binding checks. */
  method CheckBinding(m: Manifest, id: StepId, transaction: Text) returns (ok: bool)
    ensures ok <==> exists i :: BoundBy(m, id, transaction, i)
  {
    var found: seq<nat> := [];
    for k := 0 to |m.observations|
      invariant forall x | 0 <= x < |found| :: found[x] < k && Observes(m.observations[found[x]], id)
      invariant forall x, y | 0 <= x < y < |found| :: found[x] < found[y]
      invariant forall j | 0 <= j < k && Observes(m.observations[j], id) :: j in found
    {
      if Observes(m.observations[k], id) { found := found + [k]; }
    }
    if |found| != 1 {
      assert |found| > 1 ==> Observes(m.observations[found[0]], id) && Observes(m.observations[found[1]], id);
      return false;
    }
    var o := m.observations[found[0]];
    ok := o.transactionId == Some(transaction) && o.source == m.indexerHttp;
    assert ok ==> BoundBy(m, id, transaction, found[0]);
  }

  method CheckLifecycle(m: Manifest, address: Text) returns (ok: bool)
    ensures ok <==> LifecycleProven(m, address)
  {
    var receipts;
    ok, receipts := CollectReceipts(m, address);
    if !ok { return false; }
    ok := TransactionsDistinct(receipts);
    if !ok { return false; }
    if |m.observations| < 5 { return false; }
    ok := CheckObservations(m.observations);
    if !ok { return false; }
    for k := 0 to 4
      invariant forall a | 0 <= a < k :: Evidence(m, address, LIFECYCLE[a])
    {
      ok := CheckBinding(m, LIFECYCLE[k], receipts[k].transactionId);
      if !ok { return false; }
    }
    return true;
  }

  /** Acceptance gives each lifecycle milestone its own transaction, recorded by the only step of that name and
      seen by exactly one available observation of the whole transcript, which is bound to that stage. */
  lemma MilestonesHaveOwnEvidence(m: Manifest, address: Text, a: nat)
    requires Singletons(m.steps) && LifecycleProven(m, address) && a < 4
    ensures exists k, i :: OwnEvidence(m, address, a, k, i)
    ensures forall b | 0 <= b < 4 && b != a ::
              LifecycleReceipt(m, address, LIFECYCLE[a]).value.transactionId != LifecycleReceipt(m, address, LIFECYCLE[b]).value.transactionId
  {
    var id := LIFECYCLE[a];
    assert Evidence(m, address, id);
    var k := Find(m.steps, (s: Step) => s.id == id).value;
    var r := LifecycleReceipt(m, address, id).value;
    var i :| BoundBy(m, id, r.transactionId, i);
    assert OwnEvidence(m, address, a, k, i);
    forall b | 0 <= b < 4 && b != a
      ensures LifecycleReceipt(m, address, id).value.transactionId != LifecycleReceipt(m, address, LIFECYCLE[b]).value.transactionId
    {
      assert Evidence(m, address, LIFECYCLE[b]);
      assert DistinctReceipts(m, address);
    }
  }

  /** Step `k` is the only one of its name, its receipt is genuine, and observation `i` is the only available
      one of its stage and the only available one of its transaction. */
  predicate OwnEvidence(m: Manifest, address: Text, a: nat, k: nat, i: nat)
    requires a < 4
  {
    && k < |m.steps| && m.steps[k].id == LIFECYCLE[a] && (forall j | 0 <= j < |m.steps| && m.steps[j].id == LIFECYCLE[a] :: j == k)
    && Done(m.steps[k]) && m.steps[k].receipt.Some? && m.steps[k].receipt.value.confirmed
    && Genuine(m.network, address, LIFECYCLE[a], m.steps[k].receipt.value.body)
    && var t := m.steps[k].receipt.value.body.transactionId;
       && BoundBy(m, LIFECYCLE[a], t, i)
       && forall j | 0 <= j < |m.observations| && Seen(m.observations[j]) && m.observations[j].transactionId == Some(t) :: j == i
  }

  // --------------------------------------------------- what acceptance means

  predicate SameLetter(u: CodeUnit, v: CodeUnit)
  {
    u == v || (65 <= u <= 90 && v == u + 32) || (65 <= v <= 90 && u == v + 32)
  }

  /** The text after a leading "0x". */
  function Digits(t: Text): Text
  {
    if |t| >= 2 && t[0] == 48 && t[1] == 120 then t[2..] else t
  }

  /** Two addresses name one contract if they agree but for the prefix and the case of letters. */
  predicate SameContract(a: Text, b: Text)
  {
    |Digits(a)| == |Digits(b)| && forall i | 0 <= i < |Digits(a)| :: SameLetter(Digits(a)[i], Digits(b)[i])
  }

  lemma StrippedIsLower(t: Text)
    ensures Stripped(t) == RelayTypes.Lower(Digits(t))
  {
    assert U("0x") == [48, 120];
    if |t| >= 2 { assert t[..2] == [t[0], t[1]]; }
  }

  lemma SameLetterIff(u: CodeUnit, v: CodeUnit)
    ensures RelayTypes.LowerUnit(u) == RelayTypes.LowerUnit(v) <==> SameLetter(u, v)
  {
  }

  lemma SameLowerIff(a: Text, b: Text)
    ensures RelayTypes.Lower(a) == RelayTypes.Lower(b) <==> |a| == |b| && forall i | 0 <= i < |a| :: SameLetter(a[i], b[i])
  {
    var la, lb := RelayTypes.Lower(a), RelayTypes.Lower(b);
    if la == lb {
      forall i | 0 <= i < |a| ensures SameLetter(a[i], b[i]) {
        assert la[i] == lb[i];
        SameLetterIff(a[i], b[i]);
      }
    }
    if |a| == |b| && forall i | 0 <= i < |a| :: SameLetter(a[i], b[i]) {
      forall i | 0 <= i < |a| ensures la[i] == lb[i] { SameLetterIff(a[i], b[i]); }
    }
  }

  lemma SameContractIff(a: Text, b: Text)
    ensures Stripped(a) == Stripped(b) <==> SameContract(a, b)
  {
    StrippedIsLower(a);
    StrippedIsLower(b);
    SameLowerIff(Digits(a), Digits(b));
  }

  /** Step `p` is a completed publication of this root on the referendum. */
  predicate PublishedAt(steps: seq<Step>, referendum: Text, root: Text, p: nat)
  {
    && p < |steps| && steps[p].id == PublishRoot && (steps[p].status == Confirmed || steps[p].status == Reconciled)
    && steps[p].receipt.Some? && SameContract(steps[p].receipt.value.body.contractAddress, referendum) && steps[p].rootField == Some(root)
  }

  /** Step `a` is a completed attestation of this root on the registry, by this transaction. */
  predicate AttestedAt(steps: seq<Step>, registry: Text, root: Text, transaction: Text, a: nat)
  {
    && a < |steps| && steps[a].id == RegistryAttest && (steps[a].status == Confirmed || steps[a].status == Reconciled)
    && steps[a].receipt.Some? && SameContract(steps[a].receipt.value.body.contractAddress, registry) && steps[a].rootField == Some(root)
    && steps[a].receipt.value.body.transactionId == transaction
  }

  lemma PublishesInFields(steps: seq<Step>, referendum: Text, root: Text, p: nat)
    requires p < |steps|
    ensures Publishes(steps[p], referendum, root) <==> PublishedAt(steps, referendum, root, p)
  {
    if steps[p].receipt.Some? { SameContractIff(steps[p].receipt.value.body.contractAddress, referendum); }
  }

  lemma AttestsInFields(steps: seq<Step>, registry: Text, root: Text, transaction: Text, a: nat)
    requires a < |steps|
    ensures Attests(steps[a], registry, root, transaction) <==> AttestedAt(steps, registry, root, transaction, a)
  {
    if steps[a].receipt.Some? { SameContractIff(steps[a].receipt.value.body.contractAddress, registry); }
  }

  /** The first publication of the root is `p`, which names the other transaction that attested it as step `a`. */
  predicate ProvenAt(steps: seq<Step>, referendum: Text, registry: Text, root: Text, p: nat, a: nat)
  {
    && PublishedAt(steps, referendum, root, p) && (forall q: nat | q < p :: !PublishedAt(steps, referendum, root, q))
    && steps[p].receipt.value.body.transactionId != []
    && steps[p].attestation.Some? && !RelayTypes.Blank(steps[p].attestation.value)
    && steps[p].attestation.value != steps[p].receipt.value.body.transactionId
    && AttestedAt(steps, registry, root, steps[p].attestation.value, a)
  }

  lemma ProvenInFields(steps: seq<Step>, referendum: Text, registry: Text, root: Text, p: nat, a: nat)
    ensures ProvenAt(steps, referendum, registry, root, p, a) <==>
              Provenance(steps, referendum, registry, root, p, a) && forall q | 0 <= q < p :: !Publishes(steps[q], referendum, root)
  {
    if p < |steps| && a < |steps| {
      PublishesInFields(steps, referendum, root, p);
      if steps[p].attestation.Some? { AttestsInFields(steps, registry, root, steps[p].attestation.value, a); }
      forall q: nat | q < p ensures PublishedAt(steps, referendum, root, q) <==> Publishes(steps[q], referendum, root) {
        PublishesInFields(steps, referendum, root, q);
      }
    }
  }

  lemma RootAcceptedInFields(steps: seq<Step>, referendum: Text, registry: Text, root: Text)
    ensures RootAccepted(steps, referendum, registry, root) <==> exists p: nat, a: nat :: ProvenAt(steps, referendum, registry, root, p, a)
  {
    RootAcceptedIff(steps, referendum, registry, root);
    if RootAccepted(steps, referendum, registry, root) {
      var p: nat, a: nat :| Provenance(steps, referendum, registry, root, p, a) && forall q | 0 <= q < p :: !Publishes(steps[q], referendum, root);
      ProvenInFields(steps, referendum, registry, root, p, a);
    }
    if p: nat, a: nat :| ProvenAt(steps, referendum, registry, root, p, a) {
      ProvenInFields(steps, referendum, registry, root, p, a);
    }
  }

  /** The provenance check, in the recorded fields alone: every referendum has its two addresses, and each root it
      accepts beyond its initial one was first published by a step that names another transaction, and that
      transaction attested the same root on the registry. */
  lemma ProvenanceInFields(m: Manifest)
    ensures ProvenanceAccepted(m) <==>
            forall k | 0 <= k < |m.referenda| ::
              var r := m.referenda[k];
              && r.contractAddress.Some? && r.contractAddress.value != []
              && r.registryContractBindingHex.Some? && Hex32(r.registryContractBindingHex.value)
              && r.registryContractAddress.Some? && Hex32(r.registryContractAddress.value)
              && forall root | root in r.acceptedRoots && root != r.initialRootField ::
                   exists p: nat, a: nat :: ProvenAt(m.steps, r.contractAddress.value, r.registryContractAddress.value, root, p, a)
  {
    forall k | 0 <= k < |m.referenda|
      ensures ReferendumAccepted(m, m.referenda[k]) <==>
              var r := m.referenda[k];
              && r.contractAddress.Some? && r.contractAddress.value != []
              && r.registryContractBindingHex.Some? && Hex32(r.registryContractBindingHex.value)
              && r.registryContractAddress.Some? && Hex32(r.registryContractAddress.value)
              && forall root | root in r.acceptedRoots && root != r.initialRootField ::
                   exists p: nat, a: nat :: ProvenAt(m.steps, r.contractAddress.value, r.registryContractAddress.value, root, p, a)
    {
      ReferendumInFields(m, m.referenda[k]);
    }
  }

  lemma ReferendumInFields(m: Manifest, r: Referendum)
    ensures r.contractAddress.Some? && r.registryContractAddress.Some? ==>
            ((forall i | 0 <= i < |r.acceptedRoots| && r.acceptedRoots[i] != r.initialRootField ::
                RootAccepted(m.steps, r.contractAddress.value, r.registryContractAddress.value, r.acceptedRoots[i])) <==>
             (forall root | root in r.acceptedRoots && root != r.initialRootField ::
                exists p: nat, a: nat :: ProvenAt(m.steps, r.contractAddress.value, r.registryContractAddress.value, root, p, a)))
  {
    if r.contractAddress.Some? && r.registryContractAddress.Some? {
      var referendum, registry := r.contractAddress.value, r.registryContractAddress.value;
      forall i | 0 <= i < |r.acceptedRoots|
        ensures RootAccepted(m.steps, referendum, registry, r.acceptedRoots[i]) <==>
                exists p: nat, a: nat :: ProvenAt(m.steps, referendum, registry, r.acceptedRoots[i], p, a)
      {
        RootAcceptedInFields(m.steps, referendum, registry, r.acceptedRoots[i]);
      }
      forall i | 0 <= i < |r.acceptedRoots| ensures r.acceptedRoots[i] in r.acceptedRoots {}
    }
  }

  /** A 32-byte address is 64 hexadecimal digits of either case, with or without the prefix. */
  lemma HexDigits(t: Text)
    ensures Hex32(t) <==>
            && (|t| == 64 || (|t| == 66 && t[0] == 48 && (t[1] == 120 || t[1] == 88)))
            && forall i | |t| - 64 <= i < |t| :: 48 <= t[i] <= 57 || 97 <= t[i] <= 102 || 65 <= t[i] <= 70
  {
    var digits := Unprefixed(t);
    if |digits| == 64 {
      var n := |t| - 64;
      assert n == |t| - |digits| && forall i | 0 <= i < 64 :: digits[i] == t[i + n];
      if Hex32(t) { forall i | n <= i < |t| ensures HexUnit(t[i]) { assert HexUnit(digits[i - n]); } }
      if forall i | n <= i < |t| :: HexUnit(t[i]) { forall i | 0 <= i < 64 ensures HexUnit(digits[i]) { assert HexUnit(t[i + n]); } }
    }
  }

  /** Step `k` is the first of its milestone, and its confirmed receipt `r` is of a vote by this circuit on this
      contract and network. */
  predicate ReceiptAt(m: Manifest, address: Text, id: StepId, circuit: Text, k: nat, r: RelayTypes.Receipt)
  {
    && k < |m.steps| && m.steps[k].id == id && (forall j | 0 <= j < k :: m.steps[j].id != id)
    && (m.steps[k].status == Confirmed || m.steps[k].status == Reconciled) && m.steps[k].receipt == Some(StepReceipt(true, r))
    && RelayTypes.Sanitize(r).Some? && r.action == RelayTypes.Vote && r.network == m.network && r.circuit == circuit
    && !RelayTypes.Blank(r.transactionId) && SameContract(r.contractAddress, address)
  }

  lemma ReceiptInFields(m: Manifest, address: Text, id: StepId, r: RelayTypes.Receipt)
    ensures LifecycleReceipt(m, address, id) == Some(r) <==> exists k: nat :: ReceiptAt(m, address, id, Circuit(id), k, r)
  {
    var found := Find(m.steps, (s: Step) => s.id == id);
    SameContractIff(r.contractAddress, address);
    if LifecycleReceipt(m, address, id) == Some(r) {
      assert ReceiptAt(m, address, id, Circuit(id), found.value, r);
    }
    if k: nat :| ReceiptAt(m, address, id, Circuit(id), k, r) {
      assert found == Some(k);
    }
  }

  predicate CalledBy(id: StepId, circuit: Text)
  {
    match id
    case Cast => circuit == U("castVote")
    case Close => circuit == U("closeVote")
    case Reveal => circuit == U("revealVote")
    case Finalize => circuit == U("finalizeVote")
    case _ => false
  }

  lemma CircuitIsCalled(id: StepId, circuit: Text)
    requires CalledBy(id, circuit)
    ensures circuit == Circuit(id)
  {
  }

  /** What counts as the receipt of each milestone, in the recorded fields alone. */
  lemma ReceiptsInFields(m: Manifest, address: Text, id: StepId, circuit: Text, r: RelayTypes.Receipt)
    requires CalledBy(id, circuit)
    ensures LifecycleReceipt(m, address, id) == Some(r) <==> exists k: nat :: ReceiptAt(m, address, id, circuit, k, r)
  {
    CircuitIsCalled(id, circuit);
    ReceiptInFields(m, address, id, r);
  }
}
