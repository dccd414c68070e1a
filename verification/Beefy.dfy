/** The BEEFY light client: imports commitments signed by a quorum of the current validator set. */
module BeefyClient {
  import opened LaneTypes
  import opened RingBuffers

  type Hash(==, !new)
  type Validator(==, !new)
  type Signature(==, !new)
  type MmrProof(!new)

  datatype AuthoritySetInfo = AuthoritySetInfo(id: nat, len: nat, keysetCommitment: Hash)

  datatype ValidatorSet = ValidatorSet(id: nat, validators: seq<Validator>)

  datatype Commitment = Commitment(blockNumber: nat, validatorSetId: nat, mmrRoot: Option<Hash>)

  datatype SignedCommitment = SignedCommitment(commitment: Commitment, signatures: seq<Option<Signature>>)

  datatype MmrLeaf = MmrLeaf(parent: (nat, Hash), nextAuthoritySet: AuthoritySetInfo)

  datatype ImportedCommitment = ImportedCommitment(parent: (nat, Hash), mmrRoot: Hash)

  datatype BeefyError =
    | Halted
    | NotInitialized
    | AlreadyInitialized
    | InvalidInitialAuthoritySet
    | TooManyRequests
    | OldCommitment
    | InvalidCommitmentValidatorSetId
    | InvalidValidatorSetId
    | InvalidCommitmentSignaturesLen
    | InvalidValidatorSetLen
    | InvalidValidatorSetRoot
    | NotEnoughCorrectSignatures
    | MmrRootMissingFromCommitment
    | MmrProofVerificationFailed

  /** Configuration of the pallet, with cryptography left abstract. */
  datatype Chain = Chain(
    verifySignature: (Validator, Signature, Commitment) -> bool,
    merkleRoot: seq<Validator> -> Hash,
    verifyLeaf: (MmrLeaf, MmrProof, Hash) -> bool,
    maxRequests: nat,
    commitmentsToKeep: nat)

  // ---------- Signatures ----------

  /** Number of correct signatures that a set of `len` validators must provide. */
  function SignaturesRequired(len: nat): nat {
    len - Max(len - 1, 0) / 3
  }

  /** Position `i` carries a correct signature of the validator at that position. */
  predicate SignedAt(chain: Chain, signed: SignedCommitment, validators: seq<Validator>, i: nat) {
    && i < |validators| && i < |signed.signatures|
    && signed.signatures[i].Some?
    && chain.verifySignature(validators[i], signed.signatures[i].value, signed.commitment)
  }

  ghost function SignedPositions(chain: Chain, signed: SignedCommitment, validators: seq<Validator>, upTo: nat)
    : set<nat>
  {
    set i: nat | i < upTo && SignedAt(chain, signed, validators, i)
  }

  /** All positions with a correct signature. */
  ghost function Signers(chain: Chain, signed: SignedCommitment, validators: seq<Validator>): set<nat> {
    SignedPositions(chain, signed, validators, |validators|)
  }

  lemma OneMorePosition(chain: Chain, signed: SignedCommitment, validators: seq<Validator>, i: nat)
    ensures |SignedPositions(chain, signed, validators, i + 1)|
         == |SignedPositions(chain, signed, validators, i)|
            + if SignedAt(chain, signed, validators, i) then 1 else 0
  {
    var before := SignedPositions(chain, signed, validators, i);
    var after := SignedPositions(chain, signed, validators, i + 1);
    assert after == if SignedAt(chain, signed, validators, i) then before + {i} else before;
  }

  /** The loop stops at the quorum, yet accepts exactly the commitments that have one. */
  method VerifySignatures(chain: Chain, signed: SignedCommitment, authoritySet: ValidatorSet)
    returns (failure: Option<BeefyError>)
    ensures var validators := authoritySet.validators;
            failure == if |signed.signatures| != |validators| then Some(InvalidCommitmentSignaturesLen)
                       else if |Signers(chain, signed, validators)| >= SignaturesRequired(|validators|) then None
                       else Some(NotEnoughCorrectSignatures)
  {
    var validators := authoritySet.validators;
    if |signed.signatures| != |validators| {
      return Some(InvalidCommitmentSignaturesLen);
    }
    ghost var required := SignaturesRequired(|validators|);
    var missing := SignaturesRequired(|validators|);
    var i := 0;
    while i < |validators|
      invariant i <= |validators|
      invariant missing > 0 || i == |validators| == 0
      invariant missing + |SignedPositions(chain, signed, validators, i)| == required
    {
      OneMorePosition(chain, signed, validators, i);
      if SignedAt(chain, signed, validators, i) {
        missing := Max(missing - 1, 0);
        if missing == 0 {
          SubsetIsSmaller(SignedPositions(chain, signed, validators, i + 1), Signers(chain, signed, validators));
          break;
        }
      }
      i := i + 1;
    }
    if missing != 0 {
      return Some(NotEnoughCorrectSignatures);
    }
    return None;
  }

  // ---------- Commitments ----------

  function AuthoritySetFailure(chain: Chain, info: AuthoritySetInfo, authoritySet: ValidatorSet): Option<BeefyError> {
    if authoritySet.id != info.id then Some(InvalidValidatorSetId)
    else if |authoritySet.validators| != info.len then Some(InvalidValidatorSetLen)
    else if chain.merkleRoot(authoritySet.validators) != info.keysetCommitment then Some(InvalidValidatorSetRoot)
    else None
  }

  /** Why a commitment is refused under the given authority set, if it is. */
  ghost function CommitmentFailure(chain: Chain, signed: SignedCommitment, info: AuthoritySetInfo,
                                   authoritySet: ValidatorSet): Option<BeefyError>
  {
    if signed.commitment.validatorSetId != info.id then Some(InvalidCommitmentValidatorSetId)
    else if |signed.signatures| != info.len then Some(InvalidCommitmentSignaturesLen)
    else match AuthoritySetFailure(chain, info, authoritySet)
      case Some(e) => Some(e)
      case None =>
        if |Signers(chain, signed, authoritySet.validators)| < SignaturesRequired(info.len)
        then Some(NotEnoughCorrectSignatures)
        else if signed.commitment.mmrRoot == None then Some(MmrRootMissingFromCommitment)
        else None
  }

  /** The commitment, the list of validators and the authority set belong together. */
  predicate Fits(chain: Chain, signed: SignedCommitment, info: AuthoritySetInfo, authoritySet: ValidatorSet) {
    && signed.commitment.validatorSetId == info.id == authoritySet.id
    && |signed.signatures| == info.len == |authoritySet.validators|
    && chain.merkleRoot(authoritySet.validators) == info.keysetCommitment
  }

  /** More than two thirds of the validators signed; an empty set has nobody to sign. */
  ghost predicate HasQuorum(chain: Chain, signed: SignedCommitment, authoritySet: ValidatorSet) {
    var n := |authoritySet.validators|;
    n >= 1 ==> 3 * |Signers(chain, signed, authoritySet.validators)| > 2 * n
  }

  ghost predicate Endorsed(chain: Chain, signed: SignedCommitment, info: AuthoritySetInfo, authoritySet: ValidatorSet) {
    && Fits(chain, signed, info, authoritySet)
    && HasQuorum(chain, signed, authoritySet)
    && signed.commitment.mmrRoot.Some?
  }

  /** Exactly the endorsed commitments are accepted, and the first check that fails names the error. */
  lemma CommitmentAcceptedIff(chain: Chain, signed: SignedCommitment, info: AuthoritySetInfo,
                              authoritySet: ValidatorSet)
    ensures var failure := CommitmentFailure(chain, signed, info, authoritySet);
            var idFits := signed.commitment.validatorSetId == info.id;
            var lenFits := |signed.signatures| == info.len;
            && (failure == None <==> Endorsed(chain, signed, info, authoritySet))
            && (failure == Some(InvalidCommitmentValidatorSetId) <==> !idFits)
            && (failure == Some(InvalidCommitmentSignaturesLen) <==> idFits && !lenFits)
            && (failure == Some(InvalidValidatorSetId) <==> idFits && lenFits && authoritySet.id != info.id)
            && (failure == Some(InvalidValidatorSetLen) <==>
                idFits && lenFits && authoritySet.id == info.id && |authoritySet.validators| != info.len)
            && (failure == Some(InvalidValidatorSetRoot) <==>
                && idFits && lenFits && authoritySet.id == info.id && |authoritySet.validators| == info.len
                && chain.merkleRoot(authoritySet.validators) != info.keysetCommitment)
            && (failure == Some(NotEnoughCorrectSignatures) <==>
                Fits(chain, signed, info, authoritySet) && !HasQuorum(chain, signed, authoritySet))
            && (failure == Some(MmrRootMissingFromCommitment) <==>
                && Fits(chain, signed, info, authoritySet) && HasQuorum(chain, signed, authoritySet)
                && signed.commitment.mmrRoot.None?)
  {
    RequiredIsTwoThirdsPlusOne(info.len);
  }

  method VerifyCommitment(chain: Chain, signed: SignedCommitment, info: AuthoritySetInfo, authoritySet: ValidatorSet)
    returns (root: Result<Hash, BeefyError>)
    ensures match CommitmentFailure(chain, signed, info, authoritySet)
            case Some(e) => root == Err(e)
            case None => signed.commitment.mmrRoot.Some? && root == Ok(signed.commitment.mmrRoot.value)
    ensures root.Ok? <==> Endorsed(chain, signed, info, authoritySet)
  {
    CommitmentAcceptedIff(chain, signed, info, authoritySet);
    if signed.commitment.validatorSetId != info.id {
      return Err(InvalidCommitmentValidatorSetId);
    }
    if |signed.signatures| != info.len {
      return Err(InvalidCommitmentSignaturesLen);
    }
    var failure := AuthoritySetFailure(chain, info, authoritySet);
    if failure.Some? {
      return Err(failure.value);
    }
    failure := VerifySignatures(chain, signed, authoritySet);
    if failure.Some? {
      return Err(failure.value);
    }
    if signed.commitment.mmrRoot == None {
      return Err(MmrRootMissingFromCommitment);
    }
    return Ok(signed.commitment.mmrRoot.value);
  }

  /** The required number of signatures is two thirds, rounded down, plus one. */
  lemma RequiredIsTwoThirdsPlusOne(len: nat)
    ensures len >= 1 ==> SignaturesRequired(len) == 2 * len / 3 + 1
    ensures SignaturesRequired(0) == 0
  {
  }

  /** The positions of a set of `n` validators. */
  ghost function Positions(n: nat): (all: set<nat>)
    ensures forall i: nat :: i in all <==> i < n
    ensures |all| == n
  {
    if n == 0 then {} else Positions(n - 1) + {n - 1}
  }

  lemma QuorumArithmetic(n: nat, a: set<nat>, b: set<nat>)
    requires n >= 1
    requires forall i :: i in a + b ==> i < n
    requires |a| >= SignaturesRequired(n) && |b| >= SignaturesRequired(n)
    ensures |a * b| > (n - 1) / 3
  {
    SubsetIsSmaller(a + b, Positions(n));
    assert |a + b| == |a| + |b| - |a * b|;
  }

  /** Validator lists are told apart by their Merkle root. */
  ghost predicate RootsTellListsApart(chain: Chain) {
    forall v, w :: chain.merkleRoot(v) == chain.merkleRoot(w) ==> v == w
  }

  /**
   Any two commitments accepted under one authority set share more than a third of its positions;
   without collisions these positions hold the same validators, each of whom signed both.
   */
  lemma QuorumsIntersect(chain: Chain, info: AuthoritySetInfo, first: SignedCommitment, second: SignedCommitment,
                         firstSet: ValidatorSet, secondSet: ValidatorSet)
    requires info.len >= 1
    requires Endorsed(chain, first, info, firstSet) && Endorsed(chain, second, info, secondSet)
    ensures |Signers(chain, first, firstSet.validators) * Signers(chain, second, secondSet.validators)|
          > (info.len - 1) / 3
    ensures var shared := Signers(chain, first, firstSet.validators) * Signers(chain, second, secondSet.validators);
            RootsTellListsApart(chain) ==>
              forall i :: i in shared ==>
                && firstSet.validators[i] == secondSet.validators[i]
                && chain.verifySignature(firstSet.validators[i], first.signatures[i].value, first.commitment)
                && chain.verifySignature(firstSet.validators[i], second.signatures[i].value, second.commitment)
  {
    RequiredIsTwoThirdsPlusOne(info.len);
    QuorumArithmetic(info.len, Signers(chain, first, firstSet.validators),
                     Signers(chain, second, secondSet.validators));
  }

  // ---------- Imports ----------

  datatype State = State(
    halted: bool,
    requestCount: nat,
    best: Option<nat>,
    commitments: Ring<nat, ImportedCommitment>,
    authoritySet: AuthoritySetInfo)

  /** A submitted commitment with everything needed to check it. */
  datatype Submission = Submission(signed: SignedCommitment, validators: ValidatorSet, leaf: MmrLeaf, proof: MmrProof)

  ghost function Refusal(chain: Chain, s: State, x: Submission): Option<BeefyError> {
    if s.halted then Some(Halted)
    else if s.requestCount >= chain.maxRequests then Some(TooManyRequests)
    else if s.best == None then Some(NotInitialized)
    else if x.signed.commitment.blockNumber <= s.best.value then Some(OldCommitment)
    else match CommitmentFailure(chain, x.signed, s.authoritySet, x.validators)
      case Some(e) => Some(e)
      case None =>
        if !chain.verifyLeaf(x.leaf, x.proof, x.signed.commitment.mmrRoot.value) then Some(MmrProofVerificationFailed)
        else None
  }

  /** What it takes for a submission to be imported. */
  ghost predicate Importable(chain: Chain, s: State, x: Submission) {
    && !s.halted
    && s.requestCount < chain.maxRequests
    && s.best.Some? && x.signed.commitment.blockNumber > s.best.value
    && Endorsed(chain, x.signed, s.authoritySet, x.validators)
    && chain.verifyLeaf(x.leaf, x.proof, x.signed.commitment.mmrRoot.value)
  }

  /** Only what can be imported is not refused, and the first check that fails names the error. */
  lemma RefusedIff(chain: Chain, s: State, x: Submission)
    ensures var refusal := Refusal(chain, s, x);
            var open := !s.halted && s.requestCount < chain.maxRequests;
            var newer := open && s.best.Some? && x.signed.commitment.blockNumber > s.best.value;
            && (refusal == None <==> Importable(chain, s, x))
            && (refusal == Some(Halted) <==> s.halted)
            && (refusal == Some(TooManyRequests) <==> !s.halted && s.requestCount >= chain.maxRequests)
            && (refusal == Some(NotInitialized) <==> open && s.best.None?)
            && (refusal == Some(OldCommitment) <==>
                open && s.best.Some? && x.signed.commitment.blockNumber <= s.best.value)
            && (newer && !Endorsed(chain, x.signed, s.authoritySet, x.validators) ==>
                  refusal == CommitmentFailure(chain, x.signed, s.authoritySet, x.validators))
            && (refusal == Some(MmrProofVerificationFailed) <==>
                && newer && Endorsed(chain, x.signed, s.authoritySet, x.validators)
                && !chain.verifyLeaf(x.leaf, x.proof, x.signed.commitment.mmrRoot.value))
  {
    CommitmentAcceptedIff(chain, x.signed, s.authoritySet, x.validators);
  }

  ghost function EntryOf(x: Submission): Entry<nat, ImportedCommitment>
    requires x.signed.commitment.mmrRoot.Some?
  {
    Entry(x.signed.commitment.blockNumber, ImportedCommitment(x.leaf.parent, x.signed.commitment.mmrRoot.value))
  }

  ghost function AfterImport(chain: Chain, s: State, x: Submission): State
    requires chain.commitmentsToKeep > 0 && x.signed.commitment.mmrRoot.Some?
  {
    s.(requestCount := s.requestCount + 1,
       authoritySet := if x.leaf.nextAuthoritySet.id > s.authoritySet.id then x.leaf.nextAuthoritySet
                       else s.authoritySet,
       best := Some(x.signed.commitment.blockNumber),
       commitments := Insert(s.commitments, chain.commitmentsToKeep, EntryOf(x)))
  }

  class BeefyPallet {
    const chain: Chain
    var halted: bool
    var requestCount: nat
    /** Best block number and next position in the ring; present once the pallet is initialized. */
    var importedCommitmentsInfo: Option<(nat, nat)>
    var importedBlockNumbers: map<nat, nat>
    var importedCommitments: map<nat, ImportedCommitment>
    var currentAuthoritySetInfo: AuthoritySetInfo

    constructor (chain: Chain, placeholder: AuthoritySetInfo)
      ensures this.chain == chain
      ensures View() == State(true, 0, None, EmptyRing(), placeholder)
    {
      this.chain := chain;
      halted, requestCount, importedCommitmentsInfo := true, 0, None;
      importedBlockNumbers, importedCommitments := map[], map[];
      currentAuthoritySetInfo := placeholder;
    }

    function View(): State
      reads this
    {
      var (best, next) :=
        if importedCommitmentsInfo.Some?
        then (Some(importedCommitmentsInfo.value.0), importedCommitmentsInfo.value.1) else (None, 0);
      State(halted, requestCount, best, Ring(importedBlockNumbers, next, importedCommitments), currentAuthoritySetInfo)
    }

    method OnInitialize()
      modifies this`requestCount
      ensures requestCount == Max(old(requestCount) - 1, 0)
    {
      requestCount := Max(requestCount - 1, 0);
    }

    method Initialize(authoritySet: AuthoritySetInfo, bestBlockNumber: nat, startHalted: bool)
      returns (failure: Option<BeefyError>)
      modifies this
      ensures failure == if old(importedCommitmentsInfo).Some? then Some(AlreadyInitialized)
                         else if authoritySet.len == 0 then Some(InvalidInitialAuthoritySet)
                         else None
      ensures View() == if failure.Some? then old(View())
                        else old(View()).(halted := startHalted, best := Some(bestBlockNumber),
                                          authoritySet := authoritySet,
                                          commitments := old(View()).commitments.(pointer := 0))
    {
      if importedCommitmentsInfo.Some? {
        return Some(AlreadyInitialized);
      }
      if authoritySet.len == 0 {
        return Some(InvalidInitialAuthoritySet);
      }
      currentAuthoritySetInfo := authoritySet;
      halted := startHalted;
      importedCommitmentsInfo := Some((bestBlockNumber, 0));
      return None;
    }

    /** Imports a commitment. A refused submission changes nothing. */
    method SubmitCommitment(x: Submission) returns (failure: Option<BeefyError>)
      requires chain.commitmentsToKeep > 0
      modifies this
      ensures failure == Refusal(chain, old(View()), x)
      ensures failure.Some? ==> View() == old(View())
      ensures failure.None? ==>
                x.signed.commitment.mmrRoot.Some? && View() == AfterImport(chain, old(View()), x)
    {
      if halted {
        return Some(Halted);
      }
      if requestCount >= chain.maxRequests {
        return Some(TooManyRequests);
      }
      if importedCommitmentsInfo.None? {
        return Some(NotInitialized);
      }
      var (best, index) := importedCommitmentsInfo.value;
      var blockNumber := x.signed.commitment.blockNumber;
      if blockNumber <= best {
        return Some(OldCommitment);
      }
      var root := VerifyCommitment(chain, x.signed, currentAuthoritySetInfo, x.validators);
      if root.Err? {
        return Some(root.error);
      }
      if !chain.verifyLeaf(x.leaf, x.proof, root.value) {
        return Some(MmrProofVerificationFailed);
      }
      requestCount := requestCount + 1;
      if x.leaf.nextAuthoritySet.id > currentAuthoritySetInfo.id {
        currentAuthoritySetInfo := x.leaf.nextAuthoritySet;
      }
      var toPrune := if index in importedBlockNumbers then Some(importedBlockNumbers[index]) else None;
      importedCommitments := importedCommitments[blockNumber := ImportedCommitment(x.leaf.parent, root.value)];
      importedBlockNumbers := importedBlockNumbers[index := blockNumber];
      importedCommitmentsInfo := Some((blockNumber, (index + 1) % chain.commitmentsToKeep));
      if toPrune.Some? {
        importedCommitments := importedCommitments - {toPrune.value};
      }
      return None;
    }
  }
}

/** What holds of the BEEFY light client in every run. */
module BeefyRuns {
  import opened LaneTypes
  import opened RingBuffers
  import opened BeefyClient

  datatype Init = Init(authoritySet: AuthoritySetInfo, best: nat, halted: bool)

  datatype Action = BlockStart | Submit(submission: Submission) | SetHalted(halted: bool)

  /** An accepted submission and the authority set it was checked against. */
  datatype Import = Import(submission: Submission, checkedBy: AuthoritySetInfo)

  datatype Run = Run(state: State, imports: seq<Import>)

  ghost function After(chain: Chain, run: Run, a: Action): Run
    requires chain.commitmentsToKeep > 0
  {
    match a
    case BlockStart => run.(state := run.state.(requestCount := Max(run.state.requestCount - 1, 0)))
    case SetHalted(h) => run.(state := run.state.(halted := h))
    case Submit(x) =>
      if Refusal(chain, run.state, x).Some? then run
      else Run(AfterImport(chain, run.state, x), run.imports + [Import(x, run.state.authoritySet)])
  }

  ghost function ExecFrom(chain: Chain, run: Run, actions: seq<Action>): Run
    requires chain.commitmentsToKeep > 0
  {
    if actions == [] then run
    else After(chain, ExecFrom(chain, run, actions[..|actions| - 1]), actions[|actions| - 1])
  }

  ghost function Start(init: Init): Run {
    Run(State(init.halted, 0, Some(init.best), EmptyRing(), init.authoritySet), [])
  }

  ghost function Starts(actions: seq<Action>): nat {
    if actions == [] then 0
    else Starts(actions[..|actions| - 1]) + if actions[|actions| - 1].BlockStart? then 1 else 0
  }

  // ---------- What a run should look like ----------

  ghost predicate AllRooted(imports: seq<Import>) {
    forall i :: 0 <= i < |imports| ==> imports[i].submission.signed.commitment.mmrRoot.Some?
  }

  ghost function Entries(imports: seq<Import>): (es: seq<Entry<nat, ImportedCommitment>>)
    requires AllRooted(imports)
    ensures |es| == |imports|
  {
    seq(|imports|, i requires 0 <= i < |imports| =>
        var x := imports[i].submission;
        Entry(x.signed.commitment.blockNumber, ImportedCommitment(x.leaf.parent, x.signed.commitment.mmrRoot.value)))
  }

  function NumberOf(x: Import): nat {
    x.submission.signed.commitment.blockNumber
  }

  /** Numbers rise with every import, starting above the initial best block. */
  ghost predicate Rising(init: Init, imports: seq<Import>, best: nat) {
    && init.best <= best
    && (forall i :: 0 <= i < |imports| ==> init.best < NumberOf(imports[i]) <= best)
    && (forall i, j :: 0 <= i < j < |imports| ==> NumberOf(imports[i]) < NumberOf(imports[j]))
  }

  /** The authority set in force after the imports: a proved successor set replaces a set with a smaller id. */
  ghost function SetAfter(init: Init, imports: seq<Import>): AuthoritySetInfo {
    if imports == [] then init.authoritySet
    else
      var before := SetAfter(init, imports[..|imports| - 1]);
      var next := imports[|imports| - 1].submission.leaf.nextAuthoritySet;
      if next.id > before.id then next else before
  }

  /** The checks every imported commitment has passed under the set in force. */
  ghost predicate WasVerified(chain: Chain, x: Import, inForce: AuthoritySetInfo) {
    && x.checkedBy == inForce
    && Endorsed(chain, x.submission.signed, inForce, x.submission.validators)
    && chain.verifyLeaf(x.submission.leaf, x.submission.proof, x.submission.signed.commitment.mmrRoot.value)
  }

  ghost predicate EachWasVerified(chain: Chain, init: Init, imports: seq<Import>) {
    forall i :: 0 <= i < |imports| ==> WasVerified(chain, imports[i], SetAfter(init, imports[..i]))
  }

  ghost predicate Inv(chain: Chain, init: Init, run: Run)
    requires chain.commitmentsToKeep > 0
  {
    && AllRooted(run.imports)
    && run.state.best.Some? && Rising(init, run.imports, run.state.best.value)
    && run.state.authoritySet == SetAfter(init, run.imports)
    && EachWasVerified(chain, init, run.imports)
    && HoldsLast(run.state.commitments, chain.commitmentsToKeep, Entries(run.imports))
  }

  lemma ImportKeepsRing(chain: Chain, init: Init, run: Run, x: Submission)
    requires chain.commitmentsToKeep > 0 && AllRooted(run.imports)
    requires run.state.best.Some? && Rising(init, run.imports, run.state.best.value)
    requires HoldsLast(run.state.commitments, chain.commitmentsToKeep, Entries(run.imports))
    requires run.state.best.value < x.signed.commitment.blockNumber && x.signed.commitment.mmrRoot.Some?
    ensures var imports := run.imports + [Import(x, run.state.authoritySet)];
            && AllRooted(imports)
            && Rising(init, imports, x.signed.commitment.blockNumber)
            && HoldsLast(Insert(run.state.commitments, chain.commitmentsToKeep, EntryOf(x)), chain.commitmentsToKeep,
                         Entries(imports))
  {
    var imports := run.imports + [Import(x, run.state.authoritySet)];
    assert forall i :: 0 <= i < |run.imports| ==> imports[i] == run.imports[i];
    assert Entries(imports) == Entries(run.imports) + [EntryOf(x)];
    forall i, j | 0 <= i < j < |imports| ensures Entries(imports)[i].key != Entries(imports)[j].key {
      assert Entries(imports)[i].key == NumberOf(imports[i]) && Entries(imports)[j].key == NumberOf(imports[j]);
    }
    InsertKeepsLast(run.state.commitments, chain.commitmentsToKeep, Entries(run.imports), EntryOf(x));
  }

  lemma ImportKeepsVerified(chain: Chain, init: Init, imports: seq<Import>, x: Import)
    requires EachWasVerified(chain, init, imports) && WasVerified(chain, x, SetAfter(init, imports))
    ensures EachWasVerified(chain, init, imports + [x])
  {
    var all := imports + [x];
    forall i | 0 <= i < |all| ensures all[..i] == if i < |imports| then imports[..i] else imports {
    }
  }

  lemma SetAfterImport(init: Init, imports: seq<Import>, x: Import)
    ensures var before, next := SetAfter(init, imports), x.submission.leaf.nextAuthoritySet;
            SetAfter(init, imports + [x]) == if next.id > before.id then next else before
  {
    assert (imports + [x])[..|imports|] == imports;
  }

  lemma AcceptedWasVerified(chain: Chain, state: State, x: Submission)
    requires Refusal(chain, state, x) == None
    ensures WasVerified(chain, Import(x, state.authoritySet), state.authoritySet)
  {
    CommitmentAcceptedIff(chain, x.signed, state.authoritySet, x.validators);
  }

  lemma ImportKeepsInv(chain: Chain, init: Init, run: Run, x: Submission)
    requires chain.commitmentsToKeep > 0 && Inv(chain, init, run) && Refusal(chain, run.state, x) == None
    ensures Inv(chain, init, Run(AfterImport(chain, run.state, x), run.imports + [Import(x, run.state.authoritySet)]))
  {
    ImportKeepsRing(chain, init, run, x);
    AcceptedWasVerified(chain, run.state, x);
    ImportKeepsVerified(chain, init, run.imports, Import(x, run.state.authoritySet));
    SetAfterImport(init, run.imports, Import(x, run.state.authoritySet));
  }

  lemma StepKeepsInv(chain: Chain, init: Init, run: Run, a: Action)
    requires chain.commitmentsToKeep > 0 && Inv(chain, init, run)
    ensures Inv(chain, init, After(chain, run, a))
  {
    if a.Submit? && Refusal(chain, run.state, a.submission) == None {
      ImportKeepsInv(chain, init, run, a.submission);
    }
  }

  lemma {:induction false} RunKeepsInv(chain: Chain, init: Init, actions: seq<Action>)
    requires chain.commitmentsToKeep > 0
    ensures Inv(chain, init, ExecFrom(chain, Start(init), actions))
  {
    if actions == [] {
      SlotWraps(0, chain.commitmentsToKeep);
    } else {
      RunKeepsInv(chain, init, actions[..|actions| - 1]);
      StepKeepsInv(chain, init, ExecFrom(chain, Start(init), actions[..|actions| - 1]), actions[|actions| - 1]);
    }
  }

  // ---------- Theorems ----------

  /** Exactly the last `commitmentsToKeep` commitments are stored, under strictly rising block numbers. */
  lemma StoresLastCommitments(chain: Chain, init: Init, actions: seq<Action>)
    requires chain.commitmentsToKeep > 0
    ensures var run := ExecFrom(chain, Start(init), actions);
            && AllRooted(run.imports)
            && HoldsLast(run.state.commitments, chain.commitmentsToKeep, Entries(run.imports))
            && run.state.best.Some? && Rising(init, run.imports, run.state.best.value)
            && (run.imports != [] ==> run.state.best.value in run.state.commitments.items)
  {
    RunKeepsInv(chain, init, actions);
    BestIsLast(chain, init, actions);
    var run := ExecFrom(chain, Start(init), actions);
    if run.imports != [] {
      var es := Entries(run.imports);
      assert es[|es| - 1].key in run.state.commitments.items;
    }
  }

  lemma {:induction false} BestIsLast(chain: Chain, init: Init, actions: seq<Action>)
    requires chain.commitmentsToKeep > 0
    ensures var run := ExecFrom(chain, Start(init), actions);
            run.state.best == Some(if run.imports == [] then init.best else NumberOf(run.imports[|run.imports| - 1]))
  {
    if actions != [] {
      BestIsLast(chain, init, actions[..|actions| - 1]);
    }
  }

  lemma {:induction false} SetComesFromLeaf(init: Init, imports: seq<Import>)
    ensures || SetAfter(init, imports) == init.authoritySet
            || exists j :: 0 <= j < |imports| && imports[j].submission.leaf.nextAuthoritySet == SetAfter(init, imports)
  {
    if imports != [] {
      var last := |imports| - 1;
      SetComesFromLeaf(init, imports[..last]);
      if imports[last].submission.leaf.nextAuthoritySet != SetAfter(init, imports)
         && SetAfter(init, imports) != init.authoritySet {
        var j :| 0 <= j < last && imports[..last][j].submission.leaf.nextAuthoritySet == SetAfter(init, imports);
        assert imports[j].submission.leaf.nextAuthoritySet == SetAfter(init, imports);
      }
    }
  }

  /**
   An empty set demands no signature: an import has a valid signer if and only if the set it was
   checked against is not empty. The initial set never is, so an unsigned import follows the import
   of a leaf that put an empty set in force.
   */
  lemma ImportIsSignedIffSetNotEmpty(chain: Chain, init: Init, actions: seq<Action>, i: nat)
    requires chain.commitmentsToKeep > 0 && init.authoritySet.len >= 1
    requires i < |ExecFrom(chain, Start(init), actions).imports|
    ensures var imports := ExecFrom(chain, Start(init), actions).imports;
            var x := imports[i];
            && (Signers(chain, x.submission.signed, x.submission.validators.validators) != {} <==> x.checkedBy.len >= 1)
            && (x.checkedBy.len == 0 ==>
                  exists j :: 0 <= j < i && imports[j].submission.leaf.nextAuthoritySet == x.checkedBy)
  {
    RunKeepsInv(chain, init, actions);
    var imports := ExecFrom(chain, Start(init), actions).imports;
    var x := imports[i];
    assert WasVerified(chain, x, SetAfter(init, imports[..i]));
    SetComesFromLeaf(init, imports[..i]);
    if x.checkedBy.len == 0 {
      var j :| 0 <= j < i && imports[..i][j].submission.leaf.nextAuthoritySet == x.checkedBy;
      assert imports[j].submission.leaf.nextAuthoritySet == x.checkedBy;
    }
  }

  /** The first of two submissions proves an empty successor set. */
  ghost predicate ProvesEmptySet(chain: Chain, init: Init, x: Submission) {
    && Refusal(chain, Start(init).state, x) == None
    && x.leaf.nextAuthoritySet.id > init.authoritySet.id
    && x.leaf.nextAuthoritySet.len == 0 && x.leaf.nextAuthoritySet.keysetCommitment == chain.merkleRoot([])
  }

  /** The second is signed by nobody. */
  ghost predicate UnsignedAfter(chain: Chain, x: Submission, y: Submission) {
    && y.signed.signatures == [] && y.validators == ValidatorSet(x.leaf.nextAuthoritySet.id, [])
    && y.signed.commitment.validatorSetId == x.leaf.nextAuthoritySet.id
    && y.signed.commitment.blockNumber > x.signed.commitment.blockNumber
    && y.signed.commitment.mmrRoot.Some?
    && chain.verifyLeaf(y.leaf, y.proof, y.signed.commitment.mmrRoot.value)
  }

  /** And this does happen: after a leaf with an empty successor set a commitment without signatures is imported. */
  lemma UnsignedCommitmentIsImported(chain: Chain, init: Init, x: Submission, y: Submission)
    requires chain.commitmentsToKeep > 0 && chain.maxRequests >= 2 && init.authoritySet.len >= 1
    requires ProvesEmptySet(chain, init, x) && UnsignedAfter(chain, x, y)
    ensures ExecFrom(chain, Start(init), [Submit(x), Submit(y)]).imports
         == [Import(x, init.authoritySet), Import(y, x.leaf.nextAuthoritySet)]
    ensures Signers(chain, y.signed, y.validators.validators) == {}
  {
    var one: seq<Action> := [Submit(x)];
    var run := ExecFrom(chain, Start(init), one);
    assert one[..0] == [] && [Submit(x), Submit(y)][..1] == one;
    assert ExecFrom(chain, Start(init), one[..0]) == Start(init);
    assert run == After(chain, Start(init), Submit(x));
    assert CommitmentFailure(chain, y.signed, run.state.authoritySet, y.validators) == None;
  }

  /** Two imports checked against the same authority set share more than a third of its positions. */
  lemma ImportsShareSigners(chain: Chain, init: Init, actions: seq<Action>, i: nat, j: nat)
    requires chain.commitmentsToKeep > 0
    requires var imports := ExecFrom(chain, Start(init), actions).imports;
             i < |imports| && j < |imports| && imports[i].checkedBy == imports[j].checkedBy
             && imports[i].checkedBy.len >= 1
    ensures var imports := ExecFrom(chain, Start(init), actions).imports;
            var x, y := imports[i].submission, imports[j].submission;
            |Signers(chain, x.signed, x.validators.validators) * Signers(chain, y.signed, y.validators.validators)|
            > (imports[i].checkedBy.len - 1) / 3
    ensures var imports := ExecFrom(chain, Start(init), actions).imports;
            RootsTellListsApart(chain) ==>
              imports[i].submission.validators.validators == imports[j].submission.validators.validators
  {
    RunKeepsInv(chain, init, actions);
    var imports := ExecFrom(chain, Start(init), actions).imports;
    assert WasVerified(chain, imports[i], imports[i].checkedBy) && WasVerified(chain, imports[j], imports[j].checkedBy);
    QuorumsIntersect(chain, imports[i].checkedBy, imports[i].submission.signed, imports[j].submission.signed,
                     imports[i].submission.validators, imports[j].submission.validators);
  }

  /** Authority hand-off: every commitment was verified under the set that the earlier imports put in force. */
  lemma HandOffIsUnbroken(chain: Chain, init: Init, actions: seq<Action>)
    requires chain.commitmentsToKeep > 0
    ensures var run := ExecFrom(chain, Start(init), actions);
            && run.state.authoritySet == SetAfter(init, run.imports)
            && EachWasVerified(chain, init, run.imports)
  {
    RunKeepsInv(chain, init, actions);
  }

  /** The set in force carries the largest id proved so far, so ids never go back. */
  lemma {:induction false} SetIdIsLargest(init: Init, imports: seq<Import>)
    ensures init.authoritySet.id <= SetAfter(init, imports).id
    ensures forall i :: 0 <= i < |imports| ==>
              imports[i].submission.leaf.nextAuthoritySet.id <= SetAfter(init, imports).id
  {
    if imports != [] {
      SetIdIsLargest(init, imports[..|imports| - 1]);
    }
  }

  lemma {:induction false} RequestCountPaysForImports(chain: Chain, run: Run, actions: seq<Action>)
    requires chain.commitmentsToKeep > 0 && run.state.requestCount <= chain.maxRequests
    ensures var run' := ExecFrom(chain, run, actions);
            && run'.state.requestCount <= chain.maxRequests
            && |run.imports| <= |run'.imports|
            && run.state.requestCount + (|run'.imports| - |run.imports|) <= run'.state.requestCount + Starts(actions)
  {
    if actions != [] {
      RequestCountPaysForImports(chain, run, actions[..|actions| - 1]);
    }
  }

  lemma {:induction false} ExecSplits(chain: Chain, run: Run, actions: seq<Action>, more: seq<Action>)
    requires chain.commitmentsToKeep > 0
    ensures ExecFrom(chain, run, actions + more) == ExecFrom(chain, ExecFrom(chain, run, actions), more)
  {
    if more == [] {
      assert actions + more == actions;
    } else {
      assert (actions + more)[..|actions + more| - 1] == actions + more[..|more| - 1];
      ExecSplits(chain, run, actions, more[..|more| - 1]);
    }
  }

  /** In any window of any run at most `maxRequests` plus the number of block starts commitments are imported. */
  lemma ImportsAreRateLimited(chain: Chain, init: Init, actions: seq<Action>, window: seq<Action>)
    requires chain.commitmentsToKeep > 0
    ensures |ExecFrom(chain, Start(init), actions + window).imports| - |ExecFrom(chain, Start(init), actions).imports|
         <= chain.maxRequests + Starts(window)
  {
    RequestCountPaysForImports(chain, Start(init), actions);
    RequestCountPaysForImports(chain, ExecFrom(chain, Start(init), actions), window);
    ExecSplits(chain, Start(init), actions, window);
  }

  /** A submission adds one import if it can be imported, and otherwise changes nothing. */
  lemma SubmissionIsImportedIff(chain: Chain, init: Init, actions: seq<Action>, x: Submission)
    requires chain.commitmentsToKeep > 0
    ensures var run := ExecFrom(chain, Start(init), actions);
            var run' := ExecFrom(chain, Start(init), actions + [Submit(x)]);
            if Importable(chain, run.state, x) then
              && run'.imports == run.imports + [Import(x, run.state.authoritySet)]
              && run'.state.halted == run.state.halted && run'.state.requestCount == run.state.requestCount + 1
            else run' == run
  {
    assert (actions + [Submit(x)])[..|actions|] == actions;
    RefusedIff(chain, ExecFrom(chain, Start(init), actions).state, x);
  }

  ghost predicate NoResume(actions: seq<Action>) {
    forall i :: 0 <= i < |actions| ==> actions[i] != SetHalted(false)
  }

  lemma {:induction false} HaltedImportsNothing(chain: Chain, run: Run, actions: seq<Action>)
    requires chain.commitmentsToKeep > 0 && run.state.halted && NoResume(actions)
    ensures var run' := ExecFrom(chain, run, actions);
            && run'.imports == run.imports
            && run'.state == run.state.(requestCount := Max(run.state.requestCount - Starts(actions), 0))
  {
    if actions != [] {
      HaltedImportsNothing(chain, run, actions[..|actions| - 1]);
    }
  }

  /** From a halt until the pallet is resumed nothing is imported; only the request counter runs down. */
  lemma HaltStopsImports(chain: Chain, init: Init, actions: seq<Action>, more: seq<Action>)
    requires chain.commitmentsToKeep > 0 && NoResume(more)
    ensures var run := ExecFrom(chain, Start(init), actions);
            var run' := ExecFrom(chain, Start(init), actions + [SetHalted(true)] + more);
            && run'.imports == run.imports
            && run'.state == run.state.(halted := true,
                                        requestCount := Max(run.state.requestCount - Starts(more), 0))
  {
    var halt := actions + [SetHalted(true)];
    assert halt[..|actions|] == actions;
    ExecSplits(chain, Start(init), halt, more);
    HaltedImportsNothing(chain, ExecFrom(chain, Start(init), halt), more);
  }

  /** Within a block every import costs one request, exactly. */
  lemma {:induction false} RequestsCountImports(chain: Chain, run: Run, actions: seq<Action>)
    requires chain.commitmentsToKeep > 0 && Starts(actions) == 0
    ensures var run' := ExecFrom(chain, run, actions);
            run'.state.requestCount == run.state.requestCount + |run'.imports| - |run.imports|
  {
    if actions != [] {
      RequestsCountImports(chain, run, actions[..|actions| - 1]);
    }
  }
}
