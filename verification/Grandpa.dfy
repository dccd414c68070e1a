/** The GRANDPA light client: imports headers finalized by the current authority set of the bridged chain. */
module GrandpaClient {
  import opened LaneTypes
  import opened RingBuffers

  type Hash(==, !new)
  type Authority(==, !new)
  type Justification(!new)

  datatype ScheduledChange = ScheduledChange(nextAuthorities: seq<Authority>, delay: nat)

  datatype Header = Header(number: nat, stateRoot: Hash, forcedChange: bool, scheduledChange: Option<ScheduledChange>)

  datatype AuthoritySet = AuthoritySet(authorities: seq<Authority>, setId: nat)

  datatype HeaderId = HeaderId(number: nat, hash: Hash)

  /** The part of a header that is kept. */
  datatype StoredHeader = StoredHeader(number: nat, stateRoot: Hash)

  datatype GrandpaError =
    | Halted
    | NotInitialized
    | AlreadyInitialized
    | OldHeader
    | InvalidAuthoritySetId
    | InvalidAuthoritySet
    | InvalidJustification
    | UnsupportedScheduledChange
    | TooManyAuthoritiesInSet
    | FreeHeadersLimitExceeded
    | BelowFreeHeaderInterval

  /** Configuration of the pallet, with hashing, justification checks and size limits left abstract. */
  datatype Chain = Chain(
    hash: Header -> Hash,
    verify: (Justification, HeaderId, AuthoritySet) -> Option<GrandpaError>,
    fitsLimits: (Header, Justification) -> bool,
    headersToKeep: nat,
    maxFreeHeadersPerBlock: nat,
    freeHeadersInterval: Option<nat>,
    maxAuthorities: nat)

  datatype State = State(
    halted: bool,
    best: Option<HeaderId>,
    headers: Ring<Hash, StoredHeader>,
    authoritySet: AuthoritySet,
    freeHeadersRemaining: Option<nat>)

  function Stored(header: Header): StoredHeader {
    StoredHeader(header.number, header.stateRoot)
  }

  // ---------- Checks ----------

  /** How far the header is ahead of the best one, if the submission is not obsolete. */
  function CheckObsolete(s: State, number: nat, setId: Option<nat>): Result<nat, GrandpaError> {
    if s.best == None then Err(NotInitialized)
    else if number <= s.best.value.number then Err(OldHeader)
    else if setId.Some? && setId.value != s.authoritySet.setId then Err(InvalidAuthoritySetId)
    else Ok(number - s.best.value.number)
  }

  function HasFreeHeaderSlots(s: State): bool {
    s.freeHeadersRemaining == None || s.freeHeadersRemaining.value > 0
  }

  function CheckObsoleteFromExtension(chain: Chain, s: State, header: Header, setId: Option<nat>, freeExpected: bool)
    : Result<nat, GrandpaError>
  {
    match CheckObsolete(s, header.number, setId)
    case Err(e) => Err(e)
    case Ok(improvedBy) =>
      if !freeExpected then Ok(improvedBy)
      else if !HasFreeHeaderSlots(s) then Err(FreeHeadersLimitExceeded)
      else if header.scheduledChange.None? && chain.freeHeadersInterval.Some?
              && improvedBy < chain.freeHeadersInterval.value
      then Err(BelowFreeHeaderInterval)
      else Ok(improvedBy)
  }

  /** The authority set after the header, if it changes. */
  function Enacted(chain: Chain, header: Header, currentSetId: nat): Result<Option<AuthoritySet>, GrandpaError> {
    if header.forcedChange then Err(UnsupportedScheduledChange)
    else match header.scheduledChange
      case None => Ok(None)
      case Some(change) =>
        if change.delay != 0 then Err(UnsupportedScheduledChange)
        else if |change.nextAuthorities| > chain.maxAuthorities then Err(TooManyAuthoritiesInSet)
        else Ok(Some(AuthoritySet(change.nextAuthorities, currentSetId + 1)))
  }

  predicate MayRefundCallFee(chain: Chain, s: State, header: Header, justification: Justification, improvedBy: nat) {
    && s.freeHeadersRemaining.Some? && s.freeHeadersRemaining.value != 0
    && chain.fitsLimits(header, justification)
    && (header.scheduledChange.Some?
        || (chain.freeHeadersInterval.Some? && improvedBy >= chain.freeHeadersInterval.value))
  }

  /** The transaction extension, case by case. */
  lemma ExtensionAnswers(chain: Chain, s: State, header: Header, setId: Option<nat>, freeExpected: bool)
    ensures var answer := CheckObsoleteFromExtension(chain, s, header, setId, freeExpected);
            var newer := s.best.Some? && header.number > s.best.value.number;
            var current := newer && (setId.Some? ==> setId.value == s.authoritySet.setId);
            var close := current && header.scheduledChange.None? && chain.freeHeadersInterval.Some?
                         && header.number - s.best.value.number < chain.freeHeadersInterval.value;
            && (answer.Ok? <==> current && (freeExpected ==> s.freeHeadersRemaining != Some(0) && !close))
            && (answer.Ok? ==> answer.value == header.number - s.best.value.number)
            && (answer == Err(NotInitialized) <==> s.best.None?)
            && (answer == Err(OldHeader) <==> s.best.Some? && !newer)
            && (answer == Err(InvalidAuthoritySetId) <==> newer && !current)
            && (answer == Err(FreeHeadersLimitExceeded) <==>
                current && freeExpected && s.freeHeadersRemaining == Some(0))
            && (answer == Err(BelowFreeHeaderInterval) <==>
                close && freeExpected && s.freeHeadersRemaining != Some(0))
  {
  }

  // ---------- Effects ----------

  function AfterInsert(chain: Chain, s: State, header: Header): State
    requires chain.headersToKeep > 0
  {
    s.(best := Some(HeaderId(header.number, chain.hash(header))),
       headers := Insert(s.headers, chain.headersToKeep, Entry(chain.hash(header), Stored(header))))
  }

  function OneSlotLess(remaining: Option<nat>): Option<nat> {
    match remaining
    case None => None
    case Some(count) => Some(Max(count - 1, 0))
  }

  /** Why a submission is refused, if it is. */
  function Refusal(chain: Chain, s: State, header: Header, justification: Justification, setId: nat)
    : Option<GrandpaError>
  {
    if s.halted then Some(Halted)
    else
      match CheckObsolete(s, header.number, Some(setId))
      case Err(e) => Some(e)
      case Ok(_) =>
        match chain.verify(justification, HeaderId(header.number, chain.hash(header)), s.authoritySet)
        case Some(e) => Some(e)
        case None =>
          match Enacted(chain, header, s.authoritySet.setId)
          case Err(e) => Some(e)
          case Ok(_) => None
  }

  /** What it takes for a header to be imported. */
  predicate Importable(chain: Chain, s: State, header: Header, justification: Justification, setId: nat) {
    && !s.halted
    && s.best.Some? && header.number > s.best.value.number
    && setId == s.authoritySet.setId
    && chain.verify(justification, HeaderId(header.number, chain.hash(header)), s.authoritySet) == None
    && !header.forcedChange
    && (header.scheduledChange.Some? ==>
          && header.scheduledChange.value.delay == 0
          && |header.scheduledChange.value.nextAuthorities| <= chain.maxAuthorities)
  }

  /** Only what can be imported is not refused, and the first check that fails names the error. */
  lemma RefusedIff(chain: Chain, s: State, header: Header, justification: Justification, setId: nat)
    ensures var refusal := Refusal(chain, s, header, justification, setId);
            var newer := !s.halted && s.best.Some? && header.number > s.best.value.number;
            var failure := chain.verify(justification, HeaderId(header.number, chain.hash(header)), s.authoritySet);
            var verified := newer && setId == s.authoritySet.setId && failure == None;
            var change := header.scheduledChange;
            var unsupported := header.forcedChange || (change.Some? && change.value.delay != 0);
            && (refusal == None <==> Importable(chain, s, header, justification, setId))
            && (s.halted ==> refusal == Some(Halted))
            && (!s.halted && s.best.None? ==> refusal == Some(NotInitialized))
            && (!s.halted && s.best.Some? && !newer ==> refusal == Some(OldHeader))
            && (newer && setId != s.authoritySet.setId ==> refusal == Some(InvalidAuthoritySetId))
            && (newer && setId == s.authoritySet.setId && failure.Some? ==> refusal == failure)
            && (verified && unsupported ==> refusal == Some(UnsupportedScheduledChange))
            && (verified && !unsupported && change.Some? && |change.value.nextAuthorities| > chain.maxAuthorities ==>
                  refusal == Some(TooManyAuthoritiesInSet))
  {
  }

  /** True when the submitter of an accepted header does not pay. */
  predicate IsFree(chain: Chain, s: State, header: Header, justification: Justification) {
    s.best.Some? && header.number > s.best.value.number &&
    MayRefundCallFee(chain, s, header, justification, header.number - s.best.value.number)
  }

  /** An import is free if a slot is left, the sizes are right, and it is mandatory or far enough ahead. */
  lemma FreeIff(chain: Chain, s: State, header: Header, justification: Justification)
    requires s.best.Some? && header.number > s.best.value.number
    ensures IsFree(chain, s, header, justification) <==>
              && s.freeHeadersRemaining.Some? && s.freeHeadersRemaining.value >= 1
              && chain.fitsLimits(header, justification)
              && (header.scheduledChange.None? ==>
                    && chain.freeHeadersInterval.Some?
                    && header.number >= s.best.value.number + chain.freeHeadersInterval.value)
  {
  }

  function AfterImport(chain: Chain, s: State, header: Header, justification: Justification): State
    requires chain.headersToKeep > 0
  {
    var enacted := Enacted(chain, header, s.authoritySet.setId);
    AfterInsert(chain,
                s.(authoritySet := if enacted.Ok? && enacted.value.Some? then enacted.value.value else s.authoritySet,
                   freeHeadersRemaining := if IsFree(chain, s, header, justification)
                                           then OneSlotLess(s.freeHeadersRemaining) else s.freeHeadersRemaining),
                header)
  }

  // ---------- The pallet object ----------

  class GrandpaPallet {
    const chain: Chain
    var halted: bool
    var bestFinalized: Option<HeaderId>
    var importedHashes: map<nat, Hash>
    var importedHashesPointer: nat
    var importedHeaders: map<Hash, StoredHeader>
    var currentAuthoritySet: AuthoritySet
    var freeHeadersRemaining: Option<nat>

    constructor (chain: Chain)
      ensures this.chain == chain
      ensures View() == State(true, None, EmptyRing(), AuthoritySet([], 0), None)
    {
      this.chain := chain;
      halted, bestFinalized, freeHeadersRemaining := true, None, None;
      importedHashes, importedHashesPointer, importedHeaders := map[], 0, map[];
      currentAuthoritySet := AuthoritySet([], 0);
    }

    function View(): State
      reads this
    {
      State(halted, bestFinalized, Ring(importedHashes, importedHashesPointer, importedHeaders), currentAuthoritySet,
            freeHeadersRemaining)
    }

    method OnInitialize()
      modifies this`freeHeadersRemaining
      ensures freeHeadersRemaining == Some(chain.maxFreeHeadersPerBlock)
    {
      freeHeadersRemaining := Some(chain.maxFreeHeadersPerBlock);
    }

    method OnFinalize()
      modifies this`freeHeadersRemaining
      ensures freeHeadersRemaining == None
    {
      freeHeadersRemaining := None;
    }

    method Initialize(header: Header, authorities: seq<Authority>, setId: nat, startHalted: bool)
      returns (result: Result<(), GrandpaError>)
      requires chain.headersToKeep > 0
      modifies this
      ensures result == if old(bestFinalized).Some? then Err(AlreadyInitialized)
                        else if |authorities| > chain.maxAuthorities then Err(TooManyAuthoritiesInSet)
                        else Ok(())
      ensures View() == if result.Err? then old(View())
                        else AfterInsert(chain,
                                         old(View()).(halted := startHalted,
                                                      authoritySet := AuthoritySet(authorities, setId),
                                                      headers := old(View()).headers.(pointer := 0)),
                                         header)
    {
      if bestFinalized.Some? {
        return Err(AlreadyInitialized);
      }
      if |authorities| > chain.maxAuthorities {
        return Err(TooManyAuthoritiesInSet);
      }
      importedHashesPointer := 0;
      InsertHeader(header);
      currentAuthoritySet := AuthoritySet(authorities, setId);
      halted := startHalted;
      return Ok(());
    }

    /** Imports a header; answers whether the submitter pays. A refused submission changes nothing. */
    method SubmitFinalityProofEx(header: Header, justification: Justification, setId: nat)
      returns (paysFee: Result<bool, GrandpaError>)
      requires chain.headersToKeep > 0
      modifies this
      ensures match Refusal(chain, old(View()), header, justification, setId)
              case Some(e) => paysFee == Err(e) && View() == old(View())
              case None =>
                && paysFee == Ok(!IsFree(chain, old(View()), header, justification))
                && View() == AfterImport(chain, old(View()), header, justification)
      ensures paysFee.Ok? <==> Importable(chain, old(View()), header, justification, setId)
    {
      RefusedIff(chain, View(), header, justification, setId);
      if halted {
        return Err(Halted);
      }
      var improvedBy := CheckObsolete(View(), header.number, Some(setId));
      if improvedBy.Err? {
        return Err(improvedBy.error);
      }
      var failure := chain.verify(justification, HeaderId(header.number, chain.hash(header)), currentAuthoritySet);
      if failure.Some? {
        return Err(failure.value);
      }
      ghost var before := View();
      var enacted := TryEnactAuthorityChange(header, currentAuthoritySet.setId);
      if enacted.Err? {
        return Err(enacted.error);
      }
      var free := MayRefundCallFee(chain, View(), header, justification, improvedBy.value);
      assert free == IsFree(chain, before, header, justification);
      if free {
        freeHeadersRemaining := OneSlotLess(freeHeadersRemaining);
      }
      InsertHeader(header);
      return Ok(!free);
    }

    method TryEnactAuthorityChange(header: Header, currentSetId: nat)
      returns (enacted: Result<Option<AuthoritySet>, GrandpaError>)
      modifies this`currentAuthoritySet
      ensures enacted == Enacted(chain, header, currentSetId)
      ensures currentAuthoritySet
           == if enacted.Ok? && enacted.value.Some? then enacted.value.value else old(currentAuthoritySet)
    {
      if header.forcedChange {
        return Err(UnsupportedScheduledChange);
      }
      if header.scheduledChange.Some? {
        var change := header.scheduledChange.value;
        if change.delay != 0 {
          return Err(UnsupportedScheduledChange);
        }
        if |change.nextAuthorities| > chain.maxAuthorities {
          return Err(TooManyAuthoritiesInSet);
        }
        currentAuthoritySet := AuthoritySet(change.nextAuthorities, currentSetId + 1);
        return Ok(Some(currentAuthoritySet));
      }
      return Ok(None);
    }

    method InsertHeader(header: Header)
      requires chain.headersToKeep > 0
      modifies this`bestFinalized, this`importedHashes, this`importedHashesPointer, this`importedHeaders
      ensures View() == AfterInsert(chain, old(View()), header)
    {
      var hash := chain.hash(header);
      var index: nat := importedHashesPointer;
      var pruning := if index in importedHashes then Some(importedHashes[index]) else None;
      bestFinalized := Some(HeaderId(header.number, hash));
      importedHeaders := importedHeaders[hash := Stored(header)];
      importedHashes := importedHashes[index := hash];
      importedHashesPointer := (index + 1) % chain.headersToKeep;
      if pruning.Some? {
        importedHeaders := importedHeaders - {pruning.value};
      }
    }
  }

  /** A submission that would be free is never turned away by the transaction extension. */
  lemma FreeSubmissionPassesExtension(chain: Chain, s: State, header: Header, justification: Justification, setId: nat)
    requires Refusal(chain, s, header, justification, setId) == None && IsFree(chain, s, header, justification)
    ensures CheckObsoleteFromExtension(chain, s, header, Some(setId), true)
         == Ok(header.number - s.best.value.number)
  {
  }

  /**
   Of the submissions that the extension passes as free, exactly those end up free that come within a
   block, keep the size limits and are mandatory or covered by a configured interval.
   */
  lemma PassedSubmissionIsFreeIff(chain: Chain, s: State, header: Header, justification: Justification, setId: nat)
    requires Refusal(chain, s, header, justification, setId) == None
    ensures IsFree(chain, s, header, justification) <==>
              && CheckObsoleteFromExtension(chain, s, header, Some(setId), true).Ok?
              && s.freeHeadersRemaining.Some?
              && chain.fitsLimits(header, justification)
              && (header.scheduledChange.Some? || chain.freeHeadersInterval.Some?)
  {
  }
}

/** What holds of the GRANDPA light client in every run. */
module GrandpaRuns {
  import opened LaneTypes
  import opened RingBuffers
  import opened GrandpaClient

  datatype Init = Init(header: Header, authorities: seq<Authority>, setId: nat, halted: bool)

  datatype Action =
    | BlockStart
    | BlockEnd
    | SubmitProof(header: Header, justification: Justification, setId: nat)
    | SetHalted(halted: bool)

  /** One accepted submission, the authority set it was checked against and whether it was free. */
  datatype Import = Import(
    header: Header, justification: Justification, claimedSetId: nat, checkedBy: AuthoritySet, free: bool)

  datatype Run = Run(state: State, imports: seq<Import>, freeInBlock: nat)

  function InitialState(chain: Chain, init: Init): State
    requires chain.headersToKeep > 0
  {
    AfterInsert(chain, State(init.halted, None, EmptyRing(), AuthoritySet(init.authorities, init.setId), None),
                init.header)
  }

  ghost function After(chain: Chain, run: Run, a: Action): Run
    requires chain.headersToKeep > 0
  {
    match a
    case BlockStart =>
      run.(state := run.state.(freeHeadersRemaining := Some(chain.maxFreeHeadersPerBlock)), freeInBlock := 0)
    case BlockEnd => run.(state := run.state.(freeHeadersRemaining := None))
    case SetHalted(h) => run.(state := run.state.(halted := h))
    case SubmitProof(header, justification, setId) =>
      if Refusal(chain, run.state, header, justification, setId).Some? then run
      else
        var free := IsFree(chain, run.state, header, justification);
        Run(AfterImport(chain, run.state, header, justification),
            run.imports + [Import(header, justification, setId, run.state.authoritySet, free)],
            if free then run.freeInBlock + 1 else run.freeInBlock)
  }

  ghost function Exec(chain: Chain, init: Init, actions: seq<Action>): Run
    requires chain.headersToKeep > 0
  {
    if actions == [] then Run(InitialState(chain, init), [], 0)
    else After(chain, Exec(chain, init, actions[..|actions| - 1]), actions[|actions| - 1])
  }

  // ---------- What a run should look like ----------

  /** The initial header followed by the imported ones. */
  ghost function Headers(init: Init, imports: seq<Import>): (hs: seq<Header>)
    ensures |hs| == |imports| + 1
  {
    [init.header] + seq(|imports|, i requires 0 <= i < |imports| => imports[i].header)
  }

  ghost function Entries(chain: Chain, init: Init, imports: seq<Import>): (es: seq<Entry<Hash, StoredHeader>>)
    ensures |es| == |imports| + 1
  {
    var hs := Headers(init, imports);
    seq(|hs|, i requires 0 <= i < |hs| => Entry(chain.hash(hs[i]), StoredHeader(hs[i].number, hs[i].stateRoot)))
  }

  /** The authority set in force after the imports: that of the latest change, numbered by the changes so far. */
  ghost function SetAfter(init: Init, imports: seq<Import>): AuthoritySet {
    if imports == [] then AuthoritySet(init.authorities, init.setId)
    else
      var before, last := SetAfter(init, imports[..|imports| - 1]), imports[|imports| - 1].header;
      if last.scheduledChange.Some?
      then AuthoritySet(last.scheduledChange.value.nextAuthorities, before.setId + 1)
      else before
  }

  ghost function Changes(imports: seq<Import>): nat {
    if imports == [] then 0
    else Changes(imports[..|imports| - 1]) + if imports[|imports| - 1].header.scheduledChange.Some? then 1 else 0
  }

  /** Free imports that did not change the authority set. */
  ghost function FreeNonMandatory(imports: seq<Import>): nat {
    if imports == [] then 0
    else
      var last := imports[|imports| - 1];
      FreeNonMandatory(imports[..|imports| - 1]) + if last.free && last.header.scheduledChange.None? then 1 else 0
  }

  ghost predicate Increasing(hs: seq<Header>) {
    forall i, j :: 0 <= i < j < |hs| ==> hs[i].number < hs[j].number
  }

  /** Headers with different numbers have different hashes. */
  ghost predicate CollisionFree(chain: Chain) {
    forall h1: Header, h2: Header :: h1.number != h2.number ==> chain.hash(h1) != chain.hash(h2)
  }

  /** The checks every imported header has passed, given the authority set in force. */
  ghost predicate WasVerified(chain: Chain, x: Import, inForce: AuthoritySet) {
    && x.checkedBy == inForce && x.claimedSetId == inForce.setId
    && chain.verify(x.justification, HeaderId(x.header.number, chain.hash(x.header)), inForce) == None
    && !x.header.forcedChange
    && (x.header.scheduledChange.Some? ==>
          && x.header.scheduledChange.value.delay == 0
          && |x.header.scheduledChange.value.nextAuthorities| <= chain.maxAuthorities)
    && (x.free ==> chain.fitsLimits(x.header, x.justification))
  }

  ghost predicate EachWasVerified(chain: Chain, init: Init, imports: seq<Import>) {
    forall i :: 0 <= i < |imports| ==> WasVerified(chain, imports[i], SetAfter(init, imports[..i]))
  }

  ghost predicate FreeRateKept(chain: Chain, init: Init, run: Run) {
    && run.state.best.Some?
    && (run.state.freeHeadersRemaining.Some? ==>
          run.freeInBlock + run.state.freeHeadersRemaining.value == chain.maxFreeHeadersPerBlock)
    && match chain.freeHeadersInterval
       case None => FreeNonMandatory(run.imports) == 0
       case Some(interval) =>
         FreeNonMandatory(run.imports) * interval <= run.state.best.value.number - init.header.number
  }

  ghost predicate Inv(chain: Chain, init: Init, run: Run) {
    var hs := Headers(init, run.imports);
    && Increasing(hs)
    && run.state.best == Some(HeaderId(hs[|hs| - 1].number, chain.hash(hs[|hs| - 1])))
    && run.state.authoritySet == SetAfter(init, run.imports)
    && EachWasVerified(chain, init, run.imports)
    && FreeRateKept(chain, init, run)
  }

  // ---------- Proof ----------

  lemma HeadersAppend(chain: Chain, init: Init, imports: seq<Import>, x: Import)
    ensures Headers(init, imports + [x]) == Headers(init, imports) + [x.header]
    ensures Entries(chain, init, imports + [x])
         == Entries(chain, init, imports) + [Entry(chain.hash(x.header), Stored(x.header))]
  {
  }

  lemma DistinctEntries(chain: Chain, init: Init, imports: seq<Import>)
    requires CollisionFree(chain) && Increasing(Headers(init, imports))
    ensures DistinctKeys(Entries(chain, init, imports))
  {
    var hs := Headers(init, imports);
    forall i, j | 0 <= i < j < |hs| ensures chain.hash(hs[i]) != chain.hash(hs[j]) {
      assert hs[i].number < hs[j].number;
    }
  }

  lemma ImportKeepsIncreasing(chain: Chain, init: Init, run: Run, x: Import)
    requires Inv(chain, init, run) && run.state.best.value.number < x.header.number
    ensures Increasing(Headers(init, run.imports + [x]))
  {
    var hs := Headers(init, run.imports);
    HeadersAppend(chain, init, run.imports, x);
    forall i, j | 0 <= i < j < |hs| + 1 ensures (hs + [x.header])[i].number < (hs + [x.header])[j].number {
      if j == |hs| && i < |hs| - 1 {
        assert hs[i].number < hs[|hs| - 1].number;
      }
    }
  }

  lemma ImportKeepsVerified(chain: Chain, init: Init, run: Run, x: Import)
    requires EachWasVerified(chain, init, run.imports) && WasVerified(chain, x, SetAfter(init, run.imports))
    ensures EachWasVerified(chain, init, run.imports + [x])
  {
    var all := run.imports + [x];
    forall i | 0 <= i < |all| ensures all[..i] == if i < |run.imports| then run.imports[..i] else run.imports {
    }
  }

  lemma ImportKeepsRate(chain: Chain, init: Init, run: Run, header: Header, justification: Justification, setId: nat)
    requires chain.headersToKeep > 0 && FreeRateKept(chain, init, run)
    requires Refusal(chain, run.state, header, justification, setId) == None
    ensures FreeRateKept(chain, init, After(chain, run, SubmitProof(header, justification, setId)))
  {
    var run' := After(chain, run, SubmitProof(header, justification, setId));
    assert run'.imports[..|run.imports|] == run.imports;
    if chain.freeHeadersInterval.Some? {
      var interval, f := chain.freeHeadersInterval.value, FreeNonMandatory(run.imports);
      assert (f + 1) * interval == f * interval + interval;
    }
  }

  lemma ImportHandsOver(chain: Chain, init: Init, run: Run, x: Import, setId: nat)
    requires chain.headersToKeep > 0 && run.state.authoritySet == SetAfter(init, run.imports)
    requires Refusal(chain, run.state, x.header, x.justification, setId) == None
    ensures AfterImport(chain, run.state, x.header, x.justification).authoritySet == SetAfter(init, run.imports + [x])
  {
    assert (run.imports + [x])[..|run.imports|] == run.imports;
  }

  lemma SubmitKeepsInv(chain: Chain, init: Init, run: Run, a: Action)
    requires chain.headersToKeep > 0 && Inv(chain, init, run) && a.SubmitProof?
    ensures Inv(chain, init, After(chain, run, a))
  {
    if Refusal(chain, run.state, a.header, a.justification, a.setId) == None {
      var x := Import(a.header, a.justification, a.setId, run.state.authoritySet,
                      IsFree(chain, run.state, a.header, a.justification));
      ImportKeepsIncreasing(chain, init, run, x);
      ImportKeepsVerified(chain, init, run, x);
      ImportKeepsRate(chain, init, run, a.header, a.justification, a.setId);
      ImportHandsOver(chain, init, run, x, a.setId);
      HeadersAppend(chain, init, run.imports, x);
      var hs := Headers(init, run.imports + [x]);
      assert hs[|hs| - 1] == a.header;
    }
  }

  lemma StepKeepsInv(chain: Chain, init: Init, run: Run, a: Action)
    requires chain.headersToKeep > 0 && Inv(chain, init, run)
    ensures Inv(chain, init, After(chain, run, a))
  {
    if a.SubmitProof? {
      SubmitKeepsInv(chain, init, run, a);
    }
  }

  lemma {:induction false} RunKeepsInv(chain: Chain, init: Init, actions: seq<Action>)
    requires chain.headersToKeep > 0
    ensures Inv(chain, init, Exec(chain, init, actions))
  {
    if actions == [] {
      assert Headers(init, []) == [init.header];
    } else {
      RunKeepsInv(chain, init, actions[..|actions| - 1]);
      StepKeepsInv(chain, init, Exec(chain, init, actions[..|actions| - 1]), actions[|actions| - 1]);
    }
  }

  // ---------- Theorems ----------

  lemma InitialStateHoldsHeader(chain: Chain, init: Init)
    requires chain.headersToKeep > 0
    ensures HoldsLast(InitialState(chain, init).headers, chain.headersToKeep, Entries(chain, init, []))
  {
    var e := Entry(chain.hash(init.header), Stored(init.header));
    var none: seq<Entry<Hash, StoredHeader>> := [];
    assert Entries(chain, init, []) == none + [e];
    SlotWraps(0, chain.headersToKeep);
    InsertKeepsLast(EmptyRing(), chain.headersToKeep, none, e);
  }

  lemma ImportKeepsRing(chain: Chain, init: Init, run: Run, a: Action)
    requires chain.headersToKeep > 0 && CollisionFree(chain)
    requires Inv(chain, init, run) && Inv(chain, init, After(chain, run, a)) && a.SubmitProof?
    requires HoldsLast(run.state.headers, chain.headersToKeep, Entries(chain, init, run.imports))
    ensures var run' := After(chain, run, a);
            HoldsLast(run'.state.headers, chain.headersToKeep, Entries(chain, init, run'.imports))
  {
    var run' := After(chain, run, a);
    if Refusal(chain, run.state, a.header, a.justification, a.setId) == None {
      HeadersAppend(chain, init, run.imports, run'.imports[|run.imports|]);
      DistinctEntries(chain, init, run'.imports);
      InsertKeepsLast(run.state.headers, chain.headersToKeep, Entries(chain, init, run.imports),
                      Entry(chain.hash(a.header), Stored(a.header)));
    }
  }

  lemma {:induction false} RingHoldsLastHeaders(chain: Chain, init: Init, actions: seq<Action>)
    requires chain.headersToKeep > 0 && CollisionFree(chain)
    ensures var run := Exec(chain, init, actions);
            HoldsLast(run.state.headers, chain.headersToKeep, Entries(chain, init, run.imports))
  {
    if actions == [] {
      InitialStateHoldsHeader(chain, init);
    } else {
      RingHoldsLastHeaders(chain, init, actions[..|actions| - 1]);
      if actions[|actions| - 1].SubmitProof? {
        RunKeepsInv(chain, init, actions[..|actions| - 1]);
        RunKeepsInv(chain, init, actions);
        ImportKeepsRing(chain, init, Exec(chain, init, actions[..|actions| - 1]), actions[|actions| - 1]);
      }
    }
  }

  /** Exactly the last `headersToKeep` headers are stored, and the best one is among them. */
  lemma StoresLastHeaders(chain: Chain, init: Init, actions: seq<Action>)
    requires chain.headersToKeep > 0 && CollisionFree(chain)
    ensures var run := Exec(chain, init, actions);
            && HoldsLast(run.state.headers, chain.headersToKeep, Entries(chain, init, run.imports))
            && run.state.best.Some? && run.state.best.value.hash in run.state.headers.items
  {
    RunKeepsInv(chain, init, actions);
    RingHoldsLastHeaders(chain, init, actions);
    var run := Exec(chain, init, actions);
    var es := Entries(chain, init, run.imports);
    assert es[|es| - 1].key in run.state.headers.items;
  }

  lemma {:induction false} SetIdCountsChanges(init: Init, imports: seq<Import>)
    ensures SetAfter(init, imports).setId == init.setId + Changes(imports)
  {
    if imports != [] {
      SetIdCountsChanges(init, imports[..|imports| - 1]);
    }
  }

  /** Authority hand-off: every header was verified by the set of the latest earlier change; numbers only rise. */
  lemma HandOffIsUnbroken(chain: Chain, init: Init, actions: seq<Action>)
    requires chain.headersToKeep > 0
    ensures var run := Exec(chain, init, actions);
            && run.state.authoritySet == SetAfter(init, run.imports)
            && run.state.authoritySet.setId == init.setId + Changes(run.imports)
            && EachWasVerified(chain, init, run.imports)
            && Increasing(Headers(init, run.imports))
  {
    RunKeepsInv(chain, init, actions);
    SetIdCountsChanges(init, Exec(chain, init, actions).imports);
  }

  /** Free imports of a block fill its slots one by one, and over a run they cannot outpace the configured interval. */
  lemma {:induction false} FreeImportsAreLimited(chain: Chain, init: Init, actions: seq<Action>)
    requires chain.headersToKeep > 0
    ensures FreeRateKept(chain, init, Exec(chain, init, actions))
  {
    RunKeepsInv(chain, init, actions);
  }

  /** A submission adds one import if it can be imported, and otherwise changes nothing. */
  lemma SubmissionIsImportedIff(chain: Chain, init: Init, actions: seq<Action>, header: Header,
                                justification: Justification, setId: nat)
    requires chain.headersToKeep > 0
    ensures var run := Exec(chain, init, actions);
            var run' := Exec(chain, init, actions + [SubmitProof(header, justification, setId)]);
            if Importable(chain, run.state, header, justification, setId) then
              && |run'.imports| == |run.imports| + 1 && run'.imports[..|run.imports|] == run.imports
              && var x := run'.imports[|run.imports|];
              && x.header == header && x.justification == justification
              && x.claimedSetId == setId && x.checkedBy == run.state.authoritySet
              && (x.free <==>
                  && run.state.freeHeadersRemaining.Some? && run.state.freeHeadersRemaining.value >= 1
                  && chain.fitsLimits(header, justification)
                  && (header.scheduledChange.None? ==>
                        && chain.freeHeadersInterval.Some?
                        && header.number >= run.state.best.value.number + chain.freeHeadersInterval.value))
            else run' == run
  {
    var a := SubmitProof(header, justification, setId);
    assert (actions + [a])[..|actions|] == actions;
    RefusedIff(chain, Exec(chain, init, actions).state, header, justification, setId);
  }

  ghost predicate NoResume(actions: seq<Action>) {
    forall i :: 0 <= i < |actions| ==> actions[i] != SetHalted(false)
  }

  /** From a halt until the pallet is resumed nothing is imported; only the slots of the block are reset. */
  lemma {:induction false} HaltStopsImports(chain: Chain, init: Init, actions: seq<Action>, more: seq<Action>)
    requires chain.headersToKeep > 0 && NoResume(more)
    ensures var run := Exec(chain, init, actions);
            var run' := Exec(chain, init, actions + [SetHalted(true)] + more);
            && run'.imports == run.imports
            && run'.state == run.state.(halted := true, freeHeadersRemaining := run'.state.freeHeadersRemaining)
  {
    var all := actions + [SetHalted(true)] + more;
    if more == [] {
      assert all[..|all| - 1] == actions;
    } else {
      assert all[..|all| - 1] == actions + [SetHalted(true)] + more[..|more| - 1];
      HaltStopsImports(chain, init, actions, more[..|more| - 1]);
    }
  }
}
