/** The table of statements that validators issue about parachain candidates. */
module StatementTables {
  import opened LaneTypes

  type AuthorityId(==, !new)
  type GroupId(==, !new)
  type Digest(==, !new)
  type Candidate(==, !new)
  type Signature(==, !new)

  /** What the table knows about its surroundings. */
  datatype Context = Context(
    digest: Candidate -> Digest,
    isMember: (AuthorityId, GroupId) -> bool,
    groupSize: GroupId -> Option<nat>)

  datatype Statement = Seconded(candidate: Candidate) | Valid(digest: Digest)

  datatype SignedStatement = SignedStatement(statement: Statement, signature: Signature, sender: AuthorityId)

  datatype DoubleSign =
    | SecondedTwice(candidate: Candidate, first: Signature, second: Signature)
    | ValidTwice(digest: Digest, first: Signature, second: Signature)

  datatype Misbehavior =
    | ValidityDoubleVote(issued: (Candidate, Signature), validity: (Digest, Signature))
    | MultipleCandidates(first: (Candidate, Signature), second: (Candidate, Signature))
    | UnauthorizedStatement(statement: SignedStatement)
    | DoublySigned(doubleSign: DoubleSign)

  datatype ValidityVote = Issued(signature: Signature) | Explicit(signature: Signature)

  datatype Summary = Summary(candidate: Digest, group: GroupId, validityVotes: nat)

  datatype CandidateData = CandidateData(group: GroupId, candidate: Candidate, votes: map<AuthorityId, ValidityVote>)

  datatype AttestedCandidate = AttestedCandidate(
    group: GroupId, candidate: Candidate, votes: map<AuthorityId, ValidityVote>)

  /** Contents of a table. */
  datatype TableState = TableState(
    proposals: map<AuthorityId, seq<(Digest, Signature)>>,
    candidates: map<Digest, CandidateData>,
    misbehavior: map<AuthorityId, seq<Misbehavior>>)

  const EMPTY_TABLE := TableState(map[], map[], map[])

  /** Result of an import; the last two are the places where the code gives up instead of answering. */
  datatype Outcome =
    | Imported(summary: Option<Summary>)
    | Misbehaved(report: Misbehavior)
    | MissingCandidate
    | ForeignIssuer

  datatype Step = Step(table: TableState, outcome: Outcome)

  // ---------- What an import does ----------

  function Conflict(candidate: Candidate, digest: Digest, existing: ValidityVote, vote: ValidityVote): Misbehavior {
    match (existing, vote)
    case (Issued(iss), Explicit(good)) => ValidityDoubleVote((candidate, iss), (digest, good))
    case (Explicit(good), Issued(iss)) => ValidityDoubleVote((candidate, iss), (digest, good))
    case (Issued(a), Issued(b)) => DoublySigned(SecondedTwice(candidate, a, b))
    case (Explicit(a), Explicit(b)) => DoublySigned(ValidTwice(digest, a, b))
  }

  function CastVote(t: TableState, ctx: Context, from: AuthorityId, digest: Digest, vote: ValidityVote): Step {
    if digest !in t.candidates then Step(t, Imported(None))
    else
      var data := t.candidates[digest];
      if !ctx.isMember(from, data.group) then
        match vote
        case Explicit(sig) => Step(t, Misbehaved(UnauthorizedStatement(SignedStatement(Valid(digest), sig, from))))
        case Issued(_) => Step(t, ForeignIssuer)
      else if from in data.votes then
        Step(t, if data.votes[from] == vote then Imported(None)
                else Misbehaved(Conflict(data.candidate, digest, data.votes[from], vote)))
      else
        var data' := data.(votes := data.votes[from := vote]);
        Step(t.(candidates := t.candidates[digest := data']),
             Imported(Some(Summary(digest, data'.group, |data'.votes|))))
  }

  datatype ProposalCheck = NewProposal | RepeatedProposal | Clash(digest: Digest, signature: Signature)

  function CheckProposal(t: TableState, multiple: bool, authority: AuthorityId, digest: Digest): ProposalCheck {
    if authority !in t.proposals then NewProposal
    else
      var existing := t.proposals[authority];
      if !multiple && |existing| == 1 then
        if existing[0].0 != digest then Clash(existing[0].0, existing[0].1) else RepeatedProposal
      else if multiple && exists i :: 0 <= i < |existing| && existing[i].0 == digest then RepeatedProposal
      else NewProposal
  }

  function Proposals(t: TableState, authority: AuthorityId): seq<(Digest, Signature)> {
    if authority in t.proposals then t.proposals[authority] else []
  }

  /** Notes a new proposal and makes sure that its candidate has an entry. */
  function NoteProposal(t: TableState, authority: AuthorityId, candidate: Candidate, digest: Digest,
                        signature: Signature, group: GroupId): TableState
  {
    t.(proposals := t.proposals[authority := Proposals(t, authority) + [(digest, signature)]],
       candidates := if digest in t.candidates then t.candidates
                     else t.candidates[digest := CandidateData(group, candidate, map[])])
  }

  function Second(t: TableState, multiple: bool, ctx: Context, authority: AuthorityId, candidate: Candidate,
                  signature: Signature, group: GroupId): Step
  {
    if !ctx.isMember(authority, group) then
      Step(t, Misbehaved(UnauthorizedStatement(SignedStatement(Seconded(candidate), signature, authority))))
    else
      var digest := ctx.digest(candidate);
      match CheckProposal(t, multiple, authority, digest)
      case Clash(oldDigest, oldSig) =>
        if oldDigest !in t.candidates then Step(t, MissingCandidate)
        else
          var oldCandidate := t.candidates[oldDigest].candidate;
          Step(t, Misbehaved(MultipleCandidates((oldCandidate, oldSig), (candidate, signature))))
      case RepeatedProposal => CastVote(t, ctx, authority, digest, Issued(signature))
      case NewProposal =>
        CastVote(NoteProposal(t, authority, candidate, digest, signature, group), ctx, authority, digest,
                 Issued(signature))
  }

  function Judge(t: TableState, multiple: bool, ctx: Context, group: GroupId, signed: SignedStatement): Step {
    match signed.statement
    case Seconded(candidate) => Second(t, multiple, ctx, signed.sender, candidate, signed.signature, group)
    case Valid(digest) => CastVote(t, ctx, signed.sender, digest, Explicit(signed.signature))
  }

  function Reports(m: map<AuthorityId, seq<Misbehavior>>, a: AuthorityId): seq<Misbehavior> {
    if a in m then m[a] else []
  }

  function WithReport(t: TableState, a: AuthorityId, report: Misbehavior): TableState {
    t.(misbehavior := t.misbehavior[a := Reports(t.misbehavior, a) + [report]])
  }

  function Import(t: TableState, multiple: bool, ctx: Context, group: GroupId, signed: SignedStatement): Step {
    var step := Judge(t, multiple, ctx, group, signed);
    if step.outcome.Misbehaved?
    then Step(WithReport(step.table, signed.sender, step.outcome.report), step.outcome)
    else step
  }

  // ---------- Attestation ----------

  function Attested(data: CandidateData, threshold: nat): Option<AttestedCandidate> {
    if |data.votes| < threshold then None else Some(AttestedCandidate(data.group, data.candidate, data.votes))
  }

  function EffectiveMinimumBackingVotes(groupLen: nat, configured: nat): nat {
    Min(groupLen, configured)
  }

  function Threshold(ctx: Context, group: GroupId, minimumBackingVotes: nat): nat {
    match ctx.groupSize(group)
    case None => U64_MAX
    case Some(len) => EffectiveMinimumBackingVotes(len, minimumBackingVotes)
  }

  function AttestedIn(t: TableState, ctx: Context, digest: Digest, minimumBackingVotes: nat)
    : Option<AttestedCandidate>
  {
    if digest !in t.candidates then None
    else Attested(t.candidates[digest], Threshold(ctx, t.candidates[digest].group, minimumBackingVotes))
  }

  // ---------- The table object ----------

  class Table {
    var authorityData: map<AuthorityId, seq<(Digest, Signature)>>
    var detectedMisbehavior: map<AuthorityId, seq<Misbehavior>>
    var candidateVotes: map<Digest, CandidateData>
    const allowMultipleSeconded: bool

    constructor (allowMultipleSeconded: bool)
      ensures View() == EMPTY_TABLE && this.allowMultipleSeconded == allowMultipleSeconded
    {
      authorityData, detectedMisbehavior, candidateVotes := map[], map[], map[];
      this.allowMultipleSeconded := allowMultipleSeconded;
    }

    function View(): TableState
      reads this
    {
      TableState(authorityData, candidateVotes, detectedMisbehavior)
    }

    method ImportStatement(ctx: Context, group: GroupId, signed: SignedStatement)
      returns (summary: Option<Summary>, ghost outcome: Outcome)
      modifies this
      ensures Step(View(), outcome) == Import(old(View()), allowMultipleSeconded, ctx, group, signed)
      ensures summary == if outcome.Imported? then outcome.summary else None
    {
      var result;
      match signed.statement {
        case Seconded(candidate) =>
          result := ImportCandidate(ctx, signed.sender, candidate, signed.signature, group);
        case Valid(digest) =>
          result := CastValidityVote(ctx, signed.sender, digest, Explicit(signed.signature));
      }
      outcome := result;
      match result {
        case Imported(maybeSummary) => summary := maybeSummary;
        case Misbehaved(report) =>
          detectedMisbehavior :=
            detectedMisbehavior[signed.sender := Reports(detectedMisbehavior, signed.sender) + [report]];
          summary := None;
        case _ => summary := None;
      }
    }

    method ImportCandidate(ctx: Context, authority: AuthorityId, candidate: Candidate, signature: Signature,
                           group: GroupId)
      returns (outcome: Outcome)
      modifies this
      ensures Step(View(), outcome)
           == Second(old(View()), allowMultipleSeconded, ctx, authority, candidate, signature, group)
    {
      if !ctx.isMember(authority, group) {
        return Misbehaved(UnauthorizedStatement(SignedStatement(Seconded(candidate), signature, authority)));
      }
      var digest := ctx.digest(candidate);
      var newProposal := true;
      if authority in authorityData {
        var existing := authorityData[authority];
        if !allowMultipleSeconded && |existing| == 1 {
          var (oldDigest, oldSig) := existing[0];
          if oldDigest != digest {
            if oldDigest !in candidateVotes {
              return MissingCandidate;
            }
            var oldCandidate := candidateVotes[oldDigest].candidate;
            return Misbehaved(MultipleCandidates((oldCandidate, oldSig), (candidate, signature)));
          }
          newProposal := false;
        } else {
          var known := false;
          if allowMultipleSeconded {
            known := HasDigest(existing, digest);
          }
          if known {
            newProposal := false;
          } else {
            authorityData := authorityData[authority := existing + [(digest, signature)]];
          }
        }
      } else {
        authorityData := authorityData[authority := [(digest, signature)]];
      }
      if newProposal && digest !in candidateVotes {
        candidateVotes := candidateVotes[digest := CandidateData(group, candidate, map[])];
      }
      assert [] + [(digest, signature)] == [(digest, signature)];
      assert newProposal ==> View() == NoteProposal(old(View()), authority, candidate, digest, signature, group);
      outcome := CastValidityVote(ctx, authority, digest, Issued(signature));
    }

    method CastValidityVote(ctx: Context, from: AuthorityId, digest: Digest, vote: ValidityVote)
      returns (outcome: Outcome)
      modifies this
      ensures Step(View(), outcome) == CastVote(old(View()), ctx, from, digest, vote)
    {
      if digest !in candidateVotes {
        return Imported(None);
      }
      var data := candidateVotes[digest];
      if !ctx.isMember(from, data.group) {
        match vote {
          case Explicit(sig) =>
            return Misbehaved(UnauthorizedStatement(SignedStatement(Valid(digest), sig, from)));
          case Issued(_) =>
            return ForeignIssuer;
        }
      }
      if from in data.votes {
        if data.votes[from] != vote {
          return Misbehaved(Conflict(data.candidate, digest, data.votes[from], vote));
        }
        return Imported(None);
      }
      data := data.(votes := data.votes[from := vote]);
      candidateVotes := candidateVotes[digest := data];
      return Imported(Some(Summary(digest, data.group, |data.votes|)));
    }

    method DrainMisbehaviors() returns (drained: map<AuthorityId, seq<Misbehavior>>)
      modifies this`detectedMisbehavior
      ensures drained == old(detectedMisbehavior)
      ensures detectedMisbehavior == map[]
    {
      drained := detectedMisbehavior;
      detectedMisbehavior := map[];
    }
  }

  method HasDigest(proposals: seq<(Digest, Signature)>, digest: Digest) returns (found: bool)
    ensures found <==> exists i :: 0 <= i < |proposals| && proposals[i].0 == digest
  {
    found := false;
    for i := 0 to |proposals|
      invariant !found
      invariant forall j :: 0 <= j < i ==> proposals[j].0 != digest
    {
      if proposals[i].0 == digest {
        return true;
      }
    }
  }

  // ---------- The draining iterator ----------

  /** Reports of one authority in the order they are handed out. */
  ghost function Tagged(a: AuthorityId, reports: seq<Misbehavior>): seq<(AuthorityId, Misbehavior)> {
    seq(|reports|, i requires 0 <= i < |reports| => (a, reports[i]))
  }

  ghost function Flatten(groups: seq<(AuthorityId, seq<Misbehavior>)>): seq<(AuthorityId, Misbehavior)> {
    if groups == [] then [] else Tagged(groups[0].0, groups[0].1) + Flatten(groups[1..])
  }

  function Reversed(reports: seq<Misbehavior>): (r: seq<Misbehavior>)
    ensures |r| == |reports|
    ensures forall i :: 0 <= i < |r| ==> r[i] == reports[|reports| - 1 - i]
  {
    seq(|reports|, i requires 0 <= i < |reports| => reports[|reports| - 1 - i])
  }

  /** What is still to be handed out: the rest of the authority in progress, then the other authorities. */
  ghost function RemainingOf(inProgress: Option<(AuthorityId, seq<Misbehavior>)>,
                             drain: seq<(AuthorityId, seq<Misbehavior>)>): seq<(AuthorityId, Misbehavior)>
  {
    (if inProgress.Some? then Tagged(inProgress.value.0, Reversed(inProgress.value.1)) else []) + Flatten(drain)
  }

  /** Popping the reversed list hands out the reports from the front. */
  lemma PopIsFirst(id: AuthorityId, reports: seq<Misbehavior>, drain: seq<(AuthorityId, seq<Misbehavior>)>)
    requires reports != []
    ensures RemainingOf(Some((id, reports)), drain)
         == [(id, reports[|reports| - 1])] + RemainingOf(Some((id, reports[..|reports| - 1])), drain)
  {
    var rest := reports[..|reports| - 1];
    assert Tagged(id, Reversed(reports)) == [(id, reports[|reports| - 1])] + Tagged(id, Reversed(rest));
  }

  lemma NothingInProgress(inProgress: Option<(AuthorityId, seq<Misbehavior>)>,
                          drain: seq<(AuthorityId, seq<Misbehavior>)>)
    requires inProgress.None? || inProgress.value.1 == []
    ensures RemainingOf(inProgress, drain) == Flatten(drain)
  {
    assert [] + Flatten(drain) == Flatten(drain);
  }

  lemma NextInProgress(id: AuthorityId, reports: seq<Misbehavior>, rest: seq<(AuthorityId, seq<Misbehavior>)>)
    ensures RemainingOf(Some((id, Reversed(reports))), rest) == Flatten([(id, reports)] + rest)
  {
    assert Reversed(Reversed(reports)) == reports;
    assert ([(id, reports)] + rest)[1..] == rest;
  }

  class MisbehaviorDrain {
    /** Authorities still to come, in whatever order the map yields them. */
    var drain: seq<(AuthorityId, seq<Misbehavior>)>
    /** The authority being handed out; its reports are kept in reverse and popped from the end. */
    var inProgress: Option<(AuthorityId, seq<Misbehavior>)>

    constructor (drain: seq<(AuthorityId, seq<Misbehavior>)>)
      ensures Remaining() == Flatten(drain) && this.drain == drain
    {
      this.drain, inProgress := drain, None;
      new;
      NothingInProgress(None, drain);
    }

    ghost function Remaining(): seq<(AuthorityId, Misbehavior)>
      reads this
    {
      RemainingOf(inProgress, drain)
    }

    ghost predicate NoEmptyGroup()
      reads this
    {
      forall i :: 0 <= i < |drain| ==> drain[i].1 != []
    }

    method MaybeItem() returns (item: Option<(AuthorityId, Misbehavior)>)
      modifies this`inProgress
      ensures item.None? ==> Remaining() == old(Remaining()) == Flatten(drain)
      ensures item.Some? ==> old(Remaining()) == [item.value] + Remaining()
      ensures item.None? <==> old(inProgress.None? || inProgress.value.1 == [])
    {
      if inProgress.None? || inProgress.value.1 == [] {
        NothingInProgress(inProgress, drain);
        return None;
      }
      var (id, reports) := inProgress.value;
      PopIsFirst(id, reports, drain);
      inProgress := Some((id, reports[..|reports| - 1]));
      return Some((id, reports[|reports| - 1]));
    }

    /** Turns to the next authority, if there is one. */
    method Advance()
      requires NoEmptyGroup()
      modifies this
      ensures NoEmptyGroup() && Remaining() == old(Flatten(drain))
      ensures inProgress.None? || inProgress.value.1 == [] <==> old(drain) == []
    {
      if drain == [] {
        inProgress := None;
        NothingInProgress(None, drain);
      } else {
        var (id, reports) := drain[0];
        NextInProgress(id, reports, drain[1..]);
        assert [drain[0]] + drain[1..] == drain;
        inProgress := Some((id, Reversed(reports)));
        drain := drain[1..];
      }
    }

    /** Hands out every report once; ends only when nothing is left, given that no authority has an empty list. */
    method Next() returns (item: Option<(AuthorityId, Misbehavior)>)
      requires NoEmptyGroup()
      modifies this
      ensures NoEmptyGroup()
      ensures item.None? <==> old(Remaining()) == []
      ensures item.Some? ==> old(Remaining()) == [item.value] + Remaining()
    {
      item := MaybeItem();
      if item.None? {
        Advance();
        item := MaybeItem();
      }
    }
  }
}
