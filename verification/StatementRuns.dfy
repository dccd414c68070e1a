/** What holds of the statement table after any sequence of submitted statements. */
module StatementRuns {
  import opened LaneTypes
  import opened StatementTables

  datatype Setup = Setup(ctx: Context, multiple: bool)

  datatype Event = Submit(group: GroupId, signed: SignedStatement) | Drain

  datatype Run = Run(
    table: TableState,
    log: seq<(AuthorityId, Misbehavior)>,              // every report ever made, in order
    drained: map<AuthorityId, seq<Misbehavior>>,       // reports already handed out
    stuck: Option<Outcome>)                            // where the code gave up, if it did

  ghost function Collect(a: map<AuthorityId, seq<Misbehavior>>, b: map<AuthorityId, seq<Misbehavior>>)
    : map<AuthorityId, seq<Misbehavior>>
  {
    map x | x in a.Keys + b.Keys :: Reports(a, x) + Reports(b, x)
  }

  ghost function After(setup: Setup, run: Run, e: Event): Run {
    if run.stuck.Some? then run
    else match e
      case Drain =>
        run.(table := run.table.(misbehavior := map[]), drained := Collect(run.drained, run.table.misbehavior))
      case Submit(group, signed) =>
        var step := Import(run.table, setup.multiple, setup.ctx, group, signed);
        match step.outcome
        case Imported(_) => run.(table := step.table)
        case Misbehaved(report) => run.(table := step.table, log := run.log + [(signed.sender, report)])
        case _ => run.(table := step.table, stuck := Some(step.outcome))
  }

  ghost function Exec(setup: Setup, events: seq<Event>): Run {
    if events == [] then Run(EMPTY_TABLE, [], map[], None)
    else After(setup, Exec(setup, events[..|events| - 1]), events[|events| - 1])
  }

  // ---------- What was said, in terms of the submitted statements ----------

  /** Event `i` is a vote of `a`: a seconding within its group, or an explicit vote on a known candidate. */
  ghost predicate CastAt(setup: Setup, events: seq<Event>, i: int, a: AuthorityId, d: Digest, vote: ValidityVote) {
    && 0 <= i < |events| && events[i].Submit? && events[i].signed.sender == a
    && match events[i].signed.statement
       case Seconded(c) =>
         && vote == Issued(events[i].signed.signature)
         && setup.ctx.digest(c) == d && setup.ctx.isMember(a, events[i].group)
       case Valid(e) =>
         vote == Explicit(events[i].signed.signature) && e == d && d in Exec(setup, events[..i]).table.candidates
  }

  ghost predicate HasCast(setup: Setup, events: seq<Event>, a: AuthorityId, d: Digest, vote: ValidityVote) {
    exists i :: CastAt(setup, events, i, a, d, vote)
  }

  /** Two votes of `a`, the first cast before the second. */
  ghost predicate CastInOrder(setup: Setup, events: seq<Event>, a: AuthorityId, d1: Digest, v1: ValidityVote,
                              d2: Digest, v2: ValidityVote)
  {
    exists i, j :: i < j && CastAt(setup, events, i, a, d1, v1) && CastAt(setup, events, j, a, d2, v2)
  }

  /** Event `i` is a statement of `a` about a candidate of a group that `a` does not belong to. */
  ghost predicate OutsideGroup(setup: Setup, events: seq<Event>, i: int, a: AuthorityId) {
    && 0 <= i < |events| && events[i].Submit? && events[i].signed.sender == a
    && match events[i].signed.statement
       case Seconded(_) => !setup.ctx.isMember(a, events[i].group)
       case Valid(d) =>
         var candidates := Exec(setup, events[..i]).table.candidates;
         d in candidates && !setup.ctx.isMember(a, candidates[d].group)
  }

  /** What an authority must not do. */
  ghost predicate BreaksRule(setup: Setup, events: seq<Event>, a: AuthorityId) {
    || (exists i :: OutsideGroup(setup, events, i, a))
    || (!setup.multiple && exists d1, s1, d2, s2 ::
          && d1 != d2
          && HasCast(setup, events, a, d1, Issued(s1)) && HasCast(setup, events, a, d2, Issued(s2)))
    || (exists d, v1, v2 ::
          && v1 != v2 && HasCast(setup, events, a, d, v1) && HasCast(setup, events, a, d, v2))
  }

  /** The statements behind a report, with candidates told apart by their digest. */
  ghost predicate Witnessed(setup: Setup, events: seq<Event>, a: AuthorityId, m: Misbehavior) {
    var digest := setup.ctx.digest;
    match m
    case UnauthorizedStatement(s) =>
      exists i :: OutsideGroup(setup, events, i, a) && events[i].signed == s
    case MultipleCandidates(first, second) =>
      && !setup.multiple && digest(first.0) != digest(second.0)
      && CastInOrder(setup, events, a, digest(first.0), Issued(first.1), digest(second.0), Issued(second.1))
    case ValidityDoubleVote(issued, validity) =>
      && digest(issued.0) == validity.0
      && HasCast(setup, events, a, validity.0, Issued(issued.1))
      && HasCast(setup, events, a, validity.0, Explicit(validity.1))
    case DoublySigned(SecondedTwice(c, s1, s2)) =>
      s1 != s2 && CastInOrder(setup, events, a, digest(c), Issued(s1), digest(c), Issued(s2))
    case DoublySigned(ValidTwice(d, s1, s2)) =>
      s1 != s2 && CastInOrder(setup, events, a, d, Explicit(s1), d, Explicit(s2))
  }

  // ---------- Table invariants ----------

  /** Every proposal has a candidate entry; without multiple seconding there is one proposal per authority. */
  ghost predicate ProposalsGood(setup: Setup, t: TableState) {
    && (forall a :: a in t.proposals ==>
          forall k :: 0 <= k < |t.proposals[a]| ==> t.proposals[a][k].0 in t.candidates)
    && (!setup.multiple ==> forall a :: a in t.proposals ==> |t.proposals[a]| == 1)
  }

  /** The votes of a candidate entry were cast by members of its group. */
  ghost predicate CandidateTrue(setup: Setup, events: seq<Event>, d: Digest, data: CandidateData) {
    && setup.ctx.digest(data.candidate) == d
    && forall a :: a in data.votes ==> setup.ctx.isMember(a, data.group) && HasCast(setup, events, a, d, data.votes[a])
  }

  /** Everything in the table was said by the authority it is attributed to. */
  ghost predicate TableTrue(setup: Setup, events: seq<Event>, t: TableState) {
    && ProposalsGood(setup, t)
    && (forall a :: a in t.proposals ==> forall k :: 0 <= k < |t.proposals[a]| ==>
          HasCast(setup, events, a, t.proposals[a][k].0, Issued(t.proposals[a][k].1)))
    && (forall d :: d in t.candidates ==> CandidateTrue(setup, events, d, t.candidates[d]))
  }

  ghost predicate LogTrue(setup: Setup, events: seq<Event>, log: seq<(AuthorityId, Misbehavior)>) {
    forall k :: 0 <= k < |log| ==> Witnessed(setup, events, log[k].0, log[k].1)
  }

  // ---------- Earlier facts stay facts ----------

  lemma HasCastExtends(setup: Setup, events: seq<Event>, e: Event, a: AuthorityId, d: Digest, vote: ValidityVote)
    requires HasCast(setup, events, a, d, vote)
    ensures HasCast(setup, events + [e], a, d, vote)
  {
    var i :| CastAt(setup, events, i, a, d, vote);
    assert (events + [e])[..i] == events[..i];
    assert CastAt(setup, events + [e], i, a, d, vote);
  }

  lemma AllCastsExtend(setup: Setup, events: seq<Event>, e: Event)
    ensures forall a, d, vote ::
              HasCast(setup, events, a, d, vote) ==> HasCast(setup, events + [e], a, d, vote)
  {
    forall a, d, vote | HasCast(setup, events, a, d, vote) ensures HasCast(setup, events + [e], a, d, vote) {
      HasCastExtends(setup, events, e, a, d, vote);
    }
  }

  lemma CastInOrderExtends(setup: Setup, events: seq<Event>, e: Event, a: AuthorityId, d1: Digest, v1: ValidityVote,
                           d2: Digest, v2: ValidityVote)
    requires CastInOrder(setup, events, a, d1, v1, d2, v2)
    ensures CastInOrder(setup, events + [e], a, d1, v1, d2, v2)
  {
    var i, j :| i < j && CastAt(setup, events, i, a, d1, v1) && CastAt(setup, events, j, a, d2, v2);
    assert (events + [e])[..i] == events[..i] && (events + [e])[..j] == events[..j];
    assert CastAt(setup, events + [e], i, a, d1, v1) && CastAt(setup, events + [e], j, a, d2, v2);
  }

  lemma EarlierThenLast(setup: Setup, events: seq<Event>, e: Event, a: AuthorityId, d1: Digest, v1: ValidityVote,
                        d2: Digest, v2: ValidityVote)
    requires HasCast(setup, events, a, d1, v1) && CastAt(setup, events + [e], |events|, a, d2, v2)
    ensures CastInOrder(setup, events + [e], a, d1, v1, d2, v2)
  {
    var i :| CastAt(setup, events, i, a, d1, v1);
    assert (events + [e])[..i] == events[..i];
    assert CastAt(setup, events + [e], i, a, d1, v1);
  }

  lemma WitnessedExtends(setup: Setup, events: seq<Event>, e: Event, a: AuthorityId, m: Misbehavior)
    requires Witnessed(setup, events, a, m)
    ensures Witnessed(setup, events + [e], a, m)
  {
    var digest := setup.ctx.digest;
    match m
    case UnauthorizedStatement(s) =>
      var i :| OutsideGroup(setup, events, i, a) && events[i].signed == s;
      assert (events + [e])[..i] == events[..i];
      assert OutsideGroup(setup, events + [e], i, a);
    case MultipleCandidates(first, second) =>
      CastInOrderExtends(setup, events, e, a, digest(first.0), Issued(first.1), digest(second.0), Issued(second.1));
    case ValidityDoubleVote(_, _) => AllCastsExtend(setup, events, e);
    case DoublySigned(SecondedTwice(c, s1, s2)) =>
      CastInOrderExtends(setup, events, e, a, digest(c), Issued(s1), digest(c), Issued(s2));
    case DoublySigned(ValidTwice(d, s1, s2)) =>
      CastInOrderExtends(setup, events, e, a, d, Explicit(s1), d, Explicit(s2));
  }

  /** The last event, seen from the run before it. */
  lemma LastEvent(setup: Setup, events: seq<Event>, e: Event)
    ensures Exec(setup, events + [e]) == After(setup, Exec(setup, events), e)
    ensures (events + [e])[..|events|] == events
  {
    assert (events + [e])[..|events|] == events;
  }

  // ---------- Soundness ----------

  lemma CastVoteKeepsTrue(setup: Setup, events: seq<Event>, t: TableState, from: AuthorityId, d: Digest,
                          vote: ValidityVote)
    requires TableTrue(setup, events, t)
    requires d in t.candidates ==> HasCast(setup, events, from, d, vote)
    ensures TableTrue(setup, events, CastVote(t, setup.ctx, from, d, vote).table)
  {
    var t' := CastVote(t, setup.ctx, from, d, vote).table;
    forall x | x in t'.candidates ensures CandidateTrue(setup, events, x, t'.candidates[x]) {
      assert CandidateTrue(setup, events, x, t.candidates[x]);
    }
  }

  lemma ConflictIsWitnessed(setup: Setup, events: seq<Event>, e: Event, data: CandidateData, a: AuthorityId, d: Digest,
                            vote: ValidityVote)
    requires a in data.votes && data.votes[a] != vote && setup.ctx.digest(data.candidate) == d
    requires HasCast(setup, events, a, d, data.votes[a]) && CastAt(setup, events + [e], |events|, a, d, vote)
    ensures Witnessed(setup, events + [e], a, Conflict(data.candidate, d, data.votes[a], vote))
  {
    HasCastExtends(setup, events, e, a, d, data.votes[a]);
    EarlierThenLast(setup, events, e, a, d, data.votes[a], d, vote);
  }

  lemma NoteKeepsTrue(setup: Setup, events: seq<Event>, t: TableState, a: AuthorityId, c: Candidate,
                      signature: Signature, group: GroupId)
    requires TableTrue(setup, events, t)
    requires !setup.multiple ==> a !in t.proposals
    requires HasCast(setup, events, a, setup.ctx.digest(c), Issued(signature))
    ensures TableTrue(setup, events, NoteProposal(t, a, c, setup.ctx.digest(c), signature, group))
  {
    var d := setup.ctx.digest(c);
    var t' := NoteProposal(t, a, c, d, signature, group);
    forall x, k | x in t'.proposals && 0 <= k < |t'.proposals[x]|
      ensures t'.proposals[x][k].0 in t'.candidates
      ensures HasCast(setup, events, x, t'.proposals[x][k].0, Issued(t'.proposals[x][k].1))
    {
      if x == a && k == |Proposals(t, a)| {
        assert t'.proposals[x][k] == (d, signature);
      } else {
        assert t'.proposals[x][k] == t.proposals[x][k];
      }
    }
  }

  /** One submission: the table stays true and a report, if any, is witnessed. */
  lemma SubmitIsTrue(setup: Setup, events: seq<Event>, e: Event)
    requires e.Submit? && Exec(setup, events).stuck == None
    requires TableTrue(setup, events, Exec(setup, events).table)
    ensures var step := Judge(Exec(setup, events).table, setup.multiple, setup.ctx, e.group, e.signed);
            && TableTrue(setup, events + [e], step.table)
            && step.outcome != MissingCandidate
            && (step.outcome.Misbehaved? ==>
                  Witnessed(setup, events + [e], e.signed.sender, step.outcome.report))
  {
    var t, events' := Exec(setup, events).table, events + [e];
    var a, sig, last := e.signed.sender, e.signed.signature, |events|;
    LastEvent(setup, events, e);
    AllCastsExtend(setup, events, e);
    assert TableTrue(setup, events', t);
    match e.signed.statement
    case Valid(d) =>
      if d in t.candidates {
        assert CastAt(setup, events', last, a, d, Explicit(sig));
        CastVoteKeepsTrue(setup, events', t, a, d, Explicit(sig));
        if !setup.ctx.isMember(a, t.candidates[d].group) {
          assert OutsideGroup(setup, events', last, a);
        } else if a in t.candidates[d].votes && t.candidates[d].votes[a] != Explicit(sig) {
          ConflictIsWitnessed(setup, events, e, t.candidates[d], a, d, Explicit(sig));
        }
      }
    case Seconded(c) =>
      if !setup.ctx.isMember(a, e.group) {
        assert OutsideGroup(setup, events', last, a);
      } else {
        var d := setup.ctx.digest(c);
        assert CastAt(setup, events', last, a, d, Issued(sig));
        SecondIsTrue(setup, events, e, t, a, c, sig, e.group);
      }
  }

  lemma SecondIsTrue(setup: Setup, events: seq<Event>, e: Event, t: TableState, a: AuthorityId, c: Candidate,
                     sig: Signature, group: GroupId)
    requires TableTrue(setup, events, t) && TableTrue(setup, events + [e], t) && setup.ctx.isMember(a, group)
    requires CastAt(setup, events + [e], |events|, a, setup.ctx.digest(c), Issued(sig))
    ensures var step := Second(t, setup.multiple, setup.ctx, a, c, sig, group);
            && TableTrue(setup, events + [e], step.table)
            && step.outcome != MissingCandidate
            && (step.outcome.Misbehaved? ==> Witnessed(setup, events + [e], a, step.outcome.report))
  {
    var d := setup.ctx.digest(c);
    var check := CheckProposal(t, setup.multiple, a, d);
    if check.Clash? {
      assert t.proposals[a][0] == (check.digest, check.signature);
      EarlierThenLast(setup, events, e, a, check.digest, Issued(check.signature), d, Issued(sig));
    } else {
      var noted := t;
      if check.NewProposal? {
        NoteKeepsTrue(setup, events + [e], t, a, c, sig, group);
        noted := NoteProposal(t, a, c, d, sig, group);
      }
      CastVoteKeepsTrue(setup, events + [e], noted, a, d, Issued(sig));
      if d in t.candidates && a in t.candidates[d].votes && t.candidates[d].votes[a] != Issued(sig) {
        ConflictIsWitnessed(setup, events, e, t.candidates[d], a, d, Issued(sig));
      }
    }
  }

  lemma TableTrueExtends(setup: Setup, events: seq<Event>, e: Event, t: TableState)
    requires TableTrue(setup, events, t)
    ensures TableTrue(setup, events + [e], t)
  {
    AllCastsExtend(setup, events, e);
    forall d | d in t.candidates ensures CandidateTrue(setup, events + [e], d, t.candidates[d]) {
      assert CandidateTrue(setup, events, d, t.candidates[d]);
    }
  }

  /** In every run the table and the log are true, and no proposal has ever lost its candidate. */
  lemma {:induction false} RunIsTrue(setup: Setup, events: seq<Event>)
    ensures TableTrue(setup, events, Exec(setup, events).table)
    ensures LogTrue(setup, events, Exec(setup, events).log)
    ensures Exec(setup, events).stuck != Some(MissingCandidate)
  {
    if events != [] {
      var init, e := events[..|events| - 1], events[|events| - 1];
      RunIsTrue(setup, init);
      var run := Exec(setup, init);
      assert events == init + [e];
      TableTrueExtends(setup, init, e, run.table);
      forall k | 0 <= k < |run.log| ensures Witnessed(setup, events, run.log[k].0, run.log[k].1) {
        WitnessedExtends(setup, init, e, run.log[k].0, run.log[k].1);
      }
      if run.stuck == None && e.Submit? {
        SubmitIsTrue(setup, init, e);
      }
    }
  }
}
