/** The promises of the statement table, for every sequence of submitted statements. */
module StatementTheorems {
  import opened LaneTypes
  import opened StatementTables
  import opened StatementRuns

  // ---------- The places where the code gives up ----------

  /** The group passed along with a candidate depends only on the candidate's digest. */
  ghost predicate GroupsConsistent(setup: Setup, groupOf: Digest -> GroupId, events: seq<Event>) {
    forall i :: 0 <= i < |events| && events[i].Submit? && events[i].signed.statement.Seconded? ==>
      events[i].group == groupOf(setup.ctx.digest(events[i].signed.statement.candidate))
  }

  ghost predicate StoredGroupsConsistent(groupOf: Digest -> GroupId, t: TableState) {
    forall d :: d in t.candidates ==> t.candidates[d].group == groupOf(d)
  }

  /** A proposal once noted always has its candidate: the existence assumption never fails. */
  lemma ProposalAlwaysHasCandidate(setup: Setup, events: seq<Event>)
    ensures Exec(setup, events).stuck != Some(MissingCandidate)
  {
    RunIsTrue(setup, events);
  }

  /** The condition under which a submission makes the table give up, in terms of the table before it. */
  ghost predicate ForeignSeconding(setup: Setup, t: TableState, group: GroupId, signed: SignedStatement) {
    && signed.statement.Seconded?
    && setup.ctx.isMember(signed.sender, group)
    && var d := setup.ctx.digest(signed.statement.candidate);
       && !CheckProposal(t, setup.multiple, signed.sender, d).Clash?
       && d in t.candidates && !setup.ctx.isMember(signed.sender, t.candidates[d].group)
  }

  lemma SecondGivesUpIff(setup: Setup, t: TableState, a: AuthorityId, c: Candidate, s: Signature, group: GroupId)
    requires ProposalsGood(setup, t)
    ensures var outcome := Second(t, setup.multiple, setup.ctx, a, c, s, group).outcome;
            && outcome != MissingCandidate
            && (outcome == ForeignIssuer <==> ForeignSeconding(setup, t, group, SignedStatement(Seconded(c), s, a)))
  {
    var d := setup.ctx.digest(c);
    match CheckProposal(t, setup.multiple, a, d)
    case Clash(_, _) => assert t.proposals[a][0].0 in t.candidates;
    case RepeatedProposal =>
    case NewProposal =>
      var noted := NoteProposal(t, a, c, d, s, group);
      assert d in noted.candidates && (d in t.candidates ==> noted.candidates[d] == t.candidates[d]);
  }

  /**
   A submission makes the table give up exactly when a member of the passed group seconds, without
   clashing with its own earlier proposal, a candidate that is stored under a group it is not in.
   */
  lemma GivesUpIffForeignIssuer(setup: Setup, events: seq<Event>, group: GroupId, signed: SignedStatement)
    ensures var t := Exec(setup, events).table;
            var outcome := Import(t, setup.multiple, setup.ctx, group, signed).outcome;
            && outcome != MissingCandidate
            && (outcome == ForeignIssuer <==> ForeignSeconding(setup, t, group, signed))
  {
    RunIsTrue(setup, events);
    if signed.statement.Seconded? {
      SecondGivesUpIff(setup, Exec(setup, events).table, signed.sender, signed.statement.candidate, signed.signature,
                       group);
    }
  }

  lemma CastVoteKeepsGroups(groupOf: Digest -> GroupId, t: TableState, ctx: Context, from: AuthorityId, d: Digest,
                            v: ValidityVote)
    requires StoredGroupsConsistent(groupOf, t)
    ensures StoredGroupsConsistent(groupOf, CastVote(t, ctx, from, d, v).table)
  {
  }

  lemma SecondKeepsGroups(setup: Setup, groupOf: Digest -> GroupId, t: TableState, a: AuthorityId, c: Candidate,
                          s: Signature)
    requires StoredGroupsConsistent(groupOf, t)
    ensures var group := groupOf(setup.ctx.digest(c));
            StoredGroupsConsistent(groupOf, Second(t, setup.multiple, setup.ctx, a, c, s, group).table)
  {
    var d := setup.ctx.digest(c);
    match CheckProposal(t, setup.multiple, a, d)
    case Clash(_, _) =>
    case RepeatedProposal => CastVoteKeepsGroups(groupOf, t, setup.ctx, a, d, Issued(s));
    case NewProposal =>
      var noted := NoteProposal(t, a, c, d, s, groupOf(d));
      assert StoredGroupsConsistent(groupOf, noted);
      CastVoteKeepsGroups(groupOf, noted, setup.ctx, a, d, Issued(s));
  }

  lemma ImportKeepsGroups(setup: Setup, groupOf: Digest -> GroupId, t: TableState, group: GroupId,
                          signed: SignedStatement)
    requires StoredGroupsConsistent(groupOf, t)
    requires signed.statement.Seconded? ==> group == groupOf(setup.ctx.digest(signed.statement.candidate))
    ensures StoredGroupsConsistent(groupOf, Import(t, setup.multiple, setup.ctx, group, signed).table)
  {
    match signed.statement
    case Valid(d) => CastVoteKeepsGroups(groupOf, t, setup.ctx, signed.sender, d, Explicit(signed.signature));
    case Seconded(c) => SecondKeepsGroups(setup, groupOf, t, signed.sender, c, signed.signature);
  }

  /** When the passed group depends only on the digest, no run ever gives up. */
  lemma {:induction false} ConsistentRunNeverStops(setup: Setup, groupOf: Digest -> GroupId, events: seq<Event>)
    requires GroupsConsistent(setup, groupOf, events)
    ensures Exec(setup, events).stuck == None
    ensures StoredGroupsConsistent(groupOf, Exec(setup, events).table)
  {
    if events != [] {
      var init, e := events[..|events| - 1], events[|events| - 1];
      assert forall i :: 0 <= i < |init| ==> init[i] == events[i];
      ConsistentRunNeverStops(setup, groupOf, init);
      if e.Submit? {
        GivesUpIffForeignIssuer(setup, init, e.group, e.signed);
        assert events[|events| - 1] == e;
        ImportKeepsGroups(setup, groupOf, Exec(setup, init).table, e.group, e.signed);
      }
    }
  }

  /**
   Without consistent groups the table does give up: in any setup, two authorities second one
   candidate for two groups, the second of them not belonging to the first group.
   */
  lemma InconsistentGroupsStopTheTable(setup: Setup, c: Candidate, a: AuthorityId, g: GroupId, s: Signature,
                                       b: AuthorityId, h: GroupId, t: Signature)
    requires setup.ctx.isMember(a, g) && setup.ctx.isMember(b, h) && !setup.ctx.isMember(b, g)
    ensures Exec(setup, [Submit(g, SignedStatement(Seconded(c), s, a)), Submit(h, SignedStatement(Seconded(c), t, b))])
              .stuck == Some(ForeignIssuer)
  {
    var first, second := Submit(g, SignedStatement(Seconded(c), s, a)), Submit(h, SignedStatement(Seconded(c), t, b));
    assert [first, second][..1] == [first] && [first][..0] == [];
    assert Exec(setup, [first]) == After(setup, Exec(setup, []), first);
  }

  // ---------- No false accusation, no missed offence ----------

  ghost predicate Accused(setup: Setup, events: seq<Event>, a: AuthorityId) {
    exists k :: 0 <= k < |Exec(setup, events).log| && Exec(setup, events).log[k].0 == a
  }

  /** Every report is backed by statements of the accused. */
  lemma ReportsAreWitnessed(setup: Setup, events: seq<Event>, k: nat)
    requires k < |Exec(setup, events).log|
    ensures Witnessed(setup, events, Exec(setup, events).log[k].0, Exec(setup, events).log[k].1)
  {
    RunIsTrue(setup, events);
  }

  lemma InOrderGivesBoth(setup: Setup, events: seq<Event>, a: AuthorityId, d1: Digest, v1: ValidityVote,
                         d2: Digest, v2: ValidityVote)
    requires CastInOrder(setup, events, a, d1, v1, d2, v2)
    ensures HasCast(setup, events, a, d1, v1) && HasCast(setup, events, a, d2, v2)
  {
  }

  lemma WitnessedBreaksRule(setup: Setup, events: seq<Event>, a: AuthorityId, m: Misbehavior)
    requires Witnessed(setup, events, a, m)
    ensures BreaksRule(setup, events, a)
  {
    var digest := setup.ctx.digest;
    match m
    case UnauthorizedStatement(_) =>
    case MultipleCandidates(first, second) =>
      InOrderGivesBoth(setup, events, a, digest(first.0), Issued(first.1), digest(second.0), Issued(second.1));
    case ValidityDoubleVote(issued, validity) =>
      assert Issued(issued.1) != Explicit(validity.1);
    case DoublySigned(SecondedTwice(c, s1, s2)) =>
      InOrderGivesBoth(setup, events, a, digest(c), Issued(s1), digest(c), Issued(s2));
      assert Issued(s1) != Issued(s2);
    case DoublySigned(ValidTwice(d, s1, s2)) =>
      InOrderGivesBoth(setup, events, a, d, Explicit(s1), d, Explicit(s2));
      assert Explicit(s1) != Explicit(s2);
  }

  /** The table holds every vote of `a`, and `a` never spoke outside its groups. */
  ghost predicate Recorded(setup: Setup, events: seq<Event>, t: TableState, a: AuthorityId) {
    && (forall i :: !OutsideGroup(setup, events, i, a))
    && (forall d, v :: HasCast(setup, events, a, d, v) ==>
          d in t.candidates && a in t.candidates[d].votes && t.candidates[d].votes[a] == v)
    && (!setup.multiple ==> forall d, s :: HasCast(setup, events, a, d, Issued(s)) ==>
          a in t.proposals && |t.proposals[a]| == 1 && t.proposals[a][0].0 == d)
  }

  lemma RecordedBreaksNoRule(setup: Setup, events: seq<Event>, t: TableState, a: AuthorityId)
    requires Recorded(setup, events, t, a)
    ensures !BreaksRule(setup, events, a)
  {
  }

  ghost predicate CandidatesGrow(before: map<Digest, CandidateData>, after: map<Digest, CandidateData>) {
    forall d :: d in before ==>
      && d in after
      && after[d].group == before[d].group && after[d].candidate == before[d].candidate
      && forall a :: a in before[d].votes ==> a in after[d].votes && after[d].votes[a] == before[d].votes[a]
  }

  /** An import never removes or changes a candidate entry, a vote or another authority's proposals. */
  ghost predicate TableGrows(t: TableState, t': TableState, sender: AuthorityId) {
    && CandidatesGrow(t.candidates, t'.candidates)
    && forall a :: a in t.proposals && a != sender ==> a in t'.proposals && t'.proposals[a] == t.proposals[a]
  }

  lemma VoteGrowsCandidates(candidates: map<Digest, CandidateData>, d: Digest, from: AuthorityId, v: ValidityVote)
    requires d in candidates && from !in candidates[d].votes
    ensures CandidatesGrow(candidates, candidates[d := candidates[d].(votes := candidates[d].votes[from := v])])
  {
  }

  lemma CastVoteGrows(t: TableState, ctx: Context, from: AuthorityId, d: Digest, v: ValidityVote)
    ensures TableGrows(t, CastVote(t, ctx, from, d, v).table, from)
  {
    if d in t.candidates && from !in t.candidates[d].votes {
      VoteGrowsCandidates(t.candidates, d, from, v);
    }
  }

  lemma NoteGrows(t: TableState, a: AuthorityId, c: Candidate, d: Digest, s: Signature, group: GroupId)
    ensures TableGrows(t, NoteProposal(t, a, c, d, s, group), a)
  {
  }

  lemma SecondGrows(t: TableState, setup: Setup, a: AuthorityId, c: Candidate, s: Signature, group: GroupId)
    ensures TableGrows(t, Second(t, setup.multiple, setup.ctx, a, c, s, group).table, a)
  {
    var d := setup.ctx.digest(c);
    match CheckProposal(t, setup.multiple, a, d)
    case Clash(_, _) =>
    case RepeatedProposal => CastVoteGrows(t, setup.ctx, a, d, Issued(s));
    case NewProposal =>
      var noted := NoteProposal(t, a, c, d, s, group);
      NoteGrows(t, a, c, d, s, group);
      CastVoteGrows(noted, setup.ctx, a, d, Issued(s));
  }

  lemma ImportGrows(t: TableState, setup: Setup, group: GroupId, signed: SignedStatement)
    ensures TableGrows(t, Import(t, setup.multiple, setup.ctx, group, signed).table, signed.sender)
  {
    match signed.statement
    case Valid(d) => CastVoteGrows(t, setup.ctx, signed.sender, d, Explicit(signed.signature));
    case Seconded(c) => SecondGrows(t, setup, signed.sender, c, signed.signature, group);
  }

  /** A cast in the extended history is an earlier one or the last event. */
  lemma CastIsOldOrLast(setup: Setup, events: seq<Event>, e: Event, a: AuthorityId, d: Digest, v: ValidityVote)
    requires HasCast(setup, events + [e], a, d, v)
    ensures HasCast(setup, events, a, d, v) || CastAt(setup, events + [e], |events|, a, d, v)
  {
    var i :| CastAt(setup, events + [e], i, a, d, v);
    if i < |events| {
      assert (events + [e])[..i] == events[..i];
      assert CastAt(setup, events, i, a, d, v);
    }
  }

  lemma OutsideIsOldOrLast(setup: Setup, events: seq<Event>, e: Event, i: int, a: AuthorityId)
    requires OutsideGroup(setup, events + [e], i, a)
    ensures OutsideGroup(setup, events, i, a) || i == |events|
  {
    if i < |events| {
      assert (events + [e])[..i] == events[..i];
    }
  }

  /** The table holds exactly this vote of `a` on the candidate. */
  ghost predicate HoldsVote(t: TableState, d: Digest, a: AuthorityId, v: ValidityVote) {
    d in t.candidates && a in t.candidates[d].votes && t.candidates[d].votes[a] == v
  }

  lemma ImportedVoteIsHeld(t: TableState, ctx: Context, from: AuthorityId, d: Digest, v: ValidityVote)
    requires d in t.candidates && CastVote(t, ctx, from, d, v).outcome.Imported?
    ensures HoldsVote(CastVote(t, ctx, from, d, v).table, d, from, v)
  {
  }

  lemma ImportedSecondingIsHeld(setup: Setup, t: TableState, a: AuthorityId, c: Candidate, s: Signature, group: GroupId)
    requires ProposalsGood(setup, t) && setup.ctx.isMember(a, group)
    requires Second(t, setup.multiple, setup.ctx, a, c, s, group).outcome.Imported?
    ensures HoldsVote(Second(t, setup.multiple, setup.ctx, a, c, s, group).table, setup.ctx.digest(c), a, Issued(s))
  {
    var d := setup.ctx.digest(c);
    match CheckProposal(t, setup.multiple, a, d)
    case Clash(_, _) =>
    case RepeatedProposal =>
      var k :| 0 <= k < |t.proposals[a]| && t.proposals[a][k].0 == d;
      assert t.proposals[a][k].0 in t.candidates;
      ImportedVoteIsHeld(t, setup.ctx, a, d, Issued(s));
    case NewProposal =>
      ImportedVoteIsHeld(NoteProposal(t, a, c, d, s, group), setup.ctx, a, d, Issued(s));
  }

  /** An imported vote ends up in the table. */
  lemma CleanVoteIsRecorded(setup: Setup, events: seq<Event>, e: Event, d: Digest, v: ValidityVote)
    requires e.Submit? && CastAt(setup, events + [e], |events|, e.signed.sender, d, v)
    requires Judge(Exec(setup, events).table, setup.multiple, setup.ctx, e.group, e.signed).outcome.Imported?
    ensures HoldsVote(Judge(Exec(setup, events).table, setup.multiple, setup.ctx, e.group, e.signed).table,
                      d, e.signed.sender, v)
  {
    LastEvent(setup, events, e);
    var t, a, s := Exec(setup, events).table, e.signed.sender, e.signed.signature;
    match e.signed.statement
    case Valid(_) => ImportedVoteIsHeld(t, setup.ctx, a, d, v);
    case Seconded(c) =>
      RunIsTrue(setup, events);
      ImportedSecondingIsHeld(setup, t, a, c, s, e.group);
  }

  lemma CleanSecondingIsProposed(setup: Setup, events: seq<Event>, e: Event, d: Digest, s: Signature)
    requires e.Submit? && CastAt(setup, events + [e], |events|, e.signed.sender, d, Issued(s))
    requires !setup.multiple
    requires !Judge(Exec(setup, events).table, setup.multiple, setup.ctx, e.group, e.signed).outcome.Misbehaved?
    ensures var t' := Judge(Exec(setup, events).table, setup.multiple, setup.ctx, e.group, e.signed).table;
            var a := e.signed.sender;
            a in t'.proposals && |t'.proposals[a]| == 1 && t'.proposals[a][0].0 == d
  {
    RunIsTrue(setup, events);
    var t, a := Exec(setup, events).table, e.signed.sender;
    if a in t.proposals {
      assert t.proposals[a][0].0 in t.candidates;
    }
  }

  lemma NotOutsideWhenClean(setup: Setup, events: seq<Event>, e: Event)
    requires e.Submit?
    requires !Judge(Exec(setup, events).table, setup.multiple, setup.ctx, e.group, e.signed).outcome.Misbehaved?
    ensures !OutsideGroup(setup, events + [e], |events|, e.signed.sender)
  {
    LastEvent(setup, events, e);
  }

  lemma VotesStayRecorded(setup: Setup, events: seq<Event>, e: Event, a: AuthorityId, d: Digest, v: ValidityVote)
    requires Recorded(setup, events, Exec(setup, events).table, a)
    requires Exec(setup, events).stuck == None
    requires e.Submit? && HasCast(setup, events + [e], a, d, v)
    requires e.signed.sender == a ==>
               Judge(Exec(setup, events).table, setup.multiple, setup.ctx, e.group, e.signed).outcome.Imported?
    ensures var t' := Exec(setup, events + [e]).table;
            d in t'.candidates && a in t'.candidates[d].votes && t'.candidates[d].votes[a] == v
  {
    LastEvent(setup, events, e);
    ImportGrows(Exec(setup, events).table, setup, e.group, e.signed);
    CastIsOldOrLast(setup, events, e, a, d, v);
    if !HasCast(setup, events, a, d, v) {
      assert (events + [e])[|events|] == e;
      CleanVoteIsRecorded(setup, events, e, d, v);
    }
  }

  lemma CastVoteKeepsProposals(t: TableState, ctx: Context, from: AuthorityId, d: Digest, v: ValidityVote)
    ensures CastVote(t, ctx, from, d, v).table.proposals == t.proposals
  {
  }

  /** In single-seconded mode the one proposal of an authority is never changed. */
  lemma ProposalUnchanged(setup: Setup, t: TableState, group: GroupId, signed: SignedStatement, a: AuthorityId)
    requires !setup.multiple && ProposalsGood(setup, t) && a in t.proposals
    ensures var t' := Judge(t, setup.multiple, setup.ctx, group, signed).table;
            a in t'.proposals && t'.proposals[a] == t.proposals[a]
  {
    match signed.statement
    case Valid(d) => CastVoteKeepsProposals(t, setup.ctx, signed.sender, d, Explicit(signed.signature));
    case Seconded(c) =>
      var d := setup.ctx.digest(c);
      var noted := NoteProposal(t, signed.sender, c, d, signed.signature, group);
      CastVoteKeepsProposals(t, setup.ctx, signed.sender, d, Issued(signed.signature));
      CastVoteKeepsProposals(noted, setup.ctx, signed.sender, d, Issued(signed.signature));
  }

  lemma ProposalStaysRecorded(setup: Setup, events: seq<Event>, e: Event, a: AuthorityId, d: Digest, s: Signature)
    requires !setup.multiple && Recorded(setup, events, Exec(setup, events).table, a)
    requires Exec(setup, events).stuck == None
    requires e.Submit? && HasCast(setup, events + [e], a, d, Issued(s))
    requires e.signed.sender == a ==>
               !Judge(Exec(setup, events).table, setup.multiple, setup.ctx, e.group, e.signed).outcome.Misbehaved?
    ensures var t' := Exec(setup, events + [e]).table;
            a in t'.proposals && |t'.proposals[a]| == 1 && t'.proposals[a][0].0 == d
  {
    LastEvent(setup, events, e);
    CastIsOldOrLast(setup, events, e, a, d, Issued(s));
    if HasCast(setup, events, a, d, Issued(s)) {
      RunIsTrue(setup, events);
      ProposalUnchanged(setup, Exec(setup, events).table, e.group, e.signed, a);
    } else {
      CleanSecondingIsProposed(setup, events, e, d, s);
    }
  }

  lemma RecordedStep(setup: Setup, events: seq<Event>, e: Event, a: AuthorityId)
    requires Recorded(setup, events, Exec(setup, events).table, a)
    requires Exec(setup, events).stuck == None
    requires e.Submit?
    requires e.signed.sender == a ==>
               Judge(Exec(setup, events).table, setup.multiple, setup.ctx, e.group, e.signed).outcome.Imported?
    ensures Recorded(setup, events + [e], Exec(setup, events + [e]).table, a)
  {
    var events' := events + [e];
    var t' := Exec(setup, events').table;
    forall i | OutsideGroup(setup, events', i, a) ensures false {
      OutsideIsOldOrLast(setup, events, e, i, a);
      NotOutsideWhenClean(setup, events, e);
    }
    forall d, v | HasCast(setup, events', a, d, v)
      ensures d in t'.candidates && a in t'.candidates[d].votes && t'.candidates[d].votes[a] == v
    {
      VotesStayRecorded(setup, events, e, a, d, v);
    }
    if !setup.multiple {
      forall d, s | HasCast(setup, events', a, d, Issued(s))
        ensures a in t'.proposals && |t'.proposals[a]| == 1 && t'.proposals[a][0].0 == d
      {
        ProposalStaysRecorded(setup, events, e, a, d, s);
      }
    }
  }

  lemma LogOnlyGrows(setup: Setup, events: seq<Event>, e: Event, a: AuthorityId)
    ensures Accused(setup, events, a) ==> Accused(setup, events + [e], a)
    ensures e.Submit? && e.signed.sender == a && Exec(setup, events).stuck == None
            && Judge(Exec(setup, events).table, setup.multiple, setup.ctx, e.group, e.signed).outcome.Misbehaved?
            ==> Accused(setup, events + [e], a)
  {
    LastEvent(setup, events, e);
    var log, log' := Exec(setup, events).log, Exec(setup, events + [e]).log;
    assert forall k :: 0 <= k < |log| ==> k < |log'| && log'[k] == log[k];
    assert |log'| > |log| ==> log'[|log|].0 == e.signed.sender;
  }

  lemma DrainKeepsRecorded(setup: Setup, events: seq<Event>, a: AuthorityId)
    requires Recorded(setup, events, Exec(setup, events).table, a)
    ensures Recorded(setup, events + [Drain], Exec(setup, events + [Drain]).table, a)
  {
    LastEvent(setup, events, Drain);
    forall i | OutsideGroup(setup, events + [Drain], i, a) ensures false {
      OutsideIsOldOrLast(setup, events, Drain, i, a);
    }
    forall d, v | HasCast(setup, events + [Drain], a, d, v) ensures HasCast(setup, events, a, d, v) {
      CastIsOldOrLast(setup, events, Drain, a, d, v);
    }
  }

  lemma {:induction false} UnaccusedIsRecorded(setup: Setup, events: seq<Event>, a: AuthorityId)
    requires Exec(setup, events).stuck == None && !Accused(setup, events, a)
    ensures Recorded(setup, events, Exec(setup, events).table, a)
  {
    if events != [] {
      var init, e := events[..|events| - 1], events[|events| - 1];
      assert events == init + [e];
      LogOnlyGrows(setup, init, e, a);
      UnaccusedIsRecorded(setup, init, a);
      if e.Submit? {
        RecordedStep(setup, init, e, a);
      } else {
        DrainKeepsRecorded(setup, init, a);
      }
    }
  }

  /** Nobody who kept the rules is ever reported, and unless the table gave up everybody who broke one is. */
  lemma AccusedIffRuleBroken(setup: Setup, events: seq<Event>, a: AuthorityId)
    ensures Accused(setup, events, a) ==> BreaksRule(setup, events, a)
    ensures Exec(setup, events).stuck == None ==> (Accused(setup, events, a) <==> BreaksRule(setup, events, a))
  {
    if Accused(setup, events, a) {
      var k :| 0 <= k < |Exec(setup, events).log| && Exec(setup, events).log[k].0 == a;
      ReportsAreWitnessed(setup, events, k);
      WitnessedBreaksRule(setup, events, a, Exec(setup, events).log[k].1);
    } else if Exec(setup, events).stuck == None {
      UnaccusedIsRecorded(setup, events, a);
      RecordedBreaksNoRule(setup, events, Exec(setup, events).table, a);
    }
  }

  /** In particular when the passed group depends only on the digest. */
  lemma ConsistentRunReportsExactly(setup: Setup, groupOf: Digest -> GroupId, events: seq<Event>, a: AuthorityId)
    requires GroupsConsistent(setup, groupOf, events)
    ensures Accused(setup, events, a) <==> BreaksRule(setup, events, a)
  {
    ConsistentRunNeverStops(setup, groupOf, events);
    AccusedIffRuleBroken(setup, events, a);
  }

  // ---------- Reports name the very candidates that were signed ----------

  ghost predicate Submitted(events: seq<Event>, a: AuthorityId, statement: Statement, signature: Signature) {
    exists g :: Submit(g, SignedStatement(statement, signature, a)) in events
  }

  ghost predicate Injective(digest: Candidate -> Digest) {
    forall c1, c2 :: digest(c1) == digest(c2) ==> c1 == c2
  }

  /** Both signed statements that a report shows were submitted by the accused. */
  ghost predicate ShowsSubmitted(events: seq<Event>, a: AuthorityId, m: Misbehavior) {
    match m
    case UnauthorizedStatement(s) => s.sender == a && Submitted(events, a, s.statement, s.signature)
    case MultipleCandidates(first, second) =>
      && first.0 != second.0
      && Submitted(events, a, Seconded(first.0), first.1) && Submitted(events, a, Seconded(second.0), second.1)
    case ValidityDoubleVote(issued, validity) =>
      && Submitted(events, a, Seconded(issued.0), issued.1)
      && Submitted(events, a, Valid(validity.0), validity.1)
    case DoublySigned(SecondedTwice(c, s1, s2)) =>
      s1 != s2 && Submitted(events, a, Seconded(c), s1) && Submitted(events, a, Seconded(c), s2)
    case DoublySigned(ValidTwice(d, s1, s2)) =>
      s1 != s2 && Submitted(events, a, Valid(d), s1) && Submitted(events, a, Valid(d), s2)
  }

  lemma SecondingWasSubmitted(setup: Setup, events: seq<Event>, a: AuthorityId, c: Candidate, s: Signature)
    requires Injective(setup.ctx.digest) && HasCast(setup, events, a, setup.ctx.digest(c), Issued(s))
    ensures Submitted(events, a, Seconded(c), s)
  {
    var i :| CastAt(setup, events, i, a, setup.ctx.digest(c), Issued(s));
    assert events[i] == Submit(events[i].group, SignedStatement(Seconded(c), s, a));
  }

  lemma ValidityWasSubmitted(setup: Setup, events: seq<Event>, a: AuthorityId, d: Digest, s: Signature)
    requires HasCast(setup, events, a, d, Explicit(s))
    ensures Submitted(events, a, Valid(d), s)
  {
    var i :| CastAt(setup, events, i, a, d, Explicit(s));
    assert events[i] == Submit(events[i].group, SignedStatement(Valid(d), s, a));
  }

  /** With collision-free digests every report shows exactly what the accused signed. */
  lemma ReportsShowWhatWasSigned(setup: Setup, events: seq<Event>, k: nat)
    requires Injective(setup.ctx.digest) && k < |Exec(setup, events).log|
    ensures ShowsSubmitted(events, Exec(setup, events).log[k].0, Exec(setup, events).log[k].1)
  {
    ReportsAreWitnessed(setup, events, k);
    var (a, m) := Exec(setup, events).log[k];
    var digest := setup.ctx.digest;
    match m
    case UnauthorizedStatement(s) =>
      var i :| OutsideGroup(setup, events, i, a) && events[i].signed == s;
      assert events[i] == Submit(events[i].group, SignedStatement(s.statement, s.signature, a));
    case MultipleCandidates(first, second) =>
      InOrderGivesBoth(setup, events, a, digest(first.0), Issued(first.1), digest(second.0), Issued(second.1));
      SecondingWasSubmitted(setup, events, a, first.0, first.1);
      SecondingWasSubmitted(setup, events, a, second.0, second.1);
    case ValidityDoubleVote(issued, validity) =>
      SecondingWasSubmitted(setup, events, a, issued.0, issued.1);
      ValidityWasSubmitted(setup, events, a, validity.0, validity.1);
    case DoublySigned(SecondedTwice(c, s1, s2)) =>
      InOrderGivesBoth(setup, events, a, digest(c), Issued(s1), digest(c), Issued(s2));
      SecondingWasSubmitted(setup, events, a, c, s1);
      SecondingWasSubmitted(setup, events, a, c, s2);
    case DoublySigned(ValidTwice(d, s1, s2)) =>
      InOrderGivesBoth(setup, events, a, d, Explicit(s1), d, Explicit(s2));
      ValidityWasSubmitted(setup, events, a, d, s1);
      ValidityWasSubmitted(setup, events, a, d, s2);
  }

  /** Any collision, seconded twice by any member of a group, is reported with a statement that was never made. */
  lemma CollisionIsMisattributed(setup: Setup, a: AuthorityId, g: GroupId, c1: Candidate, c2: Candidate,
                                 s1: Signature, s2: Signature)
    requires setup.ctx.isMember(a, g) && s1 != s2
    requires c1 != c2 && setup.ctx.digest(c1) == setup.ctx.digest(c2)
    ensures var events := [Submit(g, SignedStatement(Seconded(c1), s1, a)),
                           Submit(g, SignedStatement(Seconded(c2), s2, a))];
            && Exec(setup, events).log == [(a, DoublySigned(SecondedTwice(c1, s1, s2)))]
            && !Submitted(events, a, Seconded(c1), s2)
  {
    var e1, e2 := Submit(g, SignedStatement(Seconded(c1), s1, a)), Submit(g, SignedStatement(Seconded(c2), s2, a));
    assert [e1, e2][..1] == [e1] && [e1][..0] == [];
    assert Exec(setup, [e1]) == After(setup, Exec(setup, []), e1);
    assert Exec(setup, [e1, e2]) == After(setup, Exec(setup, [e1]), e2);
  }

  ghost predicate AllReportsShowSubmitted(setup: Setup, events: seq<Event>) {
    var log := Exec(setup, events).log;
    forall k :: 0 <= k < |log| ==> ShowsSubmitted(events, log[k].0, log[k].1)
  }

  /** All reports of all runs show what was signed if and only if digests do not collide. */
  lemma ReportsShowSignedIffInjective(setup: Setup, a: AuthorityId, g: GroupId, s1: Signature, s2: Signature)
    requires setup.ctx.isMember(a, g) && s1 != s2
    ensures (forall events :: AllReportsShowSubmitted(setup, events)) <==> Injective(setup.ctx.digest)
  {
    if Injective(setup.ctx.digest) {
      forall events ensures AllReportsShowSubmitted(setup, events) {
        forall k | 0 <= k < |Exec(setup, events).log|
          ensures ShowsSubmitted(events, Exec(setup, events).log[k].0, Exec(setup, events).log[k].1)
        {
          ReportsShowWhatWasSigned(setup, events, k);
        }
      }
    } else {
      var c1, c2 :| setup.ctx.digest(c1) == setup.ctx.digest(c2) && c1 != c2;
      CollisionIsMisattributed(setup, a, g, c1, c2, s1, s2);
      var events := [Submit(g, SignedStatement(Seconded(c1), s1, a)), Submit(g, SignedStatement(Seconded(c2), s2, a))];
      assert !ShowsSubmitted(events, Exec(setup, events).log[0].0, Exec(setup, events).log[0].1);
      assert !AllReportsShowSubmitted(setup, events);
    }
  }

  // ---------- Proposals ----------

  /** The event is a seconding of `a` within its group that adds to what `a` has proposed so far. */
  ghost predicate Proposes(setup: Setup, noted: seq<(Digest, Signature)>, a: AuthorityId, e: Event) {
    && e.Submit? && e.signed.sender == a && e.signed.statement.Seconded? && setup.ctx.isMember(a, e.group)
    && if setup.multiple
       then forall i :: 0 <= i < |noted| ==> noted[i].0 != setup.ctx.digest(e.signed.statement.candidate)
       else noted == []
  }

  /** The secondings of `a`: the first one of every candidate or, in single-seconded mode, just the first. */
  ghost function Secondings(setup: Setup, events: seq<Event>, a: AuthorityId): seq<(Digest, Signature)> {
    if events == [] then []
    else
      var before, e := Secondings(setup, events[..|events| - 1], a), events[|events| - 1];
      if Proposes(setup, before, a, e)
      then before + [(setup.ctx.digest(e.signed.statement.candidate), e.signed.signature)]
      else before
  }

  lemma SecondNotesProposal(setup: Setup, t: TableState, from: AuthorityId, c: Candidate, s: Signature, group: GroupId)
    requires ProposalsGood(setup, t) && setup.ctx.isMember(from, group)
    ensures var t' := Second(t, setup.multiple, setup.ctx, from, c, s, group).table;
            t'.proposals == if CheckProposal(t, setup.multiple, from, setup.ctx.digest(c)).NewProposal?
                            then t.proposals[from := Proposals(t, from) + [(setup.ctx.digest(c), s)]]
                            else t.proposals
  {
    var d := setup.ctx.digest(c);
    CastVoteKeepsProposals(t, setup.ctx, from, d, Issued(s));
    CastVoteKeepsProposals(NoteProposal(t, from, c, d, s, group), setup.ctx, from, d, Issued(s));
  }

  lemma ImportNotesProposal(setup: Setup, t: TableState, a: AuthorityId, e: Event)
    requires ProposalsGood(setup, t) && e.Submit?
    ensures var t' := Import(t, setup.multiple, setup.ctx, e.group, e.signed).table;
            Proposals(t', a) == if Proposes(setup, Proposals(t, a), a, e)
                                then Proposals(t, a) + [(setup.ctx.digest(e.signed.statement.candidate),
                                                         e.signed.signature)]
                                else Proposals(t, a)
  {
    var from, s := e.signed.sender, e.signed.signature;
    match e.signed.statement
    case Valid(d) => CastVoteKeepsProposals(t, setup.ctx, from, d, Explicit(s));
    case Seconded(c) =>
      if setup.ctx.isMember(from, e.group) {
        SecondNotesProposal(setup, t, from, c, s, e.group);
      }
  }

  /** As long as the table has not given up it knows exactly the secondings of every authority, in order. */
  lemma {:induction false} ProposalsAreSecondings(setup: Setup, events: seq<Event>, a: AuthorityId)
    requires Exec(setup, events).stuck == None
    ensures Proposals(Exec(setup, events).table, a) == Secondings(setup, events, a)
  {
    if events != [] {
      var init, e := events[..|events| - 1], events[|events| - 1];
      assert Exec(setup, events) == After(setup, Exec(setup, init), e);
      ProposalsAreSecondings(setup, init, a);
      if e.Submit? {
        RunIsTrue(setup, init);
        ImportNotesProposal(setup, Exec(setup, init).table, a, e);
      }
    }
  }

  // ---------- Attestation ----------

  /** A candidate is attested exactly when enough members of its group have voted for it, and it lists those votes. */
  lemma AttestedIffBacked(setup: Setup, events: seq<Event>, d: Digest, minimum: nat)
    ensures var t := Exec(setup, events).table;
            var attested := AttestedIn(t, setup.ctx, d, minimum);
            && (attested.Some? <==>
                && d in t.candidates
                && var votes := |t.candidates[d].votes|;
                   match setup.ctx.groupSize(t.candidates[d].group)
                   case Some(len) => votes >= len || votes >= minimum
                   case None => votes >= U64_MAX)
            && (attested.Some? ==>
                  && attested.value.group == t.candidates[d].group
                  && attested.value.votes == t.candidates[d].votes
                  && setup.ctx.digest(attested.value.candidate) == d
                  && forall a :: a in attested.value.votes ==>
                       && setup.ctx.isMember(a, attested.value.group)
                       && HasCast(setup, events, a, d, attested.value.votes[a]))
  {
    RunIsTrue(setup, events);
  }

  /** A summary is returned exactly for a vote that was not there before, and it counts that vote. */
  lemma SummaryCountsFreshVote(t: TableState, ctx: Context, from: AuthorityId, d: Digest, vote: ValidityVote)
    ensures var step := CastVote(t, ctx, from, d, vote);
            && (step.outcome.Imported? && step.outcome.summary.Some? <==>
                d in t.candidates && ctx.isMember(from, t.candidates[d].group) && from !in t.candidates[d].votes)
            && (step.outcome.Imported? && step.outcome.summary.Some? ==>
                  && step.table.candidates[d].votes == t.candidates[d].votes[from := vote]
                  && step.outcome.summary.value.candidate == d
                  && step.outcome.summary.value.group == t.candidates[d].group
                  && step.outcome.summary.value.validityVotes == |t.candidates[d].votes| + 1)
  {
    if d in t.candidates && from !in t.candidates[d].votes {
      var votes := t.candidates[d].votes;
      assert votes[from := vote].Keys == votes.Keys + {from};
    }
  }

  lemma StepKeepsAttested(setup: Setup, run: Run, e: Event, d: Digest, minimum: nat)
    requires AttestedIn(run.table, setup.ctx, d, minimum).Some?
    ensures var before := AttestedIn(run.table, setup.ctx, d, minimum);
            var after := AttestedIn(After(setup, run, e).table, setup.ctx, d, minimum);
            && after.Some?
            && after.value.group == before.value.group && after.value.candidate == before.value.candidate
            && forall a :: a in before.value.votes ==>
                 a in after.value.votes && after.value.votes[a] == before.value.votes[a]
  {
    if run.stuck == None && e.Submit? {
      ImportGrows(run.table, setup, e.group, e.signed);
      var t' := Import(run.table, setup.multiple, setup.ctx, e.group, e.signed).table;
      SubsetIsSmaller(run.table.candidates[d].votes.Keys, t'.candidates[d].votes.Keys);
    }
  }

  /** Once attested, a candidate stays attested with all its votes, whatever is submitted later. */
  lemma {:induction false} AttestationLasts(setup: Setup, events: seq<Event>, more: seq<Event>, d: Digest, minimum: nat)
    requires AttestedIn(Exec(setup, events).table, setup.ctx, d, minimum).Some?
    ensures var before := AttestedIn(Exec(setup, events).table, setup.ctx, d, minimum);
            var after := AttestedIn(Exec(setup, events + more).table, setup.ctx, d, minimum);
            && after.Some?
            && after.value.group == before.value.group && after.value.candidate == before.value.candidate
            && forall a :: a in before.value.votes ==>
                 a in after.value.votes && after.value.votes[a] == before.value.votes[a]
    decreases |more|
  {
    if more == [] {
      assert events + more == events;
    } else {
      var init, e := more[..|more| - 1], more[|more| - 1];
      assert events + more == (events + init) + [e];
      AttestationLasts(setup, events, init, d, minimum);
      LastEvent(setup, events + init, e);
      StepKeepsAttested(setup, Exec(setup, events + init), e, d, minimum);
    }
  }

  // ---------- Draining ----------

  ghost function ReportsOn(log: seq<(AuthorityId, Misbehavior)>, a: AuthorityId): seq<Misbehavior> {
    if log == [] then []
    else
      var last := log[|log| - 1];
      ReportsOn(log[..|log| - 1], a) + if last.0 == a then [last.1] else []
  }

  lemma JudgeKeepsReports(t: TableState, setup: Setup, group: GroupId, signed: SignedStatement)
    ensures Judge(t, setup.multiple, setup.ctx, group, signed).table.misbehavior == t.misbehavior
  {
  }

  /** The log splits into handed-out and pending reports, per authority and in order. */
  ghost predicate Conserved(run: Run) {
    && (forall a :: ReportsOn(run.log, a) == Reports(run.drained, a) + Reports(run.table.misbehavior, a))
    && (forall a :: a in run.table.misbehavior ==> run.table.misbehavior[a] != [])
  }

  lemma ReportIsConserved(run: Run, t: TableState, a: AuthorityId, report: Misbehavior)
    requires Conserved(run) && t.misbehavior == run.table.misbehavior
    ensures Conserved(run.(table := WithReport(t, a, report), log := run.log + [(a, report)]))
  {
    var run' := run.(table := WithReport(t, a, report), log := run.log + [(a, report)]);
    assert run'.log[..|run.log|] == run.log;
    forall x ensures ReportsOn(run'.log, x) == Reports(run'.drained, x) + Reports(run'.table.misbehavior, x) {
      assert ReportsOn(run.log, x) == Reports(run.drained, x) + Reports(run.table.misbehavior, x);
      if x == a {
        assert Reports(run'.table.misbehavior, x) == Reports(run.table.misbehavior, x) + [report];
      } else {
        assert ReportsOn(run'.log, x) == ReportsOn(run.log, x) + [];
      }
    }
  }

  lemma SubmitConserves(setup: Setup, run: Run, e: Event)
    requires Conserved(run) && run.stuck == None && e.Submit?
    ensures Conserved(After(setup, run, e))
  {
    JudgeKeepsReports(run.table, setup, e.group, e.signed);
    var step := Judge(run.table, setup.multiple, setup.ctx, e.group, e.signed);
    if step.outcome.Misbehaved? {
      ReportIsConserved(run, step.table, e.signed.sender, step.outcome.report);
    } else {
      assert Conserved(run.(table := step.table));
    }
  }

  lemma DrainConserves(setup: Setup, run: Run, e: Event)
    requires Conserved(run) && (run.stuck.Some? || e.Drain?)
    ensures Conserved(After(setup, run, e))
  {
    var run' := After(setup, run, e);
    forall a ensures ReportsOn(run'.log, a) == Reports(run'.drained, a) + Reports(run'.table.misbehavior, a) {
      assert ReportsOn(run.log, a) == Reports(run.drained, a) + Reports(run.table.misbehavior, a);
    }
  }

  /** Every report is either handed out or pending, never lost or repeated, and no pending list is empty. */
  lemma {:induction false} ReportsAreConserved(setup: Setup, events: seq<Event>)
    ensures Conserved(Exec(setup, events))
  {
    if events != [] {
      var init, e := events[..|events| - 1], events[|events| - 1];
      ReportsAreConserved(setup, init);
      var run := Exec(setup, init);
      if run.stuck == None && e.Submit? {
        SubmitConserves(setup, run, e);
      } else {
        DrainConserves(setup, run, e);
      }
    }
  }

  /** The drain yields the entries of the map, each authority once, in some order. */
  ghost predicate Enumerates(groups: seq<(AuthorityId, seq<Misbehavior>)>, m: map<AuthorityId, seq<Misbehavior>>) {
    && (forall i, j :: 0 <= i < j < |groups| ==> groups[i].0 != groups[j].0)
    && (forall i :: 0 <= i < |groups| ==> groups[i].0 in m && m[groups[i].0] == groups[i].1)
    && (forall a :: a in m ==> exists i :: 0 <= i < |groups| && groups[i].0 == a)
  }

  lemma {:induction false} ReportsOnAppend(log: seq<(AuthorityId, Misbehavior)>, more: seq<(AuthorityId, Misbehavior)>,
                                           a: AuthorityId)
    ensures ReportsOn(log + more, a) == ReportsOn(log, a) + ReportsOn(more, a)
  {
    if more == [] {
      assert log + more == log;
    } else {
      assert (log + more)[..|log + more| - 1] == log + more[..|more| - 1];
      ReportsOnAppend(log, more[..|more| - 1], a);
    }
  }

  lemma {:induction false} ReportsOnTagged(id: AuthorityId, reports: seq<Misbehavior>, a: AuthorityId)
    ensures ReportsOn(Tagged(id, reports), a) == if id == a then reports else []
  {
    if reports != [] {
      var init := reports[..|reports| - 1];
      assert Tagged(id, reports)[..|reports| - 1] == Tagged(id, init);
      ReportsOnTagged(id, init, a);
    }
  }

  lemma {:induction false} FlattenYields(groups: seq<(AuthorityId, seq<Misbehavior>)>, a: AuthorityId)
    requires forall i, j :: 0 <= i < j < |groups| ==> groups[i].0 != groups[j].0
    ensures forall i :: 0 <= i < |groups| && groups[i].0 == a ==> ReportsOn(Flatten(groups), a) == groups[i].1
    ensures (forall i :: 0 <= i < |groups| ==> groups[i].0 != a) ==> ReportsOn(Flatten(groups), a) == []
  {
    if groups != [] {
      var rest := groups[1..];
      assert forall i :: 0 <= i < |rest| ==> rest[i] == groups[i + 1];
      FlattenYields(rest, a);
      ReportsOnTagged(groups[0].0, groups[0].1, a);
      ReportsOnAppend(Tagged(groups[0].0, groups[0].1), Flatten(rest), a);
      if groups[0].0 == a {
        assert forall i :: 0 <= i < |rest| ==> rest[i].0 != a;
        assert groups[0].1 + [] == groups[0].1;
      }
    }
  }

  /**
   In every run, in whatever order the pending reports are drained, the iterator never meets an
   empty list, so it does not end early, and it hands out exactly the reports of each authority in
   the order they were made.
   */
  lemma DrainNeverEndsEarly(setup: Setup, events: seq<Event>, drain: MisbehaviorDrain)
    requires drain.inProgress == None && Enumerates(drain.drain, Exec(setup, events).table.misbehavior)
    ensures drain.NoEmptyGroup()
    ensures forall a :: ReportsOn(drain.Remaining(), a) == Reports(Exec(setup, events).table.misbehavior, a)
  {
    ReportsAreConserved(setup, events);
    var m := Exec(setup, events).table.misbehavior;
    NothingInProgress(None, drain.drain);
    forall a ensures ReportsOn(drain.Remaining(), a) == Reports(m, a) {
      FlattenYields(drain.drain, a);
    }
  }
}
