/** The invariant of every reachable state, between operations and inside them: the history is
    accepted by the protocol, and the coordinator's fields and the participants fit it. */
module Invariant {
  import opened OtsTypes
  import opened Participants
  import opened CoordinatorSpec
  import opened Protocol

  function Refs(entries: seq<Entry>): (refs: seq<Ref>)
    ensures |refs| == |entries|
    ensures forall i | 0 <= i < |entries| :: refs[i] == entries[i].r
  {
    seq(|entries|, i requires 0 <= i < |entries| => entries[i].r)
  }

  predicate Distinct(entries: seq<Entry>) {
    forall i, j | 0 <= i < j < |entries| :: entries[i].r != entries[j].r
  }

  predicate FavourableVote(rv: ResourceVote) {
    rv == RvVoteCommit || rv == RvVoteReadOnly
  }

  /** The coordinator's own fields repeat what the history says. */
  predicate FieldsFit(s: Sys, v: View) {
    && v.status == s.status && v.joined == Refs(s.entries) && v.syncs == s.syncs
    && Distinct(s.entries)
    && (forall i | 0 <= i < |s.entries| :: s.entries[i].r in s.parts)
    && (s.status != StatusNoTransaction ==> v.notified == 0)
    && (s.status == StatusActive ==> v.prepared == [])
    && (v.prepared == [] ==> v.favourable)
  }

  predicate NobodyCommitted(entries: seq<Entry>) {
    forall i | 0 <= i < |entries| ::
      FavourableVote(entries[i].rv) || entries[i].rv == RvRolledBack || entries[i].rv == RvNotPrepared
  }

  /** The votes in the list, by status. */
  predicate VotesFit(s: Sys, v: View) {
    match s.status
    case StatusActive => forall i | 0 <= i < |s.entries| :: s.entries[i].rv == RvNotPrepared
    case StatusPreparing =>
      if v.favourable then
        && |v.prepared| <= |v.joined| == |s.entries| && v.prepared == v.joined[..|v.prepared|]
        && forall i | 0 <= i < |s.entries| ::
             if i < |v.prepared| then FavourableVote(s.entries[i].rv) else s.entries[i].rv == RvNotPrepared
      else NobodyCommitted(s.entries)
    case StatusCommitting =>
      v.favourable && v.prepared == v.joined
      && forall i | 0 <= i < |s.entries| :: FavourableVote(s.entries[i].rv) || s.entries[i].rv == RvCommitted
    case StatusMarkedRollback | StatusRollingBack => NobodyCommitted(s.entries)
    case _ => true
  }

  /** The participants are where the history left them. */
  predicate PartsFit(s: Sys, v: View) {
    && (forall r | r in s.parts ::
          && Consistent(s.parts[r])
          && (r in v.committed <==> s.parts[r].status == StatusCommitting)
          && (r in v.aborted <==> s.parts[r].status == StatusRollingBack)
          && (r !in v.joined ==> s.parts[r].status == StatusActive))
    && v.committed <= s.parts.Keys && v.aborted <= s.parts.Keys
    && (s.status == StatusPreparing && v.favourable ==>
          forall i | 0 <= i < |v.prepared| ::
            v.prepared[i] in s.parts && s.parts[v.prepared[i]].status == StatusPrepared)
  }

  predicate Untouched(v: View) {
    v.committed == {} && v.aborted == {}
  }

  /** How the decision relates to the status and to what participants have done. */
  predicate DecisionFits(v: View) {
    && (v.decision == Undecided ==> Untouched(v))
    && (v.status == StatusActive || v.status == StatusPreparing ==>
          (v.decision == ToCommit ==> v.committed != {}) && (v.decision == ToAbort ==> v.aborted != {}))
    && (v.status == StatusCommitting ==> v.decision == ToCommit && v.aborted == {} && !v.late)
    && (v.late ==> v.committed != {})
    && (v.status == StatusMarkedRollback || v.status == StatusRollingBack ==>
          v.decision == ToAbort || v.committed != {})
    && (v.decision == Undecided ==> v.status == StatusActive || v.status == StatusPreparing)
    && (!v.late && v.committed != {} && v.status != StatusCommitting && v.status != StatusNoTransaction ==>
          |v.joined| == 1)
    && (!v.late ==> (v.committed != {} ==> v.decision == ToCommit) && (v.aborted != {} ==> v.decision == ToAbort))
  }

  predicate Fits(s: Sys, v: View) {
    FieldsFit(s, v) && VotesFit(s, v) && PartsFit(s, v) && DecisionFits(v)
  }

  predicate Inv(s: Sys) {
    Accepted(s.trace) && Fits(s, Read(s.trace))
  }

  lemma AcceptedNow(s: Sys)
    requires Inv(s)
    ensures Accepted(s.trace)
  {
  }

  lemma ReadsStatus(s: Sys)
    requires Inv(s)
    ensures Read(s.trace).status == s.status
  {
  }

  lemma InitialFits(s: Sys)
    requires Initial(s)
    ensures Inv(s)
  {
  }

  lemma Extend(s: Sys, t: Sys, e: Event)
    requires Inv(s) && t.trace == s.trace + [e]
    requires Follows(Read(s.trace), e) && Fits(t, Next(Read(s.trace), e))
    ensures Inv(t) && Read(t.trace) == Next(Read(s.trace), e)
  {
    AcceptedExtended(s.trace, e);
  }

  // ------------------------------------------------------------------
  // One step at a time
  // ------------------------------------------------------------------

  /** When everybody has voted favourably, nobody has taken effect yet. */
  lemma PreparedAllUntouched(s: Sys, v: View)
    requires Fits(s, v) && v.status == StatusPreparing && v.favourable && v.prepared == v.joined
    ensures Untouched(v) && v.decision == Undecided
  {
    forall r | r in v.joined ensures r !in v.committed && r !in v.aborted {
      var i :| 0 <= i < |v.joined| && v.joined[i] == r;
      assert s.parts[v.prepared[i]].status == StatusPrepared;
    }
    assert v.committed == {} && v.aborted == {};
  }

  lemma StepToPreparing(s: Sys)
    requires Inv(s) && s.status == StatusActive && |s.entries| >= 2
    ensures var t := SetStatus(s, StatusPreparing);
            Inv(t) && Read(t.trace).favourable && Read(t.trace).prepared == []
  {
    var v := Read(s.trace);
    assert v.joined[..0] == [];
    Extend(s, SetStatus(s, StatusPreparing), StatusSet(StatusPreparing));
  }

  lemma StepToMarked(s: Sys)
    requires Inv(s) && (s.status == StatusActive || (s.status == StatusPreparing && !Read(s.trace).favourable))
    ensures var t := SetStatus(s, StatusMarkedRollback);
            Inv(t)
  {
    Extend(s, SetStatus(s, StatusMarkedRollback), StatusSet(StatusMarkedRollback));
  }

  lemma StepToCommitting(s: Sys)
    requires Inv(s) && s.status == StatusPreparing
    requires Read(s.trace).favourable && |Read(s.trace).prepared| == |s.entries|
    ensures var t := SetStatus(s, StatusCommitting);
            Inv(t)
  {
    PreparedAllUntouched(s, Read(s.trace));
    Extend(s, SetStatus(s, StatusCommitting), StatusSet(StatusCommitting));
  }

  lemma StepToRollingBack(s: Sys)
    requires Inv(s) && (s.status == StatusActive || s.status == StatusMarkedRollback)
    ensures var t := SetStatus(s, StatusRollingBack);
            Inv(t)
  {
    Extend(s, SetStatus(s, StatusRollingBack), StatusSet(StatusRollingBack));
  }

  lemma StepToNoTransaction(s: Sys)
    requires Inv(s)
    requires || s.status == StatusCommitting || s.status == StatusRollingBack
             || (s.status == StatusActive && s.entries == [])
    ensures var t := SetStatus(s, StatusNoTransaction);
            Inv(t) && Read(t.trace).notified == 0
  {
    Extend(s, SetStatus(s, StatusNoTransaction), StatusSet(StatusNoTransaction));
  }

  // ------------------------------------------------------------------
  // Requests
  // ------------------------------------------------------------------

  /** A participant's move, in terms of the commands it issued. */
  predicate Moved(p: Participant, q: Participant, cmds: seq<Command>) {
    && Consistent(q)
    && (q.status == StatusCommitting <==> p.status == StatusCommitting || XaCommit in cmds)
    && (q.status == StatusRollingBack <==> p.status == StatusRollingBack || XaRollback in cmds)
    && (XaCommit in cmds || XaRollback in cmds ==> p.status == StatusActive || p.status == StatusPrepared)
    && !(XaCommit in cmds && XaRollback in cmds)
  }

  /** Which commands a request can lead to. */
  predicate Fitting(req: Request, cmds: seq<Command>) {
    && (XaCommit in cmds ==> req == Commit || req == CommitOnePhase)
    && (XaRollback in cmds ==> req == Rollback || req == CommitOnePhase)
  }

  predicate Enlists(req: Request) {
    req.Forget? || req.BeginTrans? || req.SetRecoveryCoordinator?
  }

  lemma ServeMoves(p: Participant, req: Request, db: Database)
    requires Consistent(p)
    ensures Moved(p, Serve(p, req, db).0, Issued(p, req, db)) && Fitting(req, Issued(p, req, db))
    ensures Enlists(req) ==> Serve(p, req, db).0.status == p.status
    ensures req == Prepare && Favours(Serve(p, req, db).1) ==> Serve(p, req, db).0.status == StatusPrepared
  {
    ServeKeepsConsistent(p, req, db);
    match req
    case CommitOnePhase => OnePhaseMoves(p, db);
    case _ =>
  }

  lemma OnePhaseMoves(p: Participant, db: Database)
    requires Consistent(p) && Consistent(CommitOnePhaseOf(p, db).0)
    ensures Moved(p, CommitOnePhaseOf(p, db).0, Issued(p, CommitOnePhase, db))
  {
    if p.status == StatusActive {
      match ClassifyVote(db.prepareResult)
      case VoteCommit =>
      case VoteReadOnly =>
      case VoteRollback =>
    }
  }

  /** The event that a request leaves in the history. */
  function CallEvent(s: Sys, fates: Fates, req: Request, r: Ref): Event {
    var t := Call(s, fates, req, r).0.trace;
    assert |t| == |s.trace| + 1;
    t[|s.trace|]
  }

  /** What any request does: t is the state after it, e the event that records it. */
  predicate Effected(s: Sys, t: Sys, e: Event) {
    && t == s.(parts := t.parts, trace := s.trace + [e])
    && e.Called? && Fitting(e.req, e.issued)
    && (e.r !in s.parts ==> e.issued == [] && t.parts == s.parts && e.reply == Failed(ObjectNotExist))
    && (e.r in s.parts ==>
          && e.r in t.parts && t.parts == s.parts[e.r := t.parts[e.r]]
          && Moved(s.parts[e.r], t.parts[e.r], e.issued)
          && (Enlists(e.req) ==> t.parts[e.r].status == s.parts[e.r].status)
          && (e.req == Prepare && Favours(e.reply) ==> t.parts[e.r].status == StatusPrepared))
  }

  lemma CallEffect(s: Sys, fates: Fates, req: Request, r: Ref)
    requires forall x | x in s.parts :: Consistent(s.parts[x])
    ensures var (t, reply) := Call(s, fates, req, r); var e := CallEvent(s, fates, req, r);
            Effected(s, t, e) && e.req == req && e.r == r && e.reply == reply
  {
    if r in s.parts {
      match fates(|s.trace|)
      case NotExecuted(_) =>
        assert s.parts[r := s.parts[r]] == s.parts;
      case Delivered(db) => ServeMoves(s.parts[r], req, db);
      case ReplyLost(db, _) => ServeMoves(s.parts[r], req, db);
    }
  }

  lemma EffectFollows(s: Sys, t: Sys, e: Event, v: View)
    requires Fits(s, v) && Effected(s, t, e) && Allowed(v, e)
    ensures Follows(v, e)
  {
  }

  lemma EffectPartsFit(s: Sys, t: Sys, e: Event, v: View)
    requires Fits(s, v) && Effected(s, t, e) && Allowed(v, e) && e.req != Prepare
    ensures PartsFit(t, Next(v, e))
  {
  }

  lemma EffectDecisionFits(s: Sys, t: Sys, e: Event, v: View)
    requires Fits(s, v) && Effected(s, t, e) && Allowed(v, e)
    ensures DecisionFits(Next(v, e))
  {
  }

  /** A request that may be sent now, and that tells nobody to vote, keeps the invariant. */
  lemma CallStep(s: Sys, fates: Fates, req: Request, r: Ref)
    requires Inv(s) && req != Prepare
    requires Allowed(Read(s.trace), Called(req, r, Done, []))
    ensures var t, e := Call(s, fates, req, r).0, CallEvent(s, fates, req, r);
            Inv(t) && Read(t.trace) == Next(Read(s.trace), e)
  {
    CallEffect(s, fates, req, r);
    var t, e, v := Call(s, fates, req, r).0, CallEvent(s, fates, req, r), Read(s.trace);
    EffectFollows(s, t, e, v);
    EffectPartsFit(s, t, e, v);
    EffectDecisionFits(s, t, e, v);
    Extend(s, t, e);
  }

  /** The next resource in line was asked to prepare: s before the call, t after it. */
  predicate Asked(s: Sys, t: Sys, e: Event, v: View, i: nat) {
    && Fits(s, v) && Effected(s, t, e) && e.req == Prepare
    && s.status == StatusPreparing && v.favourable && i == |v.prepared| < |s.entries| && e.r == s.entries[i].r
  }

  /** A prepare call, before the vote is entered in the list. */
  lemma PrepareEffect(s: Sys, t: Sys, e: Event, v: View, i: nat)
    requires Asked(s, t, e, v, i)
    ensures var w := Next(v, e);
            && Follows(v, e) && DecisionFits(w) && FieldsFit(t, w)
            && (Favours(e.reply) <==> w.favourable) && w.prepared == v.joined[..i + 1]
  {
    EffectFollows(s, t, e, v);
    EffectDecisionFits(s, t, e, v);
    assert v.joined[..i + 1] == v.joined[..i] + [v.joined[i]];
  }

  lemma PreparePartsFit(s: Sys, t: Sys, e: Event, v: View, i: nat)
    requires Asked(s, t, e, v, i)
    ensures PartsFit(t, Next(v, e))
  {
    assert forall j | 0 <= j < i :: v.prepared[j] == s.entries[j].r && v.prepared[j] != e.r;
  }

  /** Entering a vote touches the list of votes only. */
  lemma VoteEntered(t: Sys, w: View, i: nat, rv: ResourceVote)
    requires i < |t.entries| && FieldsFit(t, w) && PartsFit(t, w) && DecisionFits(w)
    requires VotesFit(SetVoteAt(t, i, rv), w)
    ensures Fits(SetVoteAt(t, i, rv), w) && Refs(SetVoteAt(t, i, rv).entries) == Refs(t.entries)
  {
    assert Refs(SetVoteAt(t, i, rv).entries) == Refs(t.entries);
  }

  lemma FavouringVoteFits(s: Sys, t: Sys, e: Event, v: View, i: nat, rv: ResourceVote)
    requires Asked(s, t, e, v, i) && Favours(e.reply) && FavourableVote(rv)
    ensures Fits(SetVoteAt(t, i, rv), Next(v, e))
  {
    PrepareEffect(s, t, e, v, i);
    PreparePartsFit(s, t, e, v, i);
    VoteEntered(t, Next(v, e), i, rv);
  }

  lemma DecliningVoteFits(s: Sys, t: Sys, e: Event, v: View, i: nat)
    requires Asked(s, t, e, v, i) && !Favours(e.reply)
    ensures Fits(t, Next(v, e)) && Fits(SetVoteAt(t, i, RvRolledBack), Next(v, e))
  {
    PrepareEffect(s, t, e, v, i);
    PreparePartsFit(s, t, e, v, i);
    VoteEntered(t, Next(v, e), i, RvRolledBack);
  }

  /** A prepare call with its vote entered, or with no vote counted. */
  lemma PrepareStep(s: Sys, fates: Fates, i: nat)
    requires Inv(s) && s.status == StatusPreparing && i < |s.entries|
    requires Read(s.trace).favourable && |Read(s.trace).prepared| == i
    ensures var (t, reply) := Call(s, fates, Prepare, s.entries[i].r);
            && |Read(t.trace).prepared| == i + 1 && (Read(t.trace).favourable <==> Favours(reply))
            && (Favours(reply) ==> Inv(SetVoteAt(t, i, RvVoteCommit)) && Inv(SetVoteAt(t, i, RvVoteReadOnly)))
            && (!Favours(reply) ==> Inv(t) && Inv(SetVoteAt(t, i, RvRolledBack)))
  {
    var r := s.entries[i].r;
    CallEffect(s, fates, Prepare, r);
    var t, e, v := Call(s, fates, Prepare, r).0, CallEvent(s, fates, Prepare, r), Read(s.trace);
    PrepareEffect(s, t, e, v, i);
    AcceptedExtended(s.trace, e);
    if Favours(e.reply) {
      FavouringVoteFits(s, t, e, v, i, RvVoteCommit);
      FavouringVoteFits(s, t, e, v, i, RvVoteReadOnly);
    } else {
      DecliningVoteFits(s, t, e, v, i);
    }
  }

  /** Finding a resource that is listed once. */
  lemma FindAt(entries: seq<Entry>, i: nat)
    requires Distinct(entries) && i < |entries|
    ensures Find(entries, entries[i].r) == i
  {
  }
}
