/** The first phase and the passes over the list foretold: how they end and what becomes of every
    entry and every participant, in terms of the states before and of what happens to each message. */
module Forecasts {
  import opened OtsTypes
  import opened Participants
  import opened CoordinatorSpec
  import opened Invariant
  import opened Growth
  import opened Passes
  import opened Outcomes

  // ------------------------------------------------------------------
  // The first phase
  // ------------------------------------------------------------------

  datatype Ballot = Favourable | Declined | Uncounted

  /** What comes of asking a resource to prepare. */
  function BallotOf(s: Sys, r: Ref, fate: Fate): Ballot {
    if r !in s.parts then Declined
    else match fate
      case Delivered(db) =>
        if s.parts[r].status == StatusRollingBack then Uncounted
        else if s.parts[r].status == StatusActive && db.prepareResult != -1 then Favourable
        else Declined
      case ReplyLost(_, e) => if Tolerated(e) then Declined else Uncounted
      case NotExecuted(e) => if Tolerated(e) then Declined else Uncounted
  }

  datatype Phase = AllFavour | StopsAt(i: nat) | StallsAt(i: nat)

  /** The first resource from position i on that does not vote favourably, if there is one. The
      resource at position j is asked when the history has n + j entries. */
  function PhaseFrom(s: Sys, fates: Fates, n: nat, i: nat): Phase
    decreases |s.entries| - i
  {
    if i >= |s.entries| then AllFavour
    else match BallotOf(s, s.entries[i].r, fates(n + i))
      case Favourable => PhaseFrom(s, fates, n, i + 1)
      case Declined => StopsAt(i)
      case Uncounted => StallsAt(i)
  }

  /** When the first resource is asked to prepare, and when the first one is sent commit. */
  function PreparesFrom(s: Sys): nat {
    |s.trace| + |s.syncs| + 1
  }

  function CommitsFrom(s: Sys): nat {
    PreparesFrom(s) + |s.entries| + 1
  }

  function PhaseOf(s: Sys, fates: Fates): Phase {
    PhaseFrom(s, fates, PreparesFrom(s), 0)
  }

  lemma {:induction false} PhaseIgnores(s: Sys, t: Sys, fates: Fates, n: nat, i: nat)
    requires |t.entries| == |s.entries| && t.parts.Keys == s.parts.Keys
    requires forall j | i <= j < |s.entries| :: t.entries[j].r == s.entries[j].r
    requires forall j | i <= j < |s.entries| && s.entries[j].r in s.parts ::
               t.parts[s.entries[j].r] == s.parts[s.entries[j].r]
    ensures PhaseFrom(t, fates, n, i) == PhaseFrom(s, fates, n, i)
    decreases |s.entries| - i
  {
    if i < |s.entries| {
      PhaseIgnores(s, t, fates, n, i + 1);
    }
  }

  /** What a prepare message does to a participant. */
  function AfterPrepare(p: Participant, fate: Fate): Participant {
    match fate
    case Delivered(db) => PrepareOf(p, db).0
    case ReplyLost(db, _) => PrepareOf(p, db).0
    case NotExecuted(_) => p
  }

  /** How an operation ends at a message whose answer it cannot use: the caller waits, or gets the
      system exception. */
  function StallEnd(fate: Fate): (end: Outcome)
    ensures end != Returned
  {
    if fate.Delivered? then Blocked else Raised(SystemException(fate.error))
  }

  /** How many of k resources vote favourably before the first phase ends, and how many are asked. */
  function VotesUpTo(phase: Phase, k: nat): nat {
    if phase.AllFavour? then k else phase.i
  }

  function AskedOf(phase: Phase, k: nat): nat {
    if phase.AllFavour? then k else phase.i + 1
  }

  function FavourableRv(fate: Fate): ResourceVote {
    if fate.Delivered? && fate.db.prepareResult !in {-1, 0} then RvVoteCommit else RvVoteReadOnly
  }

  /** The entry at position j of k after the first phase. */
  function EntryAfter(e: Entry, phase: Phase, fate: Fate, j: nat, k: nat): (after: Entry)
    ensures after.r == e.r && after.rc == e.rc
  {
    if j < VotesUpTo(phase, k) then e.(rv := FavourableRv(fate))
    else if phase == StopsAt(j) then e.(rv := RvRolledBack)
    else e
  }

  predicate NotListed(entries: seq<Entry>, x: Ref, i: nat) {
    forall j | i <= j < |entries| :: entries[j].r != x
  }

  /** From position i on, every entry holds the vote that its message brought, and every participant
      that was asked is where its message left it. */
  predicate PhaseEffect(s: Sys, t: Sys, fates: Fates, n: nat, i: nat, phase: Phase) {
    var k := |s.entries|;
    && |t.entries| == k && t.parts.Keys == s.parts.Keys
    && (forall j | 0 <= j < i && j < k :: t.entries[j] == s.entries[j])
    && (forall j | i <= j < k :: t.entries[j] == EntryAfter(s.entries[j], phase, fates(n + j), j, k))
    && (forall j | i <= j < k && s.entries[j].r in s.parts ::
          t.parts[s.entries[j].r] ==
            if j < AskedOf(phase, k) then AfterPrepare(s.parts[s.entries[j].r], fates(n + j))
            else s.parts[s.entries[j].r])
    && (forall x | x in s.parts && NotListed(s.entries, x, i) :: t.parts[x] == s.parts[x])
  }

  /** The resource at position i is asked, and its vote is counted as foretold. */
  lemma AskedToPrepare(s: Sys, fates: Fates, i: nat)
    requires i < |s.entries|
    ensures var r, fate := s.entries[i].r, fates(|s.trace|);
            var (t, reply) := Call(s, fates, Prepare, r);
            && |t.trace| == |s.trace| + 1 && t.parts.Keys == s.parts.Keys
            && (forall x | x in s.parts && x != r :: t.parts[x] == s.parts[x])
            && (r in s.parts ==> t.parts[r] == AfterPrepare(s.parts[r], fate))
            && (BallotOf(s, r, fate) == Favourable <==> reply == Voted(VoteCommit) || reply == Voted(VoteReadOnly))
            && (BallotOf(s, r, fate) == Favourable ==>
                  FavourableRv(fate) == if reply == Voted(VoteCommit) then RvVoteCommit else RvVoteReadOnly)
            && (BallotOf(s, r, fate) == Declined <==> VoteCounted(reply) == Some(VoteRollback))
            && (BallotOf(s, r, fate) == Uncounted <==> VoteCounted(reply) == None)
            && (BallotOf(s, r, fate) == Uncounted ==> Escape(reply) == StallEnd(fate))
  {
  }

  function Favoured(s: Sys, i: nat, vote: Vote): Sys
    requires i < |s.entries|
  {
    SetVoteAt(s, i, if vote == VoteCommit then RvVoteCommit else RvVoteReadOnly)
  }

  /** How the first phase goes on from position i. */
  lemma PrepareUnfolds(s: Sys, fates: Fates, i: nat)
    requires s.status == StatusPreparing
    ensures i >= |s.entries| ==> PrepareFrom(s, fates, i) == (s, Returned)
    ensures i < |s.entries| ==>
              var (t, reply) := Call(s, fates, Prepare, s.entries[i].r);
              PrepareFrom(s, fates, i) ==
                match VoteCounted(reply)
                case None => (t, Escape(reply))
                case Some(vote) =>
                  if vote == VoteRollback then
                    (SetStatus(SetVoteAt(t, i, RvRolledBack), StatusMarkedRollback), Returned)
                  else PrepareFrom(Favoured(t, i, vote), fates, i + 1)
  {
    hide Call;
  }

  /** The state after the prepare call to position i, with its vote, and what it adds to an effect. */
  lemma PhaseEffectStep(s: Sys, u: Sys, t: Sys, fates: Fates, n: nat, i: nat, phase: Phase)
    requires Distinct(s.entries) && i < |s.entries| == |u.entries| && u.parts.Keys == s.parts.Keys
    requires forall j | 0 <= j < |s.entries| && j != i :: u.entries[j] == s.entries[j]
    requires u.entries[i] == EntryAfter(s.entries[i], phase, fates(n + i), i, |s.entries|)
    requires u.entries[i].r == s.entries[i].r
    requires forall x | x in s.parts && x != s.entries[i].r :: u.parts[x] == s.parts[x]
    requires s.entries[i].r in s.parts ==>
               u.parts[s.entries[i].r] == AfterPrepare(s.parts[s.entries[i].r], fates(n + i))
    requires i < AskedOf(phase, |s.entries|)
    requires PhaseEffect(u, t, fates, n, i + 1, phase)
    ensures PhaseEffect(s, t, fates, n, i, phase)
  {
    hide AfterPrepare, EntryAfter, AskedOf;
    assert NotListed(u.entries, s.entries[i].r, i + 1);
    forall x | x in s.parts && NotListed(s.entries, x, i) ensures t.parts[x] == s.parts[x] {
      assert x != s.entries[i].r && NotListed(u.entries, x, i + 1);
    }
  }

  lemma PhaseEffectEnd(s: Sys, u: Sys, fates: Fates, n: nat, i: nat, phase: Phase)
    requires Distinct(s.entries) && i < |s.entries| == |u.entries| && u.parts.Keys == s.parts.Keys
    requires !phase.AllFavour? && phase.i == i
    requires forall j | 0 <= j < |s.entries| && j != i :: u.entries[j] == s.entries[j]
    requires u.entries[i] == EntryAfter(s.entries[i], phase, fates(n + i), i, |s.entries|)
    requires forall x | x in s.parts && x != s.entries[i].r :: u.parts[x] == s.parts[x]
    requires s.entries[i].r in s.parts ==>
               u.parts[s.entries[i].r] == AfterPrepare(s.parts[s.entries[i].r], fates(n + i))
    ensures PhaseEffect(s, u, fates, n, i, phase)
  {
    hide AfterPrepare;
  }

  lemma PhaseEffectNone(s: Sys, fates: Fates, n: nat)
    ensures PhaseEffect(s, s, fates, n, |s.entries|, AllFavour)
  {
  }

  /** How the first phase ends from position i, in terms of what was foretold. */
  predicate PhaseEnds(s: Sys, t: Sys, end: Outcome, fates: Fates, n: nat, phase: Phase) {
    && t.status == (if phase.StopsAt? then StatusMarkedRollback else StatusPreparing)
    && end == (if phase.StallsAt? then StallEnd(fates(n + phase.i)) else Returned)
    && |t.trace| == n + AskedOf(phase, |s.entries|) + (if phase.StopsAt? then 1 else 0)
  }

  lemma {:induction false} PrepareForecast(s: Sys, fates: Fates, n: nat, i: nat)
    requires Distinct(s.entries) && s.status == StatusPreparing && i <= |s.entries| && n + i == |s.trace|
    ensures var (t, end) := PrepareFrom(s, fates, i);
            var phase := PhaseFrom(s, fates, n, i);
            PhaseEnds(s, t, end, fates, n, phase) && PhaseEffect(s, t, fates, n, i, phase)
    ensures !PhaseFrom(s, fates, n, i).AllFavour? ==> i <= PhaseFrom(s, fates, n, i).i < |s.entries|
    decreases |s.entries| - i
  {
    hide Call, BallotOf, PrepareFrom, Escape, StallEnd, AfterPrepare, PhaseEffect;
    PrepareUnfolds(s, fates, i);
    if i == |s.entries| {
      PhaseEffectNone(s, fates, n);
    } else {
      AskedToPrepare(s, fates, i);
      var (c, reply) := Call(s, fates, Prepare, s.entries[i].r);
      var phase := PhaseFrom(s, fates, n, i);
      match BallotOf(s, s.entries[i].r, fates(n + i))
      case Uncounted => PhaseEffectEnd(s, c, fates, n, i, phase);
      case Declined =>
        PhaseEffectEnd(s, SetStatus(SetVoteAt(c, i, RvRolledBack), StatusMarkedRollback), fates, n, i, phase);
      case Favourable =>
        var u := Favoured(c, i, reply.vote);
        PhaseIgnores(s, u, fates, n, i + 1);
        PrepareForecast(u, fates, n, i + 1);
        PhaseEffectStep(s, u, PrepareFrom(u, fates, i + 1).0, fates, n, i, phase);
    }
  }

  /** The first phase goes the way that the participants and the messages determine. */
  lemma FirstPhaseForecast(s: Sys, fates: Fates)
    requires Inv(s) && s.status == StatusActive && |s.entries| >= 2
    ensures var (p, end) := FirstPhase(s, fates);
            && PhaseEnds(s, p, end, fates, PreparesFrom(s), PhaseOf(s, fates))
            && PhaseEffect(s, p, fates, PreparesFrom(s), 0, PhaseOf(s, fates))
            && (!PhaseOf(s, fates).AllFavour? ==> PhaseOf(s, fates).i < |s.entries|)
  {
    InvIsDistinct(s);
    hide Inv, PrepareFrom, PhaseEffect, StallEnd;
    BeforeGrows(s, 0);
    BeforeLength(s, 0);
    var s0, n := SetStatus(BeforeFrom(s, 0), StatusPreparing), PreparesFrom(s);
    hide BeforeFrom;
    PhaseIgnores(s, s0, fates, n, 0);
    PrepareForecast(s0, fates, n, 0);
    PhaseEffectFrom(s0, s, FirstPhase(s, fates).0, fates, n, PhaseOf(s, fates));
  }

  lemma PhaseEffectFrom(s0: Sys, s: Sys, t: Sys, fates: Fates, n: nat, phase: Phase)
    requires s0.entries == s.entries && s0.parts == s.parts
    ensures PhaseEffect(s0, t, fates, n, 0, phase) ==> PhaseEffect(s, t, fates, n, 0, phase)
  {
    hide AfterPrepare, EntryAfter, AskedOf;
  }

  lemma {:induction false} BeforeLength(s: Sys, i: nat)
    requires i <= |s.syncs|
    ensures |BeforeFrom(s, i).trace| == |s.trace| + |s.syncs| - i
    decreases |s.syncs| - i
  {
    if i < |s.syncs| {
      BeforeLength(Emit(s, BeforeCompletion(s.syncs[i])), i + 1);
    }
  }

  // ------------------------------------------------------------------
  // The passes over the list
  // ------------------------------------------------------------------

  predicate First(pass: Pass) {
    pass == FirstCommit || pass == FirstRollback
  }

  /** A message does not stop a pass. */
  predicate Smooth(p: Participant, pass: Pass, fate: Fate) {
    match fate
    case Delivered(db) => Serve(p, PassRequest(pass), db).1 == Done
    case ReplyLost(_, e) => First(pass) && Tolerated(e)
    case NotExecuted(e) => First(pass) && Tolerated(e)
  }

  /** What a message does to a participant. */
  function AfterFate(p: Participant, pass: Pass, fate: Fate): Participant {
    match fate
    case Delivered(db) => Serve(p, PassRequest(pass), db).0
    case ReplyLost(db, _) => Serve(p, PassRequest(pass), db).0
    case NotExecuted(_) => p
  }

  /** How a pass ends at a message that stops it. */
  function StopEnd(p: Participant, pass: Pass, fate: Fate): Outcome {
    match fate
    case Delivered(db) => Escape(Serve(p, PassRequest(pass), db).1)
    case ReplyLost(_, e) => Raised(SystemException(e))
    case NotExecuted(e) => Raised(SystemException(e))
  }

  predicate WellListed(entries: seq<Entry>, parts: map<Ref, Participant>) {
    Distinct(entries) && forall j | 0 <= j < |entries| :: entries[j].r in parts
  }

  /** How long the history is when the resource at position j is contacted, if it has length n when
      a pass is over that nothing stops. */
  function MessageAt(entries: seq<Entry>, pass: Pass, n: nat, j: nat): nat {
    var later := |Contacts(entries, pass, j)|;
    if later <= n then n - later else 0
  }

  /** What happens to the message to position j. */
  function FateAt(entries: seq<Entry>, fates: Fates, pass: Pass, n: nat, j: nat): Fate {
    fates(MessageAt(entries, pass, n, j))
  }

  /** The first position from i on whose message stops the pass, or the length of the list. */
  function StopOf(entries: seq<Entry>, parts: map<Ref, Participant>, fates: Fates, pass: Pass, n: nat, i: nat): (k: nat)
    requires WellListed(entries, parts)
    ensures i <= |entries| ==> i <= k <= |entries|
    decreases |entries| - i
  {
    if i >= |entries| then |entries|
    else if Eligible(pass, entries[i].rv) && !Smooth(parts[entries[i].r], pass, FateAt(entries, fates, pass, n, i))
    then i
    else StopOf(entries, parts, fates, pass, n, i + 1)
  }

  predicate Lost(entries: seq<Entry>, fates: Fates, pass: Pass, n: nat, j: nat)
    requires j < |entries|
  {
    Eligible(pass, entries[j].rv) && !FateAt(entries, fates, pass, n, j).Delivered?
  }

  /** Some answer does not come back. */
  predicate SomeLost(entries: seq<Entry>, fates: Fates, pass: Pass, n: nat, i: nat) {
    exists j | i <= j < |entries| :: Lost(entries, fates, pass, n, j)
  }

  /** Every participant that is contacted, up to position k, is where its message leaves it. */
  predicate PassEffect(entries: seq<Entry>, parts: map<Ref, Participant>, after: map<Ref, Participant>,
                       fates: Fates, pass: Pass, n: nat, i: nat, k: nat)
    requires WellListed(entries, parts)
  {
    && after.Keys == parts.Keys
    && (forall j | i <= j < |entries| ::
          after[entries[j].r] ==
            if Eligible(pass, entries[j].rv) && j <= k
            then AfterFate(parts[entries[j].r], pass, FateAt(entries, fates, pass, n, j))
            else parts[entries[j].r])
    && (forall x | x in parts && NotListed(entries, x, i) :: after[x] == parts[x])
  }

  lemma ContactedNow(s: Sys, fates: Fates, pass: Pass, i: nat)
    requires WellListed(s.entries, s.parts) && i < |s.entries|
    ensures var r, fate := s.entries[i].r, fates(|s.trace|);
            var (t, reply) := Call(s, fates, PassRequest(pass), r);
            && |t.trace| == |s.trace| + 1 && t.parts.Keys == s.parts.Keys
            && (forall x | x in s.parts && x != r :: t.parts[x] == s.parts[x])
            && t.parts[r] == AfterFate(s.parts[r], pass, fate)
            && (Smooth(s.parts[r], pass, fate) <==> reply == Done || Forgiven(pass, reply))
            && (Smooth(s.parts[r], pass, fate) ==> (reply == Done <==> fate.Delivered?))
            && (!Smooth(s.parts[r], pass, fate) ==> Escape(reply) == StopEnd(s.parts[r], pass, fate))
  {
    ServeNeverFails(s.parts[s.entries[i].r], pass, fates(|s.trace|));
    hide Serve, Issued;
  }

  lemma ServeNeverFails(p: Participant, pass: Pass, fate: Fate)
    ensures fate.Delivered? ==> !Serve(p, PassRequest(pass), fate.db).1.Failed?
  {
  }

  lemma SameFate(a: seq<Entry>, b: seq<Entry>, fates: Fates, pass: Pass, n: nat, i: nat)
    requires |a| == |b| && i <= |a| && a[i..] == b[i..]
    ensures FateAt(a, fates, pass, n, i) == FateAt(b, fates, pass, n, i)
  {
    hide Contacts;
    ContactsIgnorePrefix(a, b, pass, i);
  }

  /** What was foretold of the positions after i is foretold again after the contact at i. */
  lemma {:induction false} StopIgnores(a: seq<Entry>, p: map<Ref, Participant>, b: seq<Entry>, q: map<Ref, Participant>,
                                       fates: Fates, pass: Pass, n: nat, i: nat)
    requires WellListed(a, p) && WellListed(b, q) && |a| == |b| && i <= |a| && a[i..] == b[i..]
    requires forall j | i <= j < |a| :: p[a[j].r] == q[a[j].r]
    ensures StopOf(a, p, fates, pass, n, i) == StopOf(b, q, fates, pass, n, i)
    ensures forall j | i <= j < |a| :: FateAt(a, fates, pass, n, j) == FateAt(b, fates, pass, n, j)
    decreases |a| - i
  {
    hide Smooth, FateAt, Eligible, Distinct;
    if i < |a| {
      assert a[i] == a[i..][0] && b[i] == b[i..][0];
      assert a[i + 1..] == a[i..][1..] && b[i + 1..] == b[i..][1..];
      SameFate(a, b, fates, pass, n, i);
      StopIgnores(a, p, b, q, fates, pass, n, i + 1);
    }
  }

  /** The contact at position i in front of the rest of the pass: p and b before it and after it. */
  lemma PassEffectStep(a: seq<Entry>, p: map<Ref, Participant>, b: seq<Entry>, q: map<Ref, Participant>,
                       after: map<Ref, Participant>, fates: Fates, pass: Pass, n: nat, i: nat, k: nat)
    requires WellListed(a, p) && WellListed(b, q) && |a| == |b| && i < |a| && i <= k && a[i + 1..] == b[i + 1..]
    requires a[i].r == b[i].r && q.Keys == p.Keys && (forall x | x in p && x != a[i].r :: q[x] == p[x])
    requires q[a[i].r] ==
               if Eligible(pass, a[i].rv) then AfterFate(p[a[i].r], pass, FateAt(a, fates, pass, n, i)) else p[a[i].r]
    requires forall j | i < j < |a| :: FateAt(a, fates, pass, n, j) == FateAt(b, fates, pass, n, j)
    requires PassEffect(b, q, after, fates, pass, n, i + 1, k)
    ensures PassEffect(a, p, after, fates, pass, n, i, k)
  {
    hide AfterFate, FateAt, Eligible;
    forall j | i < j < |a| ensures a[j] == b[j] {
      assert a[j] == a[i + 1..][j - i - 1] && b[j] == b[i + 1..][j - i - 1];
    }
    assert NotListed(b, a[i].r, i + 1);
    forall x | x in p && NotListed(a, x, i) ensures after[x] == p[x] {
      assert x != a[i].r && NotListed(b, x, i + 1);
    }
  }

  lemma PassEffectStop(a: seq<Entry>, p: map<Ref, Participant>, q: map<Ref, Participant>,
                       fates: Fates, pass: Pass, n: nat, i: nat)
    requires WellListed(a, p) && i < |a| && Eligible(pass, a[i].rv)
    requires q.Keys == p.Keys && (forall x | x in p && x != a[i].r :: q[x] == p[x])
    requires q[a[i].r] == AfterFate(p[a[i].r], pass, FateAt(a, fates, pass, n, i))
    ensures PassEffect(a, p, q, fates, pass, n, i, i)
  {
    hide AfterFate, FateAt;
  }

  lemma PassEffectNone(a: seq<Entry>, p: map<Ref, Participant>, fates: Fates, pass: Pass, n: nat, k: nat)
    requires WellListed(a, p)
    ensures PassEffect(a, p, p, fates, pass, n, |a|, k) && !SomeLost(a, fates, pass, n, |a|)
  {
  }

  lemma LostStep(a: seq<Entry>, b: seq<Entry>, fates: Fates, pass: Pass, n: nat, i: nat)
    requires |a| == |b| && i < |a| && a[i + 1..] == b[i + 1..]
    requires forall j | i < j < |a| :: FateAt(a, fates, pass, n, j) == FateAt(b, fates, pass, n, j)
    ensures SomeLost(a, fates, pass, n, i) <==> Lost(a, fates, pass, n, i) || SomeLost(b, fates, pass, n, i + 1)
  {
    hide FateAt, Eligible;
    forall j | i < j < |a| ensures Lost(a, fates, pass, n, j) <==> Lost(b, fates, pass, n, j) {
      assert a[j] == a[i + 1..][j - i - 1] && b[j] == b[i + 1..][j - i - 1];
    }
  }

  /** How a pass ends, and with which flag, in terms of what was foretold. */
  predicate PassEnds(s: Sys, heuristics: bool, h: bool, end: Outcome, fates: Fates, pass: Pass, n: nat, i: nat)
    requires WellListed(s.entries, s.parts)
  {
    var k := StopOf(s.entries, s.parts, fates, pass, n, i);
    if k >= |s.entries| then end == Returned && (h <==> heuristics || SomeLost(s.entries, fates, pass, n, i))
    else end == StopEnd(s.parts[s.entries[k].r], pass, FateAt(s.entries, fates, pass, n, k)) && end != Returned
  }

  /** A pass from position i of s ended in t as foretold. */
  predicate Foretold(s: Sys, t: Sys, heuristics: bool, h: bool, end: Outcome, fates: Fates, pass: Pass, n: nat, i: nat)
    requires WellListed(s.entries, s.parts)
  {
    && PassEnds(s, heuristics, h, end, fates, pass, n, i)
    && PassEffect(s.entries, s.parts, t.parts, fates, pass, n, i, StopOf(s.entries, s.parts, fates, pass, n, i))
  }

  /** Position i passed, contacted or not: s before it, u after it. */
  lemma ForetoldFront(s: Sys, u: Sys, t: Sys, heuristics: bool, h: bool, end: Outcome,
                      fates: Fates, pass: Pass, n: nat, i: nat)
    requires WellListed(s.entries, s.parts) && i < |s.entries| == |u.entries| && u.parts.Keys == s.parts.Keys
    requires forall j | 0 <= j < |s.entries| && j != i :: u.entries[j] == s.entries[j]
    requires u.entries[i].r == s.entries[i].r
    requires forall x | x in s.parts && x != s.entries[i].r :: u.parts[x] == s.parts[x]
    requires var r, fate := s.entries[i].r, FateAt(s.entries, fates, pass, n, i);
             if Eligible(pass, s.entries[i].rv)
             then Smooth(s.parts[r], pass, fate) && u.parts[r] == AfterFate(s.parts[r], pass, fate)
             else u.parts[r] == s.parts[r]
    requires WellListed(u.entries, u.parts)
    requires Foretold(u, t, heuristics || Lost(s.entries, fates, pass, n, i), h, end, fates, pass, n, i + 1)
    ensures Foretold(s, t, heuristics, h, end, fates, pass, n, i)
  {
    hide Smooth, AfterFate, SomeLost, PassEffect, StopEnd, FateAt, Lost, Eligible;
    RestOfPass(s, u, fates, pass, n, i);
    PassEffectStep(s.entries, s.parts, u.entries, u.parts, t.parts, fates, pass, n, i,
                   StopOf(s.entries, s.parts, fates, pass, n, i));
    LostStep(s.entries, u.entries, fates, pass, n, i);
  }

  lemma ForetoldStop(s: Sys, t: Sys, heuristics: bool, end: Outcome, fates: Fates, pass: Pass, n: nat, i: nat)
    requires WellListed(s.entries, s.parts) && i < |s.entries| && Eligible(pass, s.entries[i].rv)
    requires var r, fate := s.entries[i].r, FateAt(s.entries, fates, pass, n, i);
             && !Smooth(s.parts[r], pass, fate) && end == StopEnd(s.parts[r], pass, fate) && end != Returned
             && t.parts.Keys == s.parts.Keys && t.parts[r] == AfterFate(s.parts[r], pass, fate)
    requires forall x | x in s.parts && x != s.entries[i].r :: t.parts[x] == s.parts[x]
    ensures Foretold(s, t, heuristics, heuristics, end, fates, pass, n, i)
  {
    hide Smooth, AfterFate, SomeLost, PassEffect, StopEnd, FateAt;
    PassEffectStop(s.entries, s.parts, t.parts, fates, pass, n, i);
  }

  lemma ForetoldEnd(s: Sys, heuristics: bool, fates: Fates, pass: Pass, n: nat)
    requires WellListed(s.entries, s.parts)
    ensures Foretold(s, s, heuristics, heuristics, Returned, fates, pass, n, |s.entries|)
  {
    hide PassEffect, SomeLost;
    PassEffectNone(s.entries, s.parts, fates, pass, n, |s.entries|);
  }

  /** A pass goes the way that the participants and the messages determine. */
  lemma {:induction false} PassForecast(s: Sys, fates: Fates, pass: Pass, n: nat, i: nat, heuristics: bool)
    requires WellListed(s.entries, s.parts) && i <= |s.entries| && n == |s.trace| + |Contacts(s.entries, pass, i)|
    ensures var (t, h, end) := Sweep(s, fates, pass, i, heuristics);
            Foretold(s, t, heuristics, h, end, fates, pass, n, i)
    decreases |s.entries| - i
  {
    hide Call, Sweep, Smooth, AfterFate, StopEnd, Contacts, FateAt, Foretold, Escape;
    SweepSkips(s, fates, pass, i, heuristics);
    if i == |s.entries| {
      ForetoldEnd(s, heuristics, fates, pass, n);
    } else {
      var (t, h, end) := Sweep(s, fates, pass, i, heuristics);
      NowIsFirst(s.entries, fates, pass, n, i, |s.trace|);
      if Eligible(pass, s.entries[i].rv) {
        SweepUnfolds(s, fates, pass, i, heuristics);
        ContactedNow(s, fates, pass, i);
        var (c, reply) := Call(s, fates, PassRequest(pass), s.entries[i].r);
        if reply == Done || Forgiven(pass, reply) {
          var u := if reply == Done then SetVoteAt(c, i, Settled(pass)) else c;
          RestOfPass(s, u, fates, pass, n, i);
          PassForecast(u, fates, pass, n, i + 1, heuristics || reply != Done);
          ForetoldFront(s, u, t, heuristics, h, end, fates, pass, n, i);
        } else {
          ForetoldStop(s, c, heuristics, end, fates, pass, n, i);
        }
      } else {
        PassForecast(s, fates, pass, n, i + 1, heuristics);
        ForetoldFront(s, s, t, heuristics, h, end, fates, pass, n, i);
      }
    }
  }

  /** The next message goes out now. */
  lemma NowIsFirst(a: seq<Entry>, fates: Fates, pass: Pass, n: nat, i: nat, now: nat)
    requires i < |a| && n == now + |Contacts(a, pass, i)|
    ensures FateAt(a, fates, pass, n, i) == fates(now)
    ensures |Contacts(a, pass, i)| == |Contacts(a, pass, i + 1)| + if Eligible(pass, a[i].rv) then 1 else 0
  {
  }

  lemma RestOfPass(s: Sys, u: Sys, fates: Fates, pass: Pass, n: nat, i: nat)
    requires WellListed(s.entries, s.parts) && i < |s.entries| == |u.entries| && u.parts.Keys == s.parts.Keys
    requires forall j | 0 <= j < |s.entries| && j != i :: u.entries[j] == s.entries[j]
    requires u.entries[i].r == s.entries[i].r
    requires forall x | x in s.parts && x != s.entries[i].r :: u.parts[x] == s.parts[x]
    ensures WellListed(u.entries, u.parts) && s.entries[i + 1..] == u.entries[i + 1..]
    ensures |Contacts(u.entries, pass, i + 1)| == |Contacts(s.entries, pass, i + 1)|
    ensures StopOf(s.entries, s.parts, fates, pass, n, i + 1) == StopOf(u.entries, u.parts, fates, pass, n, i + 1)
    ensures forall j | i < j < |s.entries| ::
              && FateAt(s.entries, fates, pass, n, j) == FateAt(u.entries, fates, pass, n, j)
              && s.entries[j].r != s.entries[i].r
  {
    hide StopOf, FateAt, Contacts;
    assert s.entries[i + 1..] == u.entries[i + 1..];
    ContactsIgnorePrefix(s.entries, u.entries, pass, i + 1);
    StopIgnores(s.entries, s.parts, u.entries, u.parts, fates, pass, n, i + 1);
  }
}
