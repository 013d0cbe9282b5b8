/** What one pass over the resource list does: whom it contacts, what it leaves in the list, and how
    the operation around it ends. */
module Passes {
  import opened OtsTypes
  import opened CoordinatorSpec
  import opened Invariant

  /** The resources that a pass has to contact from position i on, in order. */
  function Contacts(entries: seq<Entry>, pass: Pass, i: nat): seq<Ref>
    decreases |entries| - i
  {
    if i >= |entries| then []
    else (if Eligible(pass, entries[i].rv) then [entries[i].r] else []) + Contacts(entries, pass, i + 1)
  }

  /** The resources that a stretch of history contacts, and how many of them answered normally. */
  function Contacted(news: seq<Event>): seq<Ref> {
    if news == [] then [] else (if news[0].Called? then [news[0].r] else []) + Contacted(news[1..])
  }

  predicate IsDone(e: Event) {
    e.Called? && e.reply == Done
  }

  function Dones(news: seq<Event>): nat {
    if news == [] then 0 else (if IsDone(news[0]) then 1 else 0) + Dones(news[1..])
  }

  predicate SaidDone(news: seq<Event>, r: Ref) {
    exists m | 0 <= m < |news| :: IsDone(news[m]) && news[m].r == r
  }

  predicate AllRequests(news: seq<Event>, req: Request) {
    forall m | 0 <= m < |news| :: news[m].Called? && news[m].req == req
  }

  /** What t adds to the history of s. */
  function News(s: Sys, t: Sys): seq<Event> {
    if |s.trace| <= |t.trace| then t.trace[|s.trace|..] else []
  }

  /** The vote that a pass leaves at one position. */
  function VoteAfter(pass: Pass, e: Entry, news: seq<Event>): ResourceVote {
    if Eligible(pass, e.rv) && SaidDone(news, e.r) then Settled(pass) else e.rv
  }

  /** A pass from position i: before and after are the lists, news is what it added to the history. */
  predicate PassReport(pass: Pass, i: nat, before: seq<Entry>, after: seq<Entry>, news: seq<Event>, complete: bool) {
    && |after| == |before| && i <= |before|
    && AllRequests(news, PassRequest(pass))
    && (if complete then Contacted(news) == Contacts(before, pass, i) else Contacted(news) <= Contacts(before, pass, i))
    && after[..i] == before[..i]
    && forall j | i <= j < |before| :: after[j] == before[j].(rv := VoteAfter(pass, before[j], news))
  }

  lemma {:induction false} ContactsIgnorePrefix(a: seq<Entry>, b: seq<Entry>, pass: Pass, i: nat)
    requires |a| == |b| && i <= |a| && a[i..] == b[i..]
    ensures Contacts(a, pass, i) == Contacts(b, pass, i)
    decreases |a| - i
  {
    if i < |a| {
      assert a[i] == a[i..][0] && b[i] == b[i..][0];
      assert a[i + 1..] == a[i..][1..] && b[i + 1..] == b[i..][1..];
      ContactsIgnorePrefix(a, b, pass, i + 1);
    }
  }

  lemma {:induction false} ContactedAreListed(entries: seq<Entry>, pass: Pass, i: nat, r: Ref)
    requires r in Contacts(entries, pass, i)
    ensures exists j :: i <= j < |entries| && entries[j].r == r && Eligible(pass, entries[j].rv)
    decreases |entries| - i
  {
    if !(Eligible(pass, entries[i].rv) && entries[i].r == r) {
      ContactedAreListed(entries, pass, i + 1, r);
    }
  }

  lemma {:induction false} DoneWasContacted(news: seq<Event>, r: Ref)
    requires SaidDone(news, r)
    ensures r in Contacted(news)
    decreases |news|
  {
    var m :| 0 <= m < |news| && IsDone(news[m]) && news[m].r == r;
    if m > 0 {
      assert news[1..][m - 1] == news[m];
      DoneWasContacted(news[1..], r);
    }
  }

  /** A position that is not passed over again cannot be answered for. */
  lemma NotAnsweredLater(entries: seq<Entry>, pass: Pass, i: nat, news: seq<Event>)
    requires Distinct(entries) && i < |entries| && Contacted(news) <= Contacts(entries, pass, i + 1)
    ensures !SaidDone(news, entries[i].r)
  {
    if SaidDone(news, entries[i].r) {
      DoneWasContacted(news, entries[i].r);
      ContactedAreListed(entries, pass, i + 1, entries[i].r);
    }
  }

  /** One step of a pass in front of a report about the rest. */
  lemma ReportStep(pass: Pass, i: nat, before: seq<Entry>, mid: seq<Entry>, after: seq<Entry>,
                   e: Event, news: seq<Event>, complete: bool)
    requires Distinct(before) && i < |before| && Eligible(pass, before[i].rv)
    requires e.Called? && e.req == PassRequest(pass) && e.r == before[i].r
    requires mid == if e.reply == Done then before[i := before[i].(rv := Settled(pass))] else before
    requires PassReport(pass, i + 1, mid, after, news, complete)
    ensures PassReport(pass, i, before, after, [e] + news, complete)
  {
    var all := [e] + news;
    assert all[1..] == news;
    ContactsIgnorePrefix(before, mid, pass, i + 1);
    NotAnsweredLater(before, pass, i, news);
    assert IsDone(e) <==> IsDone(all[0]);
    forall j | i <= j < |before| ensures after[j] == before[j].(rv := VoteAfter(pass, before[j], all)) {
      SaidDoneFirst(e, news, before[j].r);
      if j == i {
        assert after[i] == after[..i + 1][i] && mid[i] == mid[..i + 1][i];
      }
    }
    assert after[..i] == after[..i + 1][..i] && mid[..i + 1][..i] == before[..i];
  }

  lemma SaidDoneFirst(e: Event, news: seq<Event>, r: Ref)
    ensures SaidDone([e] + news, r) <==> (IsDone(e) && e.r == r) || SaidDone(news, r)
  {
    var all := [e] + news;
    if SaidDone(news, r) {
      var m :| 0 <= m < |news| && IsDone(news[m]) && news[m].r == r;
      assert all[m + 1] == news[m];
    }
    if IsDone(e) && e.r == r {
      assert all[0] == e;
    }
  }

  lemma SkipStep(pass: Pass, i: nat, before: seq<Entry>, after: seq<Entry>, news: seq<Event>, complete: bool)
    requires Distinct(before) && i < |before| && !Eligible(pass, before[i].rv)
    requires PassReport(pass, i + 1, before, after, news, complete)
    ensures PassReport(pass, i, before, after, news, complete)
  {
    assert after[i] == after[..i + 1][i] && before[i] == before[..i + 1][i];
    assert after[..i] == after[..i + 1][..i] && before[..i + 1][..i] == before[..i];
  }

  lemma {:induction false} DonesAreEvents(news: seq<Event>)
    ensures Dones(news) <= |news|
    decreases |news|
  {
    if news != [] {
      DonesAreEvents(news[1..]);
    }
  }

  lemma DonesFirst(e: Event, news: seq<Event>)
    ensures Dones([e] + news) == (if IsDone(e) then 1 else 0) + Dones(news)
    ensures Dones(news) <= |news|
  {
    assert ([e] + news)[1..] == news;
    DonesAreEvents(news);
  }

  /** A position that is not contacted is passed over. */
  lemma SweepSkips(s: Sys, fates: Fates, pass: Pass, i: nat, heuristics: bool)
    ensures i >= |s.entries| ==> Sweep(s, fates, pass, i, heuristics) == (s, heuristics, Returned)
    ensures i < |s.entries| && !Eligible(pass, s.entries[i].rv) ==>
              Sweep(s, fates, pass, i, heuristics) == Sweep(s, fates, pass, i + 1, heuristics)
  {
  }

  /** How a pass goes on after contacting position i. */
  lemma SweepUnfolds(s: Sys, fates: Fates, pass: Pass, i: nat, heuristics: bool)
    requires Distinct(s.entries) && i < |s.entries| && Eligible(pass, s.entries[i].rv)
    ensures var (s1, reply) := Call(s, fates, PassRequest(pass), s.entries[i].r);
            var s2 := if reply == Done then SetVoteAt(s1, i, Settled(pass)) else s1;
            && s1.trace == s.trace + [s1.trace[|s.trace|]] && s1.entries == s.entries
            && s1.trace[|s.trace|].Called? && s1.trace[|s.trace|].req == PassRequest(pass)
            && s1.trace[|s.trace|].r == s.entries[i].r && s1.trace[|s.trace|].reply == reply
            && (reply == Done || Escape(reply) != Returned)
            && (reply == Done || Forgiven(pass, reply) ==>
                  Sweep(s, fates, pass, i, heuristics) == Sweep(s2, fates, pass, i + 1, heuristics || reply != Done))
            && (reply != Done && !Forgiven(pass, reply) ==>
                  Sweep(s, fates, pass, i, heuristics) == (s1, heuristics, Escape(reply)))
  {
    FindAt(s.entries, i);
  }

  // ------------------------------------------------------------------
  // Counting what is left to do
  // ------------------------------------------------------------------

  predicate Open(pass: Pass, rv: ResourceVote) {
    Eligible(pass, rv) && rv != Settled(pass)
  }

  /** How many resources from position i on still have to give a normal answer. */
  function Left(entries: seq<Entry>, pass: Pass, i: nat): nat
    decreases |entries| - i
  {
    if i >= |entries| then 0 else (if Open(pass, entries[i].rv) then 1 else 0) + Left(entries, pass, i + 1)
  }

  /** Nobody whom the pass will contact from position i on is settled already. */
  predicate Clean(entries: seq<Entry>, pass: Pass, i: nat) {
    forall j | i <= j < |entries| :: Eligible(pass, entries[j].rv) ==> entries[j].rv != Settled(pass)
  }

  lemma {:induction false} LeftIgnoresPrefix(a: seq<Entry>, b: seq<Entry>, pass: Pass, i: nat)
    requires |a| == |b| && i <= |a| && a[i..] == b[i..]
    ensures Left(a, pass, i) == Left(b, pass, i)
    decreases |a| - i
  {
    if i < |a| {
      assert a[i] == a[i..][0] && b[i] == b[i..][0];
      assert a[i + 1..] == a[i..][1..] && b[i + 1..] == b[i..][1..];
      LeftIgnoresPrefix(a, b, pass, i + 1);
    }
  }

  lemma {:induction false} LeftAreContacts(entries: seq<Entry>, pass: Pass, i: nat)
    requires Clean(entries, pass, i)
    ensures Left(entries, pass, i) == |Contacts(entries, pass, i)|
    decreases |entries| - i
  {
    if i < |entries| {
      LeftAreContacts(entries, pass, i + 1);
    }
  }

  lemma {:induction false} NoneLeft(entries: seq<Entry>, pass: Pass, i: nat)
    requires i <= |entries|
    ensures Left(entries, pass, i) == 0 <==> forall j | i <= j < |entries| :: !Open(pass, entries[j].rv)
    decreases |entries| - i
  {
    if i < |entries| {
      NoneLeft(entries, pass, i + 1);
    }
  }

  lemma {:induction false} ContactedCounts(news: seq<Event>)
    requires forall m | 0 <= m < |news| :: news[m].Called?
    ensures |Contacted(news)| == |news|
    decreases |news|
  {
    if news != [] {
      ContactedCounts(news[1..]);
    }
  }

  lemma LeftStep(pass: Pass, i: nat, s: Sys, s2: Sys, e: Event, t: Sys, complete: bool)
    requires i < |s.entries| && Eligible(pass, s.entries[i].rv) && Clean(s.entries, pass, i)
    requires s2.entries == if IsDone(e) then s.entries[i := s.entries[i].(rv := Settled(pass))] else s.entries
    requires s2.trace <= t.trace && PassReport(pass, i + 1, s2.entries, t.entries, News(s2, t), complete)
    requires Left(t.entries, pass, i + 1) + Dones(News(s2, t)) == Left(s2.entries, pass, i + 1)
    ensures Left(t.entries, pass, i) + Dones([e] + News(s2, t)) == Left(s.entries, pass, i)
  {
    DonesFirst(e, News(s2, t));
    LeftIgnoresPrefix(s.entries, s2.entries, pass, i + 1);
    assert t.entries[i] == t.entries[..i + 1][i] && s2.entries[i] == s2.entries[..i + 1][i];
  }

  /** What a pass from position i of s has done when it ends in t. */
  predicate Reported(pass: Pass, i: nat, heuristics: bool, s: Sys, t: Sys, h: bool, end: Outcome) {
    && s.trace <= t.trace
    && (end == Returned ==> h == (heuristics || Dones(News(s, t)) < |News(s, t)|))
    && (end != Returned ==> Dones(News(s, t)) < |News(s, t)|)
    && (pass == RetryCommit || pass == RetryRollback ==> h == heuristics)
    && PassReport(pass, i, s.entries, t.entries, News(s, t), end == Returned)
    && (Clean(s.entries, pass, i) ==> Left(t.entries, pass, i) + Dones(News(s, t)) == Left(s.entries, pass, i))
  }

  lemma ContactReported(pass: Pass, i: nat, heuristics: bool, s: Sys, s2: Sys, e: Event, t: Sys, h: bool, end: Outcome)
    requires Distinct(s.entries) && i < |s.entries| && Eligible(pass, s.entries[i].rv)
    requires e.Called? && e.req == PassRequest(pass) && e.r == s.entries[i].r
    requires e.reply == Done || Forgiven(pass, e.reply)
    requires s2.trace == s.trace + [e]
    requires s2.entries == if e.reply == Done then s.entries[i := s.entries[i].(rv := Settled(pass))] else s.entries
    requires Reported(pass, i + 1, heuristics || e.reply != Done, s2, t, h, end)
    ensures Reported(pass, i, heuristics, s, t, h, end)
  {
    ReportStep(pass, i, s.entries, s2.entries, t.entries, e, News(s2, t), end == Returned);
    DonesFirst(e, News(s2, t));
    if Clean(s.entries, pass, i) {
      LeftStep(pass, i, s, s2, e, t, end == Returned);
    }
    assert News(s, t) == [e] + News(s2, t);
  }

  lemma StopReported(pass: Pass, i: nat, heuristics: bool, s: Sys, e: Event, t: Sys, end: Outcome)
    requires Distinct(s.entries) && i < |s.entries| && Eligible(pass, s.entries[i].rv)
    requires e.Called? && e.req == PassRequest(pass) && e.r == s.entries[i].r && e.reply != Done
    requires t.trace == s.trace + [e] && t.entries == s.entries && end != Returned
    ensures Reported(pass, i, heuristics, s, t, heuristics, end)
  {
    ReportStep(pass, i, s.entries, s.entries, s.entries, e, [], false);
    DonesFirst(e, []);
    assert News(s, t) == [e] + [];
  }

  lemma SkipReported(pass: Pass, i: nat, heuristics: bool, s: Sys, t: Sys, h: bool, end: Outcome)
    requires Distinct(s.entries) && i < |s.entries| && !Eligible(pass, s.entries[i].rv)
    requires Reported(pass, i + 1, heuristics, s, t, h, end)
    ensures Reported(pass, i, heuristics, s, t, h, end)
  {
    SkipStep(pass, i, s.entries, t.entries, News(s, t), end == Returned);
  }

  lemma EndReported(pass: Pass, i: nat, heuristics: bool, s: Sys)
    requires i == |s.entries|
    ensures Reported(pass, i, heuristics, s, s, heuristics, Returned)
  {
  }

  /** The report about a whole pass: contacts in order and once each, a settled vote exactly where
      the answer was normal, the heuristics flag raised exactly by answers that were forgiven, and
      an early end only at an answer that is neither. */
  lemma {:induction false} SweepReport(s: Sys, fates: Fates, pass: Pass, i: nat, heuristics: bool)
    requires Distinct(s.entries) && i <= |s.entries|
    ensures var (t, h, end) := Sweep(s, fates, pass, i, heuristics); Reported(pass, i, heuristics, s, t, h, end)
    decreases |s.entries| - i
  {
    hide Call, Sweep, Reported;
    var (t, h, end) := Sweep(s, fates, pass, i, heuristics);
    if i == |s.entries| {
      SweepSkips(s, fates, pass, i, heuristics);
      EndReported(pass, i, heuristics, s);
    } else if !Eligible(pass, s.entries[i].rv) {
      SweepSkips(s, fates, pass, i, heuristics);
      SweepReport(s, fates, pass, i + 1, heuristics);
      SkipReported(pass, i, heuristics, s, t, h, end);
    } else {
      SweepUnfolds(s, fates, pass, i, heuristics);
      var (s1, reply) := Call(s, fates, PassRequest(pass), s.entries[i].r);
      var e := s1.trace[|s.trace|];
      if reply == Done || Forgiven(pass, reply) {
        var s2 := if reply == Done then SetVoteAt(s1, i, Settled(pass)) else s1;
        SweepReport(s2, fates, pass, i + 1, heuristics || reply != Done);
        ContactReported(pass, i, heuristics, s, s2, e, t, h, end);
      } else {
        StopReported(pass, i, heuristics, s, e, t, end);
      }
    }
  }
}
