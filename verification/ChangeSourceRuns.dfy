/** Theorems about whole runs of the change source. */
module ChangeSourceRuns {
  import opened Options
  import opened ChangeSource
  import opened ChangeSourceProofs

  // ---------------------------------------------------------------- rename halves

  lemma HoldsStep(s: Source, ops: seq<Op>, pending: Option<Held>)
    requires s.todo != [] && HoldsSafely(s)
    requires forall i | 0 <= i < |ops| :: !ops[i].Hold?
    requires pending.None? || (pending == s.pending && !s.todo[0].Flush?) || |s.todo| == 1
    ensures HoldsSafely(s.(pending := pending, todo := ops + s.todo[1..]))
  {
    var after := s.(pending := pending, todo := ops + s.todo[1..]);
    forall i | 0 <= i < |after.todo| && after.todo[i].Hold?
      ensures i == |after.todo| - 1 && (after.pending.None? || exists j :: 0 <= j < i && after.todo[j].Flush?)
    {
      var was := i - |ops| + 1;
      assert s.todo[was] == after.todo[i];
      if pending.Some? {
        var j :| 0 <= j < was && s.todo[j].Flush?;
        assert after.todo[j + |ops| - 1] == s.todo[j];
      }
    }
  }

  /** The operations that an operation puts in its place. */
  function InPlace(s: Source, expired: bool): seq<Op>
    requires s.todo != []
  {
    match s.todo[0]
    case Flush => if s.pending.None? then [] else [Mark(INCOMPLETE_RENAME, {s.pending.value.token})]
    case Mark(_, _) => []
    case Hold(_) => []
    case Pair(current) => PairOps(s, current, expired)
    case Number(draft) => [Send(Observation(s.nextSequence, s.tickets, draft))]
    case Send(observation) =>
      if s.accepting && |s.queue| >= s.capacity then [Mark(OVERFLOW, observation.draft.sources)] else []
  }

  lemma PerformTodo(s: Source, expired: bool)
    requires s.todo != []
    ensures Perform(s, expired).todo == InPlace(s, expired) + s.todo[1..]
  {
    hide PairOps;
    assert [] + s.todo[1..] == s.todo[1..];
  }

  lemma HoldsPerform(s: Source, expired: bool)
    requires s.todo != [] && HoldsSafely(s)
    ensures HoldsSafely(Perform(s, expired))
  {
    var ops, after := InPlace(s, expired), Perform(s, expired);
    PerformTodo(s, expired);
    hide Perform, InPlace;
    assert s.todo[0].Hold? ==> |s.todo| == 1;
    HoldsStep(s, ops, after.pending);
    assert HoldsSafely(s.(pending := after.pending, todo := ops + s.todo[1..]));
  }

  lemma HoldsApply(s: Source, step: Step)
    requires HoldsSafely(s)
    ensures HoldsSafely(Apply(s, step))
  {
    hide Perform, Continued;
    match step
    case Notify(notice) =>
      if s.todo == [] && s.accepting {
        ProgramHolds(notice, s.handled);
      }
    case Callback(expired) =>
      if s.todo != [] {
        HoldsPerform(s, expired);
      }
    case BeginDrain(_) =>
    case Continue(expired) => HoldsContinued(s, expired);
    case Stop =>
  }

  lemma HoldsContinued(s: Source, expired: bool)
    requires HoldsSafely(s)
    ensures HoldsSafely(Continued(s, expired))
  {
    ContinuedFrame(s, expired);
    ContinuedHolds(s, expired);
    hide Continued;
  }

  // ---------------------------------------------------------------- counters

  function ReportedDrops(reports: seq<Batch>): nat {
    if reports == [] then 0 else ReportedDrops(reports[..|reports| - 1]) + reports[|reports| - 1].dropped
  }

  function ReportedIgnored(reports: seq<Batch>): nat {
    if reports == [] then 0 else ReportedIgnored(reports[..|reports| - 1]) + reports[|reports| - 1].ignored
  }

  function InHand(drain: Drain): Tally {
    if drain.Idle? then Tally(0, 0, 0) else drain.tally
  }

  /** Every send and every refusal is in exactly one place. */
  ghost predicate Counted(s: Source) {
    && s.enqueued == s.received + s.queue
    && |s.queue| <= s.capacity
    && s.attempts == |s.enqueued| + s.drops
    && s.drops == s.dropped + InHand(s.drain).dropped + ReportedDrops(s.reports)
    && s.refusals == s.ignored + InHand(s.drain).ignored + ReportedIgnored(s.reports)
    && (s.drain.Counting? ==> s.drain.tally.ignored == 0)
    && (s.drain.Receiving? ==> |s.drain.batch| <= s.drain.tally.limit)
    && (!s.drain.Idle? ==> 1 <= s.drain.tally.limit)
  }

  lemma OneReport(reports: seq<Batch>, last: Batch)
    ensures ReportedDrops(reports + [last]) == ReportedDrops(reports) + last.dropped
    ensures ReportedIgnored(reports + [last]) == ReportedIgnored(reports) + last.ignored
  {
    assert (reports + [last])[..|reports|] == reports;
  }

  predicate SameAccounts(s: Source, after: Source) {
    && after.enqueued == s.enqueued && after.received == s.received && after.queue == s.queue
    && after.capacity == s.capacity && after.attempts == s.attempts && after.drops == s.drops
    && after.dropped == s.dropped && after.ignored == s.ignored && after.refusals == s.refusals
    && after.drain == s.drain && after.reports == s.reports && after.taken == s.taken
  }

  predicate SameNumbers(s: Source, after: Source) {
    after.tickets == s.tickets && after.nextSequence == s.nextSequence
  }

  lemma FlushAccounts(s: Source)
    requires s.todo != []
    ensures SameAccounts(s, FlushHalf(s)) && SameNumbers(s, FlushHalf(s))
  {
  }

  lemma PairAccounts(s: Source, current: Held, expired: bool)
    requires s.todo != []
    ensures SameAccounts(s, PairHalf(s, current, expired)) && SameNumbers(s, PairHalf(s, current, expired))
  {
    hide PairOps;
  }

  lemma NumberAccounts(s: Source, draft: Draft)
    requires s.todo != []
    ensures SameAccounts(s, NumberDraft(s, draft))
  {
  }

  /** Only a send touches what the counters count, and only numbering takes a number. */
  lemma PerformAccounts(s: Source, expired: bool)
    requires s.todo != [] && !s.todo[0].Send?
    ensures SameAccounts(s, Perform(s, expired)) && (!s.todo[0].Number? ==> SameNumbers(s, Perform(s, expired)))
  {
    hide FlushHalf, PairHalf, NumberDraft;
    match s.todo[0]
    case Flush => FlushAccounts(s);
    case Pair(current) => PairAccounts(s, current, expired);
    case Number(draft) => NumberAccounts(s, draft);
    case _ =>
  }

  lemma CountedSend(s: Source, observation: Observation)
    requires s.todo != [] && Counted(s)
    ensures Counted(SendOne(s, observation))
  {
    hide ReportedDrops, ReportedIgnored;
    if s.accepting && |s.queue| < s.capacity {
      assert (s.received + s.queue) + [observation] == s.received + (s.queue + [observation]);
    }
  }

  lemma CountedPerform(s: Source, expired: bool)
    requires s.todo != [] && Counted(s)
    ensures Counted(Perform(s, expired))
  {
    hide ReportedDrops, ReportedIgnored, SendOne;
    if s.todo[0].Send? {
      CountedSend(s, s.todo[0].observation);
    } else {
      PerformAccounts(s, expired);
      hide Perform;
    }
  }

  lemma CountedReceive(s: Source, tally: Tally, code: Option<string>, batch: seq<Observation>)
    requires Counted(s) && s.drain == Receiving(tally, code, batch) && |batch| < tally.limit && s.queue != []
    ensures Counted(ReceiveOne(s, tally, code, batch))
  {
    hide ReportedDrops, ReportedIgnored;
    var after := ReceiveOne(s, tally, code, batch);
    assert after.queue == s.queue[1..] && after.received == s.received + [s.queue[0]];
    assert s.received + s.queue == (s.received + [s.queue[0]]) + s.queue[1..];
  }

  lemma CountedReturn(s: Source, tally: Tally, code: Option<string>, batch: seq<Observation>)
    requires Counted(s) && s.drain == Receiving(tally, code, batch) && !(|batch| < tally.limit && s.queue != [])
    ensures Counted(ReceiveOne(s, tally, code, batch))
  {
    OneReport(s.reports, Batch(batch, tally.dropped, tally.ignored, code));
    hide ReportedDrops, ReportedIgnored;
  }

  lemma CountedTake(s: Source, tally: Tally)
    requires Counted(s) && s.drain == Flushed(tally)
    ensures Counted(TakeGap(s, tally))
  {
    hide ReportedDrops, ReportedIgnored;
  }

  lemma CountedReport(s: Source, tally: Tally, code: Option<string>)
    requires Counted(s) && s.drain == Taken(tally, code)
    ensures Counted(ReportGap(s, tally, code))
  {
    hide ReportedDrops, ReportedIgnored;
  }

  lemma CountedGiveUp(s: Source, tally: Tally, expired: bool)
    requires Counted(s) && s.drain == Drain.Counted(tally)
    ensures Counted(GiveUpHalf(s, tally, expired))
  {
    hide ReportedDrops, ReportedIgnored;
  }

  lemma CountedQuiet(s: Source, expired: bool)
    requires Counted(s) && (s.drain.Idle? || s.drain.Counting? || s.drain.Expiring?)
    ensures Counted(Continued(s, expired))
  {
    hide ReportedDrops, ReportedIgnored, ReceiveOne, TakeGap, ReportGap, GiveUpHalf;
  }

  lemma CountedContinued(s: Source, expired: bool)
    requires Counted(s)
    ensures Counted(Continued(s, expired))
  {
    hide Counted, ReceiveOne, TakeGap, ReportGap, GiveUpHalf;
    match s.drain
    case Receiving(tally, code, batch) =>
      if |batch| < tally.limit && s.queue != [] {
        CountedReceive(s, tally, code, batch);
      } else {
        CountedReturn(s, tally, code, batch);
      }
    case Flushed(tally) => CountedTake(s, tally);
    case Taken(tally, code) => CountedReport(s, tally, code);
    case Counted(tally) => CountedGiveUp(s, tally, expired);
    case _ => CountedQuiet(s, expired);
  }

  lemma CountedApply(s: Source, step: Step)
    requires Counted(s)
    ensures Counted(Apply(s, step))
  {
    hide ReportedDrops, ReportedIgnored, Perform, Continued;
    match step
    case Notify(_) =>
    case Callback(expired) =>
      if s.todo != [] {
        CountedPerform(s, expired);
      }
    case BeginDrain(_) =>
    case Continue(expired) => CountedContinued(s, expired);
    case Stop =>
  }

  // ---------------------------------------------------------------- issues

  ghost predicate FirstWorstAt(marks: seq<Issue>, issue: Issue, i: nat) {
    && i < |marks| && marks[i] == issue
    && (forall j | 0 <= j < i :: HealthCode(marks[j].severity) < HealthCode(issue.severity))
    && (forall j | i < j < |marks| :: HealthCode(marks[j].severity) <= HealthCode(issue.severity))
  }

  /** The first of the most severe issues. */
  ghost predicate FirstWorst(marks: seq<Issue>, issue: Issue) {
    exists i: nat :: FirstWorstAt(marks, issue, i)
  }

  /** The flag is up exactly while an issue is recorded, and the record is the first worst one. */
  ghost predicate Flagged(s: Source) {
    && (s.gap <==> s.lastIssue.Some?)
    && (s.gap <==> s.marks != [])
    && (s.gap ==> FirstWorst(s.marks, s.lastIssue.value))
  }

  lemma WorseIsFirstWorst(marks: seq<Issue>, last: Option<Issue>, issue: Issue)
    requires if marks == [] then last.None? else last.Some? && FirstWorst(marks, last.value)
    ensures FirstWorst(marks + [issue], Worse(last, issue))
  {
    var more := marks + [issue];
    if marks == [] {
      assert FirstWorstAt(more, issue, 0);
    } else {
      var i: nat :| FirstWorstAt(marks, last.value, i);
      if HealthCode(issue.severity) > HealthCode(last.value.severity) {
        assert FirstWorstAt(more, issue, |marks|);
      } else {
        assert FirstWorstAt(more, last.value, i);
      }
    }
  }

  lemma RaiseFlags(s: Source, issue: Issue)
    requires Flagged(s)
    ensures Flagged(Raise(s, issue))
  {
    WorseIsFirstWorst(s.marks, s.lastIssue, issue);
  }

  lemma FlaggedPerform(s: Source, expired: bool)
    requires s.todo != [] && Flagged(s)
    ensures Flagged(Perform(s, expired))
  {
    hide FirstWorst, PairOps;
    if s.todo[0].Mark? {
      RaiseFlags(s, s.todo[0].issue);
    }
  }

  lemma FlaggedContinued(s: Source, expired: bool)
    requires Flagged(s)
    ensures Flagged(Continued(s, expired))
  {
    hide FirstWorst;
    if s.drain.Expiring? {
      RaiseFlags(s, INCOMPLETE_RENAME);
    }
  }

  lemma FlaggedApply(s: Source, step: Step)
    requires Flagged(s)
    ensures Flagged(Apply(s, step))
  {
    hide FirstWorst, Program, Perform, Continued;
    match step
    case Notify(_) =>
    case Callback(expired) =>
      if s.todo != [] {
        FlaggedPerform(s, expired);
      }
    case BeginDrain(_) =>
    case Continue(expired) => FlaggedContinued(s, expired);
    case Stop =>
  }

  // ---------------------------------------------------------------- sequence numbers

  /** The number that goes with the n-th ticket: one more, up to the width of the counter. */
  function SequenceOf(ticket: nat): nat {
    if ticket + 1 >= U64_MAX then U64_MAX else ticket + 1
  }

  function Delivered(reports: seq<Batch>): seq<Observation> {
    if reports == [] then [] else Delivered(reports[..|reports| - 1]) + reports[|reports| - 1].observations
  }

  function CurrentBatch(s: Source): seq<Observation> {
    if s.drain.Receiving? then s.drain.batch else []
  }

  /** Everything that has left the callback thread, in the order in which the owner sees it. */
  function Outgoing(s: Source): seq<Observation> {
    Delivered(s.reports) + CurrentBatch(s) + s.queue
  }

  ghost predicate Genuine(observation: Observation, tickets: nat) {
    observation.ticket < tickets && observation.sequence == SequenceOf(observation.ticket)
  }

  ghost predicate Distinct(observations: seq<Observation>) {
    forall i, j | 0 <= i < j < |observations| :: observations[i].ticket != observations[j].ticket
  }

  ghost predicate Rising(observations: seq<Observation>) {
    forall i, j | 0 <= i < j < |observations| :: observations[i].ticket < observations[j].ticket
  }

  ghost predicate Numbered(s: Source) {
    && s.nextSequence == SequenceOf(s.tickets)
    && (forall i | 0 <= i < |Outgoing(s)| :: Genuine(Outgoing(s)[i], s.tickets))
    && (forall i | 0 <= i < |s.enqueued| :: Genuine(s.enqueued[i], s.tickets))
    && Distinct(Outgoing(s)) && Rising(s.enqueued)
    && (forall i | 0 < i < |s.todo| :: !s.todo[i].Send?)
    && (s.todo != [] && s.todo[0].Send? ==> Unsent(s, s.todo[0].observation))
  }

  /** The observation about to be sent is newer than every one before it. */
  ghost predicate Unsent(s: Source, observation: Observation) {
    && Genuine(observation, s.tickets)
    && (forall i | 0 <= i < |Outgoing(s)| :: Outgoing(s)[i].ticket != observation.ticket)
    && (forall i | 0 <= i < |s.enqueued| :: s.enqueued[i].ticket < observation.ticket)
  }

  lemma SameOutgoing(s: Source, after: Source)
    requires Numbered(s) && Outgoing(after) == Outgoing(s) && after.enqueued == s.enqueued
    requires after.tickets == s.tickets && after.nextSequence == s.nextSequence
    requires forall i | 0 <= i < |after.todo| :: after.todo[i].Send? ==> i == 0 && s.todo != [] && s.todo[0] == after.todo[0]
    ensures Numbered(after)
  {
    hide Outgoing;
  }

  lemma NumberKeeps(s: Source, draft: Draft)
    requires Numbered(s) && s.todo != []
    ensures Numbered(NumberDraft(s, draft))
  {
    var after := NumberDraft(s, draft);
    assert Outgoing(after) == Outgoing(s);
    assert after.enqueued == s.enqueued && after.tickets == s.tickets + 1 && after.nextSequence == Bump(s.nextSequence);
    assert after.todo == [Send(Observation(s.nextSequence, s.tickets, draft))] + s.todo[1..];
    hide Outgoing, NumberDraft;
    forall i | 0 <= i < |Outgoing(s)|
      ensures Genuine(Outgoing(s)[i], s.tickets + 1) && Outgoing(s)[i].ticket != s.tickets
    {
      assert Genuine(Outgoing(s)[i], s.tickets);
    }
  }

  lemma AppendNewest(observations: seq<Observation>, newest: Observation, tickets: nat)
    requires forall i | 0 <= i < |observations| :: Genuine(observations[i], tickets)
    requires Genuine(newest, tickets)
    ensures forall i | 0 <= i < |observations + [newest]| :: Genuine((observations + [newest])[i], tickets)
    ensures Distinct(observations) && (forall i | 0 <= i < |observations| :: observations[i].ticket != newest.ticket) ==>
              Distinct(observations + [newest])
    ensures Rising(observations) && (forall i | 0 <= i < |observations| :: observations[i].ticket < newest.ticket) ==>
              Rising(observations + [newest])
  {
  }

  lemma SendKeeps(s: Source, sent: Observation)
    requires Numbered(s) && s.todo != [] && s.todo[0] == Send(sent) && s.accepting && |s.queue| < s.capacity
    ensures Numbered(SendOne(s, sent))
  {
    var after := SendOne(s, sent);
    assert Outgoing(after) == Outgoing(s) + [sent];
    assert after.enqueued == s.enqueued + [sent] && SameNumbers(s, after) && after.todo == s.todo[1..];
    AppendNewest(Outgoing(s), sent, s.tickets);
    AppendNewest(s.enqueued, sent, s.tickets);
    hide Outgoing, SendOne, Genuine, Distinct, Rising;
  }

  lemma RefusedSendKeeps(s: Source, sent: Observation)
    requires Numbered(s) && s.todo != [] && s.todo[0] == Send(sent) && !(s.accepting && |s.queue| < s.capacity)
    ensures Numbered(SendOne(s, sent))
  {
    var after := SendOne(s, sent);
    assert Outgoing(after) == Outgoing(s);
    assert after.enqueued == s.enqueued && SameNumbers(s, after);
    assert after.todo == (if s.accepting then [Mark(OVERFLOW, sent.draft.sources)] else []) + s.todo[1..];
    hide Outgoing, SendOne;
    SameOutgoing(s, after);
  }

  /** Apart from numbering and sending, an operation leaves the outgoing observations alone. */
  lemma OtherKeeps(s: Source, expired: bool)
    requires s.todo != [] && Numbered(s) && !s.todo[0].Number? && !s.todo[0].Send?
    ensures Numbered(Perform(s, expired))
  {
    var after := Perform(s, expired);
    PerformAccounts(s, expired);
    PerformTodo(s, expired);
    hide Perform, InPlace;
    assert Outgoing(after) == Outgoing(s);
    hide Outgoing;
    SameOutgoing(s, after);
  }

  lemma NumberedPerform(s: Source, expired: bool)
    requires s.todo != [] && Numbered(s)
    ensures Numbered(Perform(s, expired))
  {
    hide Numbered, NumberDraft, SendOne, PairHalf, FlushHalf;
    match s.todo[0]
    case Number(draft) => NumberKeeps(s, draft);
    case Send(sent) =>
      if s.accepting && |s.queue| < s.capacity {
        SendKeeps(s, sent);
      } else {
        RefusedSendKeeps(s, sent);
      }
    case _ => OtherKeeps(s, expired);
  }

  lemma InsertFresh(before: seq<Observation>, behind: seq<Observation>, report: Observation, tickets: nat)
    requires Distinct(before + behind) && report.ticket == tickets && report.sequence == SequenceOf(tickets)
    requires forall i | 0 <= i < |before + behind| :: Genuine((before + behind)[i], tickets)
    ensures Distinct(before + [report] + behind)
    ensures forall i | 0 <= i < |before + [report] + behind| :: Genuine((before + [report] + behind)[i], tickets + 1)
  {
    var old', new' := before + behind, before + [report] + behind;
    var n := |before|;
    assert forall i | 0 <= i < n :: new'[i] == old'[i];
    assert forall i | n < i < |new'| :: new'[i] == old'[i - 1];
    assert forall i | 0 <= i < |old'| :: Genuine(old'[i], tickets);
  }

  lemma InsertAvoids(before: seq<Observation>, behind: seq<Observation>, report: Observation, ticket: nat)
    requires forall i | 0 <= i < |before + behind| :: (before + behind)[i].ticket != ticket
    requires report.ticket != ticket
    ensures forall i | 0 <= i < |before + [report] + behind| :: (before + [report] + behind)[i].ticket != ticket
  {
    var old', new' := before + behind, before + [report] + behind;
    assert forall i | 0 <= i < |before| :: new'[i] == old'[i];
    assert forall i | |before| < i < |new'| :: new'[i] == old'[i - 1];
  }

  /** The gap report takes a number of its own, whatever is being sent meanwhile. */
  lemma ReportKeeps(s: Source, expired: bool)
    requires Numbered(s) && s.drain.Taken?
    ensures Numbered(Continued(s, expired))
  {
    var after := Continued(s, expired);
    var report := after.drain.batch[0];
    var before := Delivered(s.reports);
    assert Outgoing(s) == before + s.queue;
    assert Outgoing(after) == before + [report] + s.queue;
    InsertFresh(before, s.queue, report, s.tickets);
    if s.todo != [] && s.todo[0].Send? {
      InsertAvoids(before, s.queue, report, s.todo[0].observation.ticket);
    }
    hide Outgoing;
  }

  /** The drain is about to take an observation from the queue. */
  predicate Receives(s: Source) {
    s.drain.Receiving? && |s.drain.batch| < s.drain.tally.limit && s.queue != []
  }

  lemma Close(reports: seq<Batch>, batch: Batch)
    ensures Delivered(reports + [batch]) + [] == Delivered(reports) + batch.observations
  {
    assert (reports + [batch])[..|reports|] == reports;
  }

  lemma ReturnOutgoing(s: Source, expired: bool)
    requires s.drain.Receiving? && !Receives(s)
    ensures Outgoing(Continued(s, expired)) == Outgoing(s)
  {
    hide Delivered;
    Close(s.reports, Batch(s.drain.batch, s.drain.tally.dropped, s.drain.tally.ignored, s.drain.code));
  }

  lemma ContinuedOutgoing(s: Source, expired: bool)
    requires !s.drain.Taken?
    ensures Outgoing(Continued(s, expired)) == Outgoing(s) && SameNumbers(s, Continued(s, expired))
  {
    if s.drain.Receiving? {
      assert SameNumbers(s, Continued(s, expired));
      hide Continued, Outgoing;
      if Receives(s) {
      } else {
        ReturnOutgoing(s, expired);
      }
    }
  }

  lemma NumberedContinued(s: Source, expired: bool)
    requires Numbered(s)
    ensures Numbered(Continued(s, expired))
  {
    if s.drain.Taken? {
      ReportKeeps(s, expired);
    } else {
      hide Continued, Outgoing;
      ContinuedOutgoing(s, expired);
      ContinuedFrame(s, expired);
      SameOutgoing(s, Continued(s, expired));
    }
  }

  lemma NumberedNotify(s: Source, notice: Notice)
    requires Numbered(s)
    ensures Numbered(Apply(s, Notify(notice)))
  {
    var after := Apply(s, Notify(notice));
    ProgramHolds(notice, s.handled);
    assert Outgoing(after) == Outgoing(s);
    hide Outgoing;
    SameOutgoing(s, after);
  }

  lemma NumberedQuiet(s: Source, step: Step)
    requires Numbered(s) && (step.BeginDrain? || step.Stop?)
    ensures Numbered(Apply(s, step))
  {
    var after := Apply(s, step);
    assert Outgoing(after) == Outgoing(s) && after.enqueued == s.enqueued && after.todo == s.todo && SameNumbers(s, after);
    hide Apply, Outgoing;
    SameOutgoing(s, after);
  }

  lemma NumberedApply(s: Source, step: Step)
    requires Numbered(s)
    ensures Numbered(Apply(s, step))
  {
    hide Numbered, Perform, Continued;
    match step
    case Notify(notice) => NumberedNotify(s, notice);
    case Callback(expired) =>
      if s.todo != [] {
        NumberedPerform(s, expired);
      }
    case Continue(expired) => NumberedContinued(s, expired);
    case _ => NumberedQuiet(s, step);
  }

  // ---------------------------------------------------------------- what the owner is told

  function Plain(observations: seq<Observation>): seq<Observation> {
    if observations == [] then []
    else
      var last := observations[|observations| - 1];
      Plain(observations[..|observations| - 1]) + (if last.draft.kind.EvidenceGap? then [] else [last])
  }

  function Gaps(observations: seq<Observation>): nat {
    if observations == [] then 0
    else
      Gaps(observations[..|observations| - 1]) + (if observations[|observations| - 1].draft.kind.EvidenceGap? then 1 else 0)
  }

  function Seen(s: Source): seq<Observation> {
    Delivered(s.reports) + CurrentBatch(s)
  }

  predicate Ordinary(op: Op) {
    (op.Number? ==> !op.draft.kind.EvidenceGap?) && (op.Send? ==> !op.observation.draft.kind.EvidenceGap?)
  }

  /** Drained flags become gap observations one to one; all else the owner sees came through the queue. */
  ghost predicate Reported(s: Source) {
    && (forall i | 0 <= i < |s.todo| :: Ordinary(s.todo[i]))
    && (forall i | 0 <= i < |s.queue| :: !s.queue[i].draft.kind.EvidenceGap?)
    && Plain(Seen(s)) == s.received
    && s.taken == Gaps(Seen(s)) + (if s.drain.Taken? then 1 else 0)
  }

  lemma OneSeen(observations: seq<Observation>, last: Observation)
    ensures Plain(observations + [last]) == Plain(observations) + (if last.draft.kind.EvidenceGap? then [] else [last])
    ensures Gaps(observations + [last]) == Gaps(observations) + (if last.draft.kind.EvidenceGap? then 1 else 0)
  {
    assert (observations + [last])[..|observations|] == observations;
  }

  lemma {:induction false} EmitEachOrdinary(kind: EventKind, paths: seq<Path>, notice: nat, from: nat)
    ensures forall i | 0 <= i < |EmitEach(kind, paths, notice, from)| :: Ordinary(EmitEach(kind, paths, notice, from)[i])
  {
    if paths != [] {
      EmitEachOrdinary(kind, paths[1..], notice, from + 1);
    }
  }

  lemma ProgramOrdinary(notice: Notice, number: nat)
    ensures forall i | 0 <= i < |Program(notice, number)| :: Ordinary(Program(notice, number)[i])
  {
    if notice.Event? {
      EmitEachOrdinary(notice.kind, notice.paths, number, 0);
    }
  }

  lemma ReportedSend(s: Source, sent: Observation)
    requires s.todo != [] && Reported(s) && s.todo[0] == Send(sent)
    ensures Reported(SendOne(s, sent))
  {
    var after := SendOne(s, sent);
    assert Ordinary(s.todo[0]);
    assert Seen(after) == Seen(s);
    hide Plain, Gaps, Seen;
  }

  lemma ReportedPerform(s: Source, expired: bool)
    requires s.todo != [] && Reported(s)
    ensures Reported(Perform(s, expired))
  {
    hide SendOne;
    if s.todo[0].Send? {
      ReportedSend(s, s.todo[0].observation);
    } else {
      var after := Perform(s, expired);
      assert Ordinary(s.todo[0]);
      InPlaceOrdinary(s, expired);
      PerformAccounts(s, expired);
      PerformTodo(s, expired);
      hide Perform, InPlace, Plain, Gaps, Ordinary;
      assert Seen(after) == Seen(s);
      hide Seen;
    }
  }

  lemma InPlaceOrdinary(s: Source, expired: bool)
    requires s.todo != [] && Ordinary(s.todo[0])
    ensures forall i | 0 <= i < |InPlace(s, expired)| :: Ordinary(InPlace(s, expired)[i])
  {
  }

  function GapReport(s: Source): Observation {
    Observation(s.nextSequence, s.tickets, Draft(EvidenceGap, RootScope, "", None, {}))
  }

  lemma SeenReport(s: Source, after: Source, report: Observation)
    requires s.drain.Taken? && after.reports == s.reports && after.drain.Receiving? && after.drain.batch == [report]
    ensures Seen(after) == Seen(s) + [report]
  {
    hide Delivered;
    assert Delivered(s.reports) + [] == Delivered(s.reports);
  }

  lemma ReportedGap(s: Source, expired: bool)
    requires Reported(s) && s.drain.Taken?
    ensures Reported(Continued(s, expired))
  {
    var after, report := Continued(s, expired), GapReport(s);
    assert after.todo == s.todo && after.queue == s.queue && after.received == s.received && after.taken == s.taken;
    assert after.reports == s.reports && after.drain.Receiving? && after.drain.batch == [report];
    hide Seen, Plain, Gaps, Continued;
    SeenReport(s, after, report);
    OneSeen(Seen(s), report);
    assert Plain(Seen(s)) + [] == Plain(Seen(s));
  }

  lemma ReportedReceive(s: Source, expired: bool)
    requires Reported(s) && Receives(s)
    ensures Reported(Continued(s, expired))
  {
    var after := Continued(s, expired);
    assert after.queue == s.queue[1..] && after.received == s.received + [s.queue[0]];
    assert after.todo == s.todo && after.taken == s.taken && after.drain == s.drain.(batch := s.drain.batch + [s.queue[0]]);
    assert after.reports == s.reports;
    hide Continued, Delivered;
    OneSeen(Seen(s), s.queue[0]);
    assert Seen(after) == Seen(s) + [s.queue[0]];
    hide Seen, Plain, Gaps;
    assert forall i | 0 <= i < |after.queue| :: after.queue[i] == s.queue[i + 1];
  }

  lemma SeenReturn(s: Source, after: Source, batch: Batch)
    requires s.drain.Receiving? && s.drain.batch == batch.observations
    requires after.drain.Idle? && after.reports == s.reports + [batch]
    ensures Seen(after) == Seen(s)
  {
    Close(s.reports, batch);
    hide Delivered;
  }

  lemma ReportedReturn(s: Source, expired: bool)
    requires Reported(s) && s.drain.Receiving? && !Receives(s)
    ensures Reported(Continued(s, expired))
  {
    var after := Continued(s, expired);
    var batch := Batch(s.drain.batch, s.drain.tally.dropped, s.drain.tally.ignored, s.drain.code);
    assert after.queue == s.queue && after.received == s.received && after.todo == s.todo && after.taken == s.taken;
    assert after.drain.Idle? && after.reports == s.reports + [batch];
    hide Continued, Seen, Plain, Gaps;
    SeenReturn(s, after, batch);
  }

  lemma ReportedTake(s: Source, tally: Tally)
    requires Reported(s) && s.drain == Flushed(tally)
    ensures Reported(TakeGap(s, tally))
  {
    var after := TakeGap(s, tally);
    assert Seen(after) == Seen(s);
    hide Seen, Plain, Gaps;
  }

  lemma ReportedGiveUp(s: Source, tally: Tally, expired: bool)
    requires Reported(s) && s.drain == Drain.Counted(tally)
    ensures Reported(GiveUpHalf(s, tally, expired))
  {
    var after := GiveUpHalf(s, tally, expired);
    assert Seen(after) == Seen(s);
    hide Seen, Plain, Gaps;
  }

  lemma ReportedOther(s: Source, expired: bool)
    requires Reported(s) && !s.drain.Taken? && !s.drain.Receiving?
    ensures Reported(Continued(s, expired))
  {
    hide TakeGap, GiveUpHalf, ReportGap, ReceiveOne, Plain, Gaps;
    if s.drain.Flushed? {
      ReportedTake(s, s.drain.tally);
    } else if s.drain.Counted? {
      ReportedGiveUp(s, s.drain.tally, expired);
    } else {
      assert Seen(Continued(s, expired)) == Seen(s);
    }
  }

  lemma ReportedContinued(s: Source, expired: bool)
    requires Reported(s)
    ensures Reported(Continued(s, expired))
  {
    hide Reported, Continued;
    if s.drain.Taken? {
      ReportedGap(s, expired);
    } else if Receives(s) {
      ReportedReceive(s, expired);
    } else if s.drain.Receiving? {
      ReportedReturn(s, expired);
    } else {
      ReportedOther(s, expired);
    }
  }

  lemma ReportedNotify(s: Source, notice: Notice)
    requires Reported(s)
    ensures Reported(Apply(s, Notify(notice)))
  {
    ProgramOrdinary(notice, s.handled);
    assert Seen(Apply(s, Notify(notice))) == Seen(s);
    hide Seen, Plain, Gaps, Program;
  }

  lemma ReportedApply(s: Source, step: Step)
    requires Reported(s)
    ensures Reported(Apply(s, step))
  {
    hide Perform, Continued, Plain, Gaps;
    match step
    case Notify(notice) => ReportedNotify(s, notice);
    case Callback(expired) =>
      if s.todo != [] {
        ReportedPerform(s, expired);
      }
    case BeginDrain(_) => assert Seen(Apply(s, step)) == Seen(s);
    case Continue(expired) => ReportedContinued(s, expired);
    case Stop => assert Seen(Apply(s, step)) == Seen(s);
  }

  // ---------------------------------------------------------------- every run

  ghost predicate Sound(s: Source) {
    NothingLost(s) && HoldsSafely(s) && Counted(s) && Flagged(s) && Numbered(s) && Reported(s)
  }

  lemma ApplySound(s: Source, step: Step)
    requires Sound(s)
    ensures Sound(Apply(s, step))
  {
    hide NothingLost, HoldsSafely, Counted, Flagged, Numbered, Reported, Apply;
    ApplyKeeps(s, step);
    HoldsApply(s, step);
    CountedApply(s, step);
    FlaggedApply(s, step);
    NumberedApply(s, step);
    ReportedApply(s, step);
  }

  lemma {:induction false} EveryRunIsSound(capacity: nat, schedule: seq<Step>)
    ensures Sound(Exec(Started(capacity), schedule))
  {
    if schedule != [] {
      hide Sound, Apply;
      EveryRunIsSound(capacity, schedule[..|schedule| - 1]);
      ApplySound(Exec(Started(capacity), schedule[..|schedule| - 1]), schedule[|schedule| - 1]);
    }
  }

  lemma {:induction false} ObservedSplit(first: seq<Observation>, second: seq<Observation>)
    ensures ObservedTokens(first + second) == ObservedTokens(first) + ObservedTokens(second)
  {
    if second == [] {
      assert first + second == first;
    } else {
      var shorter := second[..|second| - 1];
      ObservedSplit(first, shorter);
      assert (first + second)[..|first + second| - 1] == first + shorter;
    }
  }

  /**
   * No silent loss. Until the source is stopped, each path of each accepted notice has been handed
   * to the owner, waits in the queue, is the pending rename half, is covered by an evidence gap
   * raised at or after its notice, or is in the hands of a thread that is about to do one of these.
   */
  lemma NothingIsLostSilently(capacity: nat, schedule: seq<Step>, token: Token)
    requires Exec(Started(capacity), schedule).accepting && token in Exec(Started(capacity), schedule).obligations
    ensures var s := Exec(Started(capacity), schedule);
            || token in ObservedTokens(Plain(Seen(s))) || token in ObservedTokens(s.queue) || token in PendingTokens(s)
            || GapCovers(s, token)
            || token in TodoTokens(s.todo) + DrainTokens(s)
  {
    var s := Exec(Started(capacity), schedule);
    EveryRunIsSound(capacity, schedule);
    ObservedSplit(s.received, s.queue);
    hide Exec, Numbered, HoldsSafely, Flagged, TodoTokens, ObservedTokens, Plain, Seen;
  }

  /** Between two callbacks and outside a drain, nothing is in the hands of a thread. */
  lemma NothingIsLostAtRest(capacity: nat, schedule: seq<Step>, token: Token)
    requires Exec(Started(capacity), schedule).accepting && token in Exec(Started(capacity), schedule).obligations
    requires Exec(Started(capacity), schedule).todo == [] && Exec(Started(capacity), schedule).drain.Idle?
    ensures var s := Exec(Started(capacity), schedule);
            || token in ObservedTokens(Plain(Delivered(s.reports))) || token in ObservedTokens(s.queue)
            || token in PendingTokens(s) || GapCovers(s, token)
  {
    var s := Exec(Started(capacity), schedule);
    NothingIsLostSilently(capacity, schedule, token);
    assert Seen(s) == Delivered(s.reports);
    NoTokens();
    hide Exec, Plain, ObservedTokens;
  }

  /** Every send attempted while accepting is delivered, queued, or counted as dropped exactly once. */
  lemma EverySendIsAccountedFor(capacity: nat, schedule: seq<Step>)
    ensures var s := Exec(Started(capacity), schedule);
            && s.attempts == |Plain(Seen(s))| + |s.queue| + s.dropped + InHand(s.drain).dropped + ReportedDrops(s.reports)
            && |s.queue| <= s.capacity
            && s.taken == Gaps(Seen(s)) + (if s.drain.Taken? then 1 else 0)
  {
    var s := Exec(Started(capacity), schedule);
    EveryRunIsSound(capacity, schedule);
    hide Exec, Numbered, HoldsSafely, Flagged, NothingLost, Plain, Seen, ReportedDrops, ReportedIgnored;
    assert |s.enqueued| == |s.received| + |s.queue|;
  }

  /** Until the counter saturates, no number is used twice and queued observations keep their order. */
  lemma SequencesAreDistinct(capacity: nat, schedule: seq<Step>)
    requires Exec(Started(capacity), schedule).tickets < U64_MAX
    ensures var s := Exec(Started(capacity), schedule);
            && (forall i, j | 0 <= i < j < |Outgoing(s)| :: Outgoing(s)[i].sequence != Outgoing(s)[j].sequence)
            && (forall i, j | 0 <= i < j < |Plain(Seen(s))| :: Plain(Seen(s))[i].sequence < Plain(Seen(s))[j].sequence)
  {
    var s := Exec(Started(capacity), schedule);
    EveryRunIsSound(capacity, schedule);
    hide Exec, HoldsSafely, Flagged, NothingLost, Outgoing, Seen, Plain, Gaps;
    forall i, j | 0 <= i < j < |Outgoing(s)|
      ensures Outgoing(s)[i].sequence != Outgoing(s)[j].sequence
    {
      assert Genuine(Outgoing(s)[i], s.tickets) && Genuine(Outgoing(s)[j], s.tickets);
    }
    forall i, j | 0 <= i < j < |s.received|
      ensures s.received[i].sequence < s.received[j].sequence
    {
      assert s.enqueued[i] == s.received[i] && s.enqueued[j] == s.received[j];
      assert Genuine(s.enqueued[i], s.tickets) && Genuine(s.enqueued[j], s.tickets);
    }
  }

  /** The issue that a drain reports is the first of the most severe since the last report. */
  lemma DrainReportsFirstWorst(capacity: nat, schedule: seq<Step>, expired: bool)
    requires Exec(Started(capacity), schedule).drain.Flushed? && Exec(Started(capacity), schedule).marks != []
    ensures var s := Exec(Started(capacity), schedule);
            exists issue :: FirstWorst(s.marks, issue) &&
              Continued(s, expired).drain == Taken(s.drain.tally, Some(issue.code)) && Continued(s, expired).marks == []
  {
    var s := Exec(Started(capacity), schedule);
    EveryRunIsSound(capacity, schedule);
    hide Exec, HoldsSafely, NothingLost, Numbered, Reported, Counted, FirstWorst;
    assert FirstWorst(s.marks, s.lastIssue.value);
  }
}
