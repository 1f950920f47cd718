/** The shared callback state as an object: its lock regions and an undisturbed `drain`. */
module LibraryChangeSource {
  import opened Options
  import opened ChangeSource

  // ---------------------------------------------------------------- the machine's steps in a row

  /** Sending, and the mark that a full channel makes it leave. */
  function Sent(s: Source): Source
    requires s.todo != [] && s.todo[0].Send?
  {
    var after := Perform(s, false);
    if s.accepting && |s.queue| >= s.capacity then Perform(after, false) else after
  }

  /** The steps a drain has left at most. */
  function StepsLeft(drain: Drain): nat {
    match drain
    case Idle => 0
    case Receiving(tally, _, batch) => 1 + (if |batch| < tally.limit then tally.limit - |batch| else 0)
    case Taken(tally, _) => tally.limit + 2
    case Flushed(tally) => tally.limit + 3
    case Expiring(tally, _) => tally.limit + 4
    case Counted(tally) => tally.limit + 5
    case Counting(tally) => tally.limit + 6
  }

  lemma ReceivingFalls(s: Source, tally: Tally, code: Option<string>, batch: seq<Observation>)
    requires s.drain == Receiving(tally, code, batch)
    ensures StepsLeft(ReceiveOne(s, tally, code, batch).drain) < StepsLeft(s.drain)
  {
  }

  lemma ReportFalls(s: Source, tally: Tally, code: Option<string>)
    requires s.drain == Taken(tally, code)
    ensures StepsLeft(ReportGap(s, tally, code).drain) < StepsLeft(s.drain)
  {
  }

  lemma TakeFalls(s: Source, tally: Tally)
    requires s.drain == Flushed(tally)
    ensures StepsLeft(TakeGap(s, tally).drain) < StepsLeft(s.drain)
  {
  }

  lemma StepsFall(s: Source, expired: bool)
    requires !s.drain.Idle?
    ensures StepsLeft(Continued(s, expired).drain) < StepsLeft(s.drain)
  {
    hide ReceiveOne, ReportGap, TakeGap;
    match s.drain
    case Receiving(tally, code, batch) => ReceivingFalls(s, tally, code, batch);
    case Taken(tally, code) => ReportFalls(s, tally, code);
    case Flushed(tally) => TakeFalls(s, tally);
    case _ =>
  }

  /** A drain without anything in between, to its end. */
  function Drained(s: Source, expired: bool): Source
    decreases StepsLeft(s.drain)
  {
    hide Continued, StepsLeft;
    if s.drain.Idle? then s
    else
      StepsFall(s, expired);
      Drained(Continued(s, expired), expired)
  }

  /** The fields that callbacks and the owner share. */
  datatype Shared = Shared(
    capacity: nat, accepting: bool, gap: bool, lastIssue: Option<Issue>, dropped: nat, ignored: nat,
    nextSequence: nat, tickets: nat, pending: Option<Held>, queue: seq<Observation>)

  function SharedOf(s: Source): Shared {
    Shared(s.capacity, s.accepting, s.gap, s.lastIssue, s.dropped, s.ignored, s.nextSequence, s.tickets, s.pending, s.queue)
  }

  /** The drain goes on from `s` as it does from `next`. */
  predicate LeadsTo(s: Source, next: Source, expired: bool) {
    Drained(s, expired) == Drained(next, expired) && next.reports == s.reports
  }

  lemma CountStep(s: Source, expired: bool) returns (next: Source)
    requires s.drain.Counting?
    ensures LeadsTo(s, next, expired) && SharedOf(next) == SharedOf(s).(ignored := 0)
    ensures next.drain == Counted(s.drain.tally.(ignored := s.ignored))
  {
    next := Continued(s, expired);
  }

  lemma FlushSteps(s: Source, expired: bool) returns (next: Source)
    requires s.drain.Counted?
    ensures LeadsTo(s, next, expired) && next.drain == Flushed(s.drain.tally)
    ensures SharedOf(next) == if expired && s.pending.Some?
                              then SharedOf(s).(pending := None, gap := true, lastIssue := Some(Worse(s.lastIssue, INCOMPLETE_RENAME)))
                              else SharedOf(s)
  {
    next := Continued(s, expired);
    if next.drain.Expiring? {
      next := Continued(next, expired);
    }
  }

  lemma TakeStep(s: Source, expired: bool) returns (next: Source)
    requires s.drain.Flushed?
    ensures LeadsTo(s, next, expired)
    ensures SharedOf(next) == if s.gap then SharedOf(s).(gap := false, lastIssue := None) else SharedOf(s)
    ensures next.drain == if s.gap then Taken(s.drain.tally, if s.lastIssue.Some? then Some(s.lastIssue.value.code) else None)
                          else Receiving(s.drain.tally, None, [])
  {
    next := Continued(s, expired);
  }

  lemma ReportStep(s: Source, expired: bool) returns (next: Source)
    requires s.drain.Taken?
    ensures LeadsTo(s, next, expired)
    ensures SharedOf(next) == SharedOf(s).(nextSequence := Bump(s.nextSequence), tickets := s.tickets + 1)
    ensures next.drain == Receiving(s.drain.tally, s.drain.code,
                                    [Observation(s.nextSequence, s.tickets, Draft(EvidenceGap, RootScope, "", None, {}))])
  {
    next := Continued(s, expired);
  }

  lemma ReceiveStep(s: Source, expired: bool) returns (next: Source)
    requires s.drain.Receiving? && |s.drain.batch| < s.drain.tally.limit && s.queue != []
    ensures LeadsTo(s, next, expired) && SharedOf(next) == SharedOf(s).(queue := s.queue[1..])
    ensures next.drain == s.drain.(batch := s.drain.batch + [s.queue[0]])
  {
    next := Continued(s, expired);
  }

  lemma DrainEnds(s: Source, expired: bool)
    requires s.drain.Receiving? && (s.queue == [] || |s.drain.batch| >= s.drain.tally.limit)
    ensures SharedOf(Drained(s, expired)) == SharedOf(s) && Drained(s, expired).drain.Idle?
    ensures Drained(s, expired).reports
         == s.reports + [Batch(s.drain.batch, s.drain.tally.dropped, s.drain.tally.ignored, s.drain.code)]
  {
  }

  class CallbackState {
    const capacity: nat
    var accepting: bool
    var evidenceGap: bool
    var droppedObservationCount: nat
    var ignoredCallbackCount: nat
    var nextSequence: nat
    var tickets: nat
    var pendingRenameFrom: Option<Held>
    var lastIssue: Option<Issue>
    var queue: seq<Observation>

    /** A flag is never up without an issue, and the channel never exceeds its bound. */
    ghost predicate Valid()
      reads this
    {
      (evidenceGap <==> lastIssue.Some?) && |queue| <= capacity && 1 <= nextSequence <= U64_MAX
    }

    /** The object is in the shared state of the machine. */
    ghost predicate Shows(s: Source)
      reads this
    {
      SharedOf(s) == Shared(capacity, accepting, evidenceGap, lastIssue, droppedObservationCount, ignoredCallbackCount,
                            nextSequence, tickets, pendingRenameFrom, queue)
    }

    constructor (capacity: nat)
      ensures Shows(Started(capacity))
      ensures Valid() && this.capacity == capacity && accepting && !evidenceGap && queue == []
      ensures pendingRenameFrom.None? && droppedObservationCount == ignoredCallbackCount == 0
    {
      this.capacity := capacity;
      accepting, evidenceGap, droppedObservationCount, ignoredCallbackCount := true, false, 0, 0;
      nextSequence, tickets, pendingRenameFrom, lastIssue, queue := 1, 0, None, None, [];
    }

    method MarkEvidenceGap(issue: Issue)
      requires Valid()
      modifies this`lastIssue, this`evidenceGap
      ensures Valid() && evidenceGap && lastIssue == Some(Worse(old(lastIssue), issue))
      ensures lastIssue.value in {issue} + (if old(lastIssue).Some? then {old(lastIssue).value} else {})
      ensures HealthCode(lastIssue.value.severity) >= HealthCode(issue.severity)
      ensures old(lastIssue).Some? ==> HealthCode(lastIssue.value.severity) >= HealthCode(old(lastIssue).value.severity)
    {
      if lastIssue.None? || HealthCode(issue.severity) > HealthCode(lastIssue.value.severity) {
        lastIssue := Some(issue);
      }
      evidenceGap := true;
    }

    method TakeEvidenceGap() returns (hasEvidenceGap: bool, code: Option<string>)
      requires Valid()
      modifies this`lastIssue, this`evidenceGap
      ensures Valid() && !evidenceGap && hasEvidenceGap == old(evidenceGap)
      ensures code == if old(evidenceGap) then Some(old(lastIssue).value.code) else None
    {
      hasEvidenceGap := evidenceGap;
      evidenceGap := false;
      code := None;
      if hasEvidenceGap {
        code := Some(lastIssue.value.code);
        lastIssue := None;
      }
    }

    method NextSequence() returns (sequence: nat)
      requires Valid()
      modifies this`nextSequence, this`tickets
      ensures Valid() && sequence == old(nextSequence) && tickets == old(tickets) + 1
      ensures sequence < U64_MAX ==> nextSequence == sequence + 1
      ensures sequence == U64_MAX ==> nextSequence == U64_MAX
    {
      sequence := nextSequence;
      tickets := tickets + 1;
      if nextSequence < U64_MAX {
        nextSequence := nextSequence + 1;
      }
    }

    /** An observation is queued, or counted as dropped under a raised gap, or ignored after the stop. */
    method Emit(ghost s: Source, observation: Observation)
      requires Valid() && Shows(s) && s.todo != [] && s.todo[0] == Send(observation)
      modifies this`queue, this`droppedObservationCount, this`ignoredCallbackCount, this`lastIssue, this`evidenceGap
      ensures Valid() && Shows(Sent(s))
      ensures queue == old(queue) + (if accepting && |old(queue)| < capacity then [observation] else [])
      ensures accepting && |old(queue)| == capacity ==> evidenceGap
      ensures droppedObservationCount == old(droppedObservationCount) + (if accepting && |old(queue)| == capacity then 1 else 0)
      ensures ignoredCallbackCount == old(ignoredCallbackCount) + (if accepting then 0 else 1)
      ensures old(evidenceGap) ==> evidenceGap
    {
      if !accepting {
        ignoredCallbackCount := ignoredCallbackCount + 1;
        return;
      }
      if |queue| < capacity {
        queue := queue + [observation];
      } else {
        droppedObservationCount := droppedObservationCount + 1;
        MarkEvidenceGap(OVERFLOW);
      }
    }

    /** A pending rename half never disappears without a raised gap. */
    method FlushRename(expired: bool)
      requires Valid()
      modifies this`pendingRenameFrom, this`lastIssue, this`evidenceGap
      ensures Valid()
      ensures pendingRenameFrom == if expired then None else old(pendingRenameFrom)
      ensures evidenceGap <==> old(evidenceGap) || (old(pendingRenameFrom).Some? && pendingRenameFrom.None?)
      ensures lastIssue == if expired && old(pendingRenameFrom).Some? then Some(Worse(old(lastIssue), INCOMPLETE_RENAME))
                           else old(lastIssue)
    {
      if pendingRenameFrom.Some? && expired {
        pendingRenameFrom := None;
        MarkEvidenceGap(INCOMPLETE_RENAME);
      }
    }

    /** Takes observations from the front of the queue until it is empty or the batch is full. */
    method Receive(ghost s: Source, ghost expired: bool, maxObservations: nat, head: seq<Observation>)
      returns (observations: seq<Observation>, ghost last: Source)
      requires Valid() && |head| <= maxObservations && Shows(s)
      requires s.drain.Receiving? && s.drain.tally.limit == maxObservations && s.drain.batch == head
      modifies this`queue
      ensures Valid() && |head| <= |observations| <= maxObservations
      ensures observations[..|head|] == head && old(queue) == observations[|head|..] + queue
      ensures queue == [] || |observations| == maxObservations
      ensures Shows(last) && last.drain == s.drain.(batch := observations) && LeadsTo(s, last, expired)
    {
      hide LeadsTo;
      AlreadyThere(s, expired);
      observations := head;
      last := s;
      ghost var taken: seq<Observation> := [];
      while |observations| < maxObservations && queue != []
        invariant Valid() && observations == head + taken && |observations| <= maxObservations
        invariant old(queue) == taken + queue
        invariant Shows(last) && last.drain == s.drain.(batch := observations) && LeadsTo(s, last, expired)
        decreases |queue|
      {
        ghost var later := ReceiveStep(last, expired);
        Onward(s, last, later, expired);
        last := later;
        TakeOne(old(queue), taken, queue);
        assert (head + taken) + [queue[0]] == head + (taken + [queue[0]]);
        taken := taken + [queue[0]];
        observations := observations + [queue[0]];
        queue := queue[1..];
      }
    }

    /**
     * A drain that nothing disturbs: the machine's steps in a row. The gap report comes first if one
     * is due, then the oldest queued observations up to the limit, and both counters are back at zero.
     */
    method Drain(ghost s: Source, maxObservations: nat, expired: bool) returns (batch: Option<Batch>)
      requires Valid() && Shows(s) && s.drain.Idle?
      modifies this
      ensures Valid()
      ensures var after := Drained(Apply(s, BeginDrain(maxObservations)), expired);
              && Shows(after) && after.drain.Idle?
              && after.reports == s.reports + (if batch.Some? then [batch.value] else [])
      ensures batch.None? <==> maxObservations == 0 || maxObservations > MAX_INGRESS_CAPACITY
      ensures batch.Some? ==>
                && !evidenceGap && droppedObservationCount == ignoredCallbackCount == 0
                && batch.value.dropped == old(droppedObservationCount) && batch.value.ignored == old(ignoredCallbackCount)
                && (batch.value.code.Some? <==> old(evidenceGap) || (expired && old(pendingRenameFrom).Some?))
                && pendingRenameFrom == (if expired then None else old(pendingRenameFrom))
      ensures batch.Some? ==>
                var reported := if batch.value.code.Some? then 1 else 0;
                && reported <= |batch.value.observations| <= maxObservations
                && (batch.value.code.Some? ==> batch.value.observations[0].draft.kind == EvidenceGap)
                && old(queue) == batch.value.observations[reported..] + queue
                && (queue == [] || |batch.value.observations| == maxObservations)
    {
      if maxObservations == 0 || maxObservations > MAX_INGRESS_CAPACITY {
        return None;
      }
      var head, dropped, ignored, code;
      ghost var now;
      head, dropped, ignored, code, now := Prepare(s, maxObservations, expired);
      ghost var last;
      var observations;
      observations, last := Receive(now, expired, maxObservations, head);
      assert head != [] ==> observations[0] == observations[..|head|][0] == head[0];
      batch := Some(Batch(observations, dropped, ignored, code));
      DrainEnds(last, expired);
    }

    /** Everything before the channel is read. */
    method Prepare(ghost s: Source, maxObservations: nat, expired: bool)
      returns (head: seq<Observation>, dropped: nat, ignored: nat, code: Option<string>, ghost now: Source)
      requires Valid() && Shows(s) && s.drain.Idle? && 1 <= maxObservations <= MAX_INGRESS_CAPACITY
      modifies this
      ensures Valid() && Shows(now) && LeadsTo(Apply(s, BeginDrain(maxObservations)), now, expired) && queue == old(queue)
      ensures now.drain == Receiving(Tally(maxObservations, dropped, ignored), code, head)
      ensures !evidenceGap && droppedObservationCount == ignoredCallbackCount == 0
      ensures dropped == old(droppedObservationCount) && ignored == old(ignoredCallbackCount)
      ensures code.Some? <==> old(evidenceGap) || (expired && old(pendingRenameFrom).Some?)
      ensures pendingRenameFrom == if expired then None else old(pendingRenameFrom)
      ensures |head| == (if code.Some? then 1 else 0) && (head != [] ==> head[0].draft.kind == EvidenceGap)
    {
      hide Apply, LeadsTo, SharedOf;
      ghost var begun := Apply(s, BeginDrain(maxObservations));
      ghost var flushed;
      dropped, ignored, flushed := Count(s, maxObservations, expired);
      head, code, now := Report(flushed, expired);
      Onward(begun, flushed, now, expired);
    }

    /** Both counters are handed over and an expired rename half is given up. */
    method Count(ghost s: Source, maxObservations: nat, expired: bool)
      returns (dropped: nat, ignored: nat, ghost now: Source)
      requires Valid() && Shows(s) && s.drain.Idle? && 1 <= maxObservations <= MAX_INGRESS_CAPACITY
      modifies this`droppedObservationCount, this`ignoredCallbackCount, this`pendingRenameFrom, this`lastIssue, this`evidenceGap
      ensures Valid() && Shows(now) && LeadsTo(Apply(s, BeginDrain(maxObservations)), now, expired)
      ensures now.drain == Flushed(Tally(maxObservations, dropped, ignored))
      ensures droppedObservationCount == ignoredCallbackCount == 0
      ensures dropped == old(droppedObservationCount) && ignored == old(ignoredCallbackCount)
      ensures evidenceGap <==> old(evidenceGap) || (expired && old(pendingRenameFrom).Some?)
      ensures pendingRenameFrom == if expired then None else old(pendingRenameFrom)
    {
      ghost var begun := Apply(s, BeginDrain(maxObservations));
      assert SharedOf(begun) == SharedOf(s).(dropped := 0) && begun.drain == Counting(Tally(maxObservations, s.dropped, 0));
      hide Apply, LeadsTo;
      dropped := droppedObservationCount;
      droppedObservationCount := 0;
      ignored := ignoredCallbackCount;
      ignoredCallbackCount := 0;
      ghost var counted := CountStep(begun, expired);
      FlushRename(expired);
      now := FlushSteps(counted, expired);
      Onward(begun, counted, now, expired);
    }

    /** The flag is taken, and reported if it was up. */
    method Report(ghost s: Source, ghost expired: bool)
      returns (head: seq<Observation>, code: Option<string>, ghost now: Source)
      requires Valid() && Shows(s) && s.drain.Flushed?
      modifies this`lastIssue, this`evidenceGap, this`nextSequence, this`tickets
      ensures Valid() && Shows(now) && LeadsTo(s, now, expired) && !evidenceGap
      ensures now.drain == Receiving(s.drain.tally, code, head)
      ensures code.Some? <==> old(evidenceGap)
      ensures |head| == (if code.Some? then 1 else 0) && (head != [] ==> head[0].draft.kind == EvidenceGap)
    {
      hide LeadsTo;
      now := TakeStep(s, expired);
      var hasEvidenceGap;
      hasEvidenceGap, code := TakeEvidenceGap();
      head := [];
      if hasEvidenceGap {
        var ticket := tickets;
        var sequence := NextSequence();
        head := [Observation(sequence, ticket, Draft(EvidenceGap, RootScope, "", None, {}))];
        ghost var next := ReportStep(now, expired);
        Onward(s, now, next, expired);
        now := next;
      }
    }
  }

  lemma TakeOne(all: seq<Observation>, taken: seq<Observation>, queue: seq<Observation>)
    requires all == taken + queue && queue != []
    ensures all == (taken + [queue[0]]) + queue[1..]
  {
  }

  lemma AlreadyThere(s: Source, expired: bool)
    ensures LeadsTo(s, s, expired)
  {
  }

  lemma Onward(s: Source, now: Source, next: Source, expired: bool)
    requires LeadsTo(s, now, expired) && LeadsTo(now, next, expired)
    ensures LeadsTo(s, next, expired)
  {
  }
}
