/** Nothing is lost silently: what every interleaving of callbacks, drains and a stop keeps. */
module ChangeSourceProofs {
  import opened Options
  import opened ChangeSource

  // ---------------------------------------------------------------- where a path can be

  function OpTokens(op: Op): set<Token> {
    match op
    case Flush => {}
    case Mark(_, covers) => covers
    case Hold(held) => {held.token}
    case Pair(held) => {held.token}
    case Number(draft) => draft.sources
    case Send(observation) => observation.draft.sources
  }

  function TodoTokens(todo: seq<Op>): set<Token> {
    if todo == [] then {} else OpTokens(todo[0]) + TodoTokens(todo[1..])
  }

  function ObservedTokens(observations: seq<Observation>): set<Token> {
    if observations == [] then {}
    else ObservedTokens(observations[..|observations| - 1]) + observations[|observations| - 1].draft.sources
  }

  function PendingTokens(s: Source): set<Token> {
    if s.pending.Some? then {s.pending.value.token} else {}
  }

  function DrainTokens(s: Source): set<Token> {
    if s.drain.Expiring? then {s.drain.token} else {}
  }

  /** Paths in an observation, in the pending rename half, or still in the hands of a thread. */
  function InFlight(s: Source): set<Token> {
    TodoTokens(s.todo) + ObservedTokens(s.enqueued) + PendingTokens(s) + DrainTokens(s) + s.discarded
  }

  /** An evidence gap was raised at or after the notice, and is flagged or has been drained. */
  predicate GapCovers(s: Source, token: Token) {
    (s.gap && token.notice < s.gapAt) || token.notice < s.coveredBefore
  }

  /** Every path of every accepted notice is in flight or covered by a gap. */
  ghost predicate NothingLost(s: Source) {
    && (forall token | token in s.obligations :: token in InFlight(s) || GapCovers(s, token))
    && (forall token | token in InFlight(s) + s.obligations :: token.notice < s.handled)
    && s.coveredBefore <= s.gapAt <= s.handled
    && (s.accepting ==> s.discarded == {})
  }

  /** A rename half is only remembered when no other half is. */
  ghost predicate HoldsSafely(s: Source) {
    forall i | 0 <= i < |s.todo| && s.todo[i].Hold? ::
      i == |s.todo| - 1 && (s.pending.None? || exists j :: 0 <= j < i && s.todo[j].Flush?)
  }

  lemma TodoSplit(ops: seq<Op>, rest: seq<Op>)
    ensures TodoTokens(ops + rest) == TodoTokens(ops) + TodoTokens(rest)
  {
    if ops == [] {
      assert ops + rest == rest;
    } else {
      TodoSplit(ops[1..], rest);
      assert (ops + rest)[1..] == ops[1..] + rest;
    }
  }

  lemma OneOp(op: Op, rest: seq<Op>)
    ensures TodoTokens([op] + rest) == OpTokens(op) + TodoTokens(rest)
  {
    assert ([op] + rest)[1..] == rest;
  }

  lemma OneObservation(observations: seq<Observation>, last: Observation)
    ensures ObservedTokens(observations + [last]) == ObservedTokens(observations) + last.draft.sources
  {
    assert (observations + [last])[..|observations|] == observations;
  }

  // ---------------------------------------------------------------- a notice owes its paths

  lemma {:induction false} EmitEachTokens(kind: EventKind, paths: seq<Path>, notice: nat, from: nat)
    ensures TodoTokens(EmitEach(kind, paths, notice, from)) == TokensFrom(notice, from, |paths|)
  {
    if paths == [] {
      assert TokensFrom(notice, from, 0) == {};
    } else {
      EmitEachTokens(kind, paths[1..], notice, from + 1);
      var (what, scope) := KindOf(kind, paths[0]);
      OneOp(EmitOne(paths[0], Token(notice, from), what, scope), EmitEach(kind, paths[1..], notice, from + 1));
      assert TokensFrom(notice, from, |paths|) == {Token(notice, from)} + TokensFrom(notice, from + 1, |paths| - 1);
    }
  }

  lemma {:induction false} EmitEachPlain(kind: EventKind, paths: seq<Path>, notice: nat, from: nat)
    ensures forall i | 0 <= i < |EmitEach(kind, paths, notice, from)| ::
              EmitEach(kind, paths, notice, from)[i].Mark? || EmitEach(kind, paths, notice, from)[i].Number?
  {
    if paths != [] {
      EmitEachPlain(kind, paths[1..], notice, from + 1);
    }
  }

  lemma EmitAllTokens(kind: EventKind, paths: seq<Path>, notice: nat)
    ensures TodoTokens(EmitAll(kind, paths, notice)) == TokensFrom(notice, 0, |paths|)
    ensures forall i | 0 <= i < |EmitAll(kind, paths, notice)| ::
              EmitAll(kind, paths, notice)[i].Mark? || EmitAll(kind, paths, notice)[i].Number?
  {
    EmitEachTokens(kind, paths, notice, 0);
    EmitEachPlain(kind, paths, notice, 0);
    assert TokensFrom(notice, 0, 0) == {};
  }

  lemma TwoOps(first: Op, second: Op)
    ensures TodoTokens([first, second]) == OpTokens(first) + OpTokens(second)
  {
    assert [first, second] == [first] + [second] && [second] == [second] + [];
    OneOp(first, [second]);
    OneOp(second, []);
  }

  lemma FlushFirst(ops: seq<Op>)
    ensures TodoTokens([Flush] + ops) == TodoTokens(ops)
  {
    OneOp(Flush, ops);
  }

  lemma FlushAndMark(issue: Issue, covers: set<Token>)
    ensures TodoTokens([Flush, Mark(issue, covers)]) == covers
  {
    TwoOps(Flush, Mark(issue, covers));
  }

  lemma RenamesOwe(paths: seq<Path>, mode: RenameMode, number: nat)
    requires !mode.Unspecified?
    ensures TodoTokens(Program(Event(Rename(mode), paths, false), number)) == TokensFrom(number, 0, |paths|)
  {
    var all := TokensFrom(number, 0, |paths|);
    FlushAndMark(INCOMPLETE_RENAME, all);
    FlushAndMark(INCOMPLETE_EVENT, all);
    if |paths| == 1 {
      var held := Held(paths[0], Token(number, 0));
      TwoOps(Flush, Hold(held));
      OneOp(Pair(held), []);
      assert [Pair(held)] + [] == [Pair(held)];
      assert all == {Token(number, 0)};
    }
    if |paths| == 2 {
      TwoOps(Flush, EmitRename(Held(paths[0], Token(number, 0)), Held(paths[1], Token(number, 1))));
      assert all == {Token(number, 0), Token(number, 1)};
    }
  }

  /** The operations of a program name exactly the paths that its notice owes. */
  lemma ProgramOwes(notice: Notice, number: nat)
    ensures Owed(notice, number) <= TodoTokens(Program(notice, number))
    ensures forall token | token in TodoTokens(Program(notice, number)) :: token.notice == number
  {
    match notice
    case WatchError(code) => FlushAndMark(Issue(Failed, code), {});
    case Event(kind, paths, rescan) =>
      var all := TokensFrom(number, 0, |paths|);
      if kind.Rename? && !kind.mode.Unspecified? && !rescan {
        RenamesOwe(paths, kind.mode, number);
      } else {
        FlushAndMark(RESCAN, all);
        FlushAndMark(ROOT_REMOVED, all);
        FlushAndMark(INCOMPLETE_RENAME, {});
        EmitAllTokens(kind, paths, number);
        FlushFirst(EmitAll(kind, paths, number));
        FlushFirst([]);
        assert [Flush] + [] == [Flush];
        TodoSplit([Flush, Mark(INCOMPLETE_RENAME, {})], EmitAll(kind, paths, number));
        hide TodoTokens, EmitAll;
      }
  }

  lemma ProgramHolds(notice: Notice, number: nat)
    ensures forall i | 0 <= i < |Program(notice, number)| ::
              && !Program(notice, number)[i].Send?
              && (Program(notice, number)[i].Hold? ==> i == 1 == |Program(notice, number)| - 1 && Program(notice, number)[0].Flush?)
  {
    if notice.Event? {
      EmitAllTokens(notice.kind, notice.paths, number);
    }
  }

  // ---------------------------------------------------------------- each step loses nothing

  /** Tokens leave flight only for a mark, and what a gap covered stays covered. */
  lemma StepKeeps(s: Source, after: Source, gone: set<Token>)
    requires NothingLost(s)
    requires after.obligations == s.obligations && after.handled == s.handled
    requires InFlight(s) == InFlight(after) + gone
    requires gone != {} ==> after.gap && after.gapAt == s.handled
    requires s.gap ==> (after.gap && s.gapAt <= after.gapAt) || s.gapAt <= after.coveredBefore
    requires s.coveredBefore <= after.coveredBefore <= after.gapAt <= after.handled
    requires after.accepting ==> after.discarded == {}
    ensures NothingLost(after)
  {
    hide InFlight;
    assert forall token | token in gone :: token in InFlight(s);
  }

  /** Which part of the state an operation leaves as it was. */
  predicate Aside(s: Source, after: Source) {
    && after.obligations == s.obligations && after.handled == s.handled && after.coveredBefore == s.coveredBefore
    && after.drain == s.drain && after.accepting == s.accepting && after.received == s.received
  }

  predicate SameFlag(s: Source, after: Source) {
    after.gap == s.gap && after.gapAt == s.gapAt
  }

  predicate SameFate(s: Source, after: Source) {
    after.enqueued == s.enqueued && after.discarded == s.discarded
  }

  lemma SendAside(s: Source, observation: Observation)
    requires s.todo != []
    ensures Aside(s, SendOne(s, observation)) && SameFlag(s, SendOne(s, observation))
    ensures s.accepting ==> SendOne(s, observation).discarded == s.discarded
  {
  }

  lemma NumberAside(s: Source, draft: Draft)
    requires s.todo != []
    ensures Aside(s, NumberDraft(s, draft)) && SameFlag(s, NumberDraft(s, draft)) && SameFate(s, NumberDraft(s, draft))
  {
  }

  lemma FlushAside(s: Source)
    requires s.todo != []
    ensures Aside(s, FlushHalf(s)) && SameFlag(s, FlushHalf(s)) && SameFate(s, FlushHalf(s))
  {
  }

  lemma PairAside(s: Source, current: Held, expired: bool)
    requires s.todo != []
    ensures Aside(s, PairHalf(s, current, expired)) && SameFlag(s, PairHalf(s, current, expired))
    ensures SameFate(s, PairHalf(s, current, expired))
  {
    hide PairOps;
  }

  /** What an operation of the callback leaves alone. */
  lemma PerformFrame(s: Source, expired: bool)
    requires s.todo != []
    ensures var after := Perform(s, expired);
            && Aside(s, after)
            && (!s.todo[0].Mark? ==> SameFlag(s, after))
            && (s.todo[0].Mark? ==> after.gap && after.gapAt == s.handled)
            && (!s.todo[0].Send? ==> SameFate(s, after))
            && (s.accepting ==> after.discarded == s.discarded)
  {
    hide SendOne, NumberDraft, FlushHalf, PairHalf;
    match s.todo[0]
    case Flush => FlushAside(s);
    case Pair(current) => PairAside(s, current, expired);
    case Number(draft) => NumberAside(s, draft);
    case Send(observation) => SendAside(s, observation);
    case _ =>
  }

  lemma PairTokens(s: Source, current: Held, expired: bool)
    ensures TodoTokens(PairOps(s, current, expired)) == {current.token} + PendingTokens(s)
  {
    var created := EmitOne(current.path, current.token, Created, PathScope);
    assert OpTokens(created) == {current.token};
    TwoOps(Mark(INCOMPLETE_RENAME, PendingTokens(s)), created);
    if s.pending.Some? {
      var renamed := EmitRename(s.pending.value, current);
      assert OpTokens(renamed) == {s.pending.value.token, current.token};
      OneOp(renamed, []);
      assert [renamed] + [] == [renamed];
      NoTokens();
    }
    hide TodoTokens, EmitOne, EmitRename;
  }

  lemma PairInFlight(s: Source, current: Held, expired: bool)
    requires s.todo != [] && s.todo[0] == Pair(current)
    ensures InFlight(PairHalf(s, current, expired)) == InFlight(s)
  {
    var rest := s.todo[1..];
    assert s.todo == [Pair(current)] + rest;
    OneOp(Pair(current), rest);
    PairTokens(s, current, expired);
    TodoSplit(PairOps(s, current, expired), rest);
    hide TodoTokens, ObservedTokens, PairOps;
  }

  lemma SendInFlight(s: Source, observation: Observation)
    requires s.todo != [] && s.todo[0] == Send(observation)
    ensures InFlight(SendOne(s, observation)) == InFlight(s)
  {
    var rest := s.todo[1..];
    assert s.todo == [Send(observation)] + rest;
    OneOp(Send(observation), rest);
    if !s.accepting {
    } else if |s.queue| < s.capacity {
      OneObservation(s.enqueued, observation);
    } else {
      OneOp(Mark(OVERFLOW, observation.draft.sources), rest);
    }
    hide TodoTokens, ObservedTokens;
  }

  lemma NumberInFlight(s: Source, draft: Draft)
    requires s.todo != [] && s.todo[0] == Number(draft)
    ensures InFlight(NumberDraft(s, draft)) == InFlight(s)
  {
    var rest := s.todo[1..];
    assert s.todo == [Number(draft)] + rest;
    OneOp(Number(draft), rest);
    OneOp(Send(Observation(s.nextSequence, s.tickets, draft)), rest);
    hide TodoTokens, ObservedTokens;
  }

  lemma FlushInFlight(s: Source)
    requires s.todo != [] && s.todo[0].Flush?
    ensures InFlight(FlushHalf(s)) == InFlight(s)
  {
    var rest := s.todo[1..];
    assert s.todo == [Flush] + rest;
    OneOp(Flush, rest);
    if s.pending.Some? {
      OneOp(Mark(INCOMPLETE_RENAME, {s.pending.value.token}), rest);
    }
    hide TodoTokens, ObservedTokens;
  }

  lemma OtherInFlight(s: Source, expired: bool)
    requires s.todo != [] && (s.todo[0].Mark? || s.todo[0].Hold?) && HoldsSafely(s)
    ensures InFlight(s) == InFlight(Perform(s, expired)) + (if s.todo[0].Mark? then s.todo[0].covers else {})
  {
    var op, rest := s.todo[0], s.todo[1..];
    assert s.todo == [op] + rest;
    OneOp(op, rest);
    assert op.Hold? ==> s.pending.None?;
    hide TodoTokens, ObservedTokens;
  }

  lemma PerformInFlight(s: Source, expired: bool)
    requires s.todo != [] && HoldsSafely(s)
    ensures InFlight(s) == InFlight(Perform(s, expired)) + (if s.todo[0].Mark? then s.todo[0].covers else {})
  {
    hide SendOne, NumberDraft, FlushHalf, PairHalf, InFlight;
    match s.todo[0]
    case Flush => FlushInFlight(s);
    case Pair(current) => PairInFlight(s, current, expired);
    case Number(draft) => NumberInFlight(s, draft);
    case Send(observation) => SendInFlight(s, observation);
    case _ => OtherInFlight(s, expired);
  }

  lemma PerformKeeps(s: Source, expired: bool)
    requires s.todo != [] && NothingLost(s) && HoldsSafely(s)
    ensures NothingLost(Perform(s, expired))
  {
    PerformInFlight(s, expired);
    PerformFrame(s, expired);
    hide InFlight, Perform;
    StepKeeps(s, Perform(s, expired), if s.todo[0].Mark? then s.todo[0].covers else {});
  }

  /** A drain touches neither the callback's work nor the record of what was queued. */
  predicate DrainAside(s: Source, after: Source) {
    && after.todo == s.todo && after.enqueued == s.enqueued && after.discarded == s.discarded
    && after.obligations == s.obligations && after.handled == s.handled && after.accepting == s.accepting
  }

  lemma GiveUpAside(s: Source, tally: Tally, expired: bool)
    ensures DrainAside(s, GiveUpHalf(s, tally, expired)) && SameFlag(s, GiveUpHalf(s, tally, expired))
    ensures GiveUpHalf(s, tally, expired).coveredBefore == s.coveredBefore
  {
  }

  lemma TakeAside(s: Source, tally: Tally)
    ensures DrainAside(s, TakeGap(s, tally)) && TakeGap(s, tally).gapAt == s.gapAt && TakeGap(s, tally).pending == s.pending
    ensures TakeGap(s, tally).coveredBefore == (if s.gap then s.gapAt else s.coveredBefore) && !TakeGap(s, tally).gap
    ensures !TakeGap(s, tally).drain.Expiring?
  {
  }

  lemma ReportAside(s: Source, tally: Tally, code: Option<string>)
    ensures DrainAside(s, ReportGap(s, tally, code)) && SameFlag(s, ReportGap(s, tally, code))
    ensures ReportGap(s, tally, code).coveredBefore == s.coveredBefore && ReportGap(s, tally, code).pending == s.pending
    ensures !ReportGap(s, tally, code).drain.Expiring?
  {
  }

  lemma ReceiveAside(s: Source, tally: Tally, code: Option<string>, batch: seq<Observation>)
    ensures var after := ReceiveOne(s, tally, code, batch);
            && DrainAside(s, after) && SameFlag(s, after) && after.coveredBefore == s.coveredBefore && after.pending == s.pending
            && !after.drain.Expiring?
  {
  }

  /** What a step of a drain leaves alone, and what it does to the flag. */
  lemma ContinuedFrame(s: Source, expired: bool)
    ensures var after := Continued(s, expired);
            && DrainAside(s, after)
            && (s.drain.Expiring? ==> after.gap && after.gapAt == s.handled && after.coveredBefore == s.coveredBefore)
            && (s.drain.Flushed? ==> !after.gap && after.gapAt == s.gapAt
                                     && after.coveredBefore == if s.gap then s.gapAt else s.coveredBefore)
            && (!s.drain.Expiring? && !s.drain.Flushed? ==> SameFlag(s, after) && after.coveredBefore == s.coveredBefore)
  {
    hide GiveUpHalf, TakeGap, ReportGap, ReceiveOne;
    match s.drain
    case Counted(tally) => GiveUpAside(s, tally, expired);
    case Flushed(tally) => TakeAside(s, tally);
    case Taken(tally, code) => ReportAside(s, tally, code);
    case Receiving(tally, code, batch) => ReceiveAside(s, tally, code, batch);
    case _ =>
  }

  /** The pending half stays, or the drain takes it over. */
  lemma ContinuedHolds(s: Source, expired: bool)
    ensures var after := Continued(s, expired);
            || (after.pending == s.pending && !after.drain.Expiring?)
            || (after.pending.None? && s.pending.Some? && !s.drain.Expiring? && after.drain.Expiring?
                && after.drain.token == s.pending.value.token)
  {
    hide TakeGap, ReportGap, ReceiveOne;
    match s.drain
    case Flushed(tally) => TakeAside(s, tally);
    case Taken(tally, code) => ReportAside(s, tally, code);
    case Receiving(tally, code, batch) => ReceiveAside(s, tally, code, batch);
    case _ =>
  }

  lemma ContinuedInFlight(s: Source, expired: bool)
    ensures InFlight(s) == InFlight(Continued(s, expired)) + (DrainTokens(s) - DrainTokens(Continued(s, expired)))
  {
    ContinuedFrame(s, expired);
    ContinuedHolds(s, expired);
    hide Continued, TodoTokens, ObservedTokens;
  }

  lemma ContinuedKeeps(s: Source, expired: bool)
    requires NothingLost(s)
    ensures NothingLost(Continued(s, expired))
  {
    var after := Continued(s, expired);
    ContinuedInFlight(s, expired);
    ContinuedFrame(s, expired);
    hide InFlight, Continued;
    StepKeeps(s, after, DrainTokens(s) - DrainTokens(after));
  }

  lemma NotifyKeeps(s: Source, notice: Notice)
    requires NothingLost(s) && s.todo == [] && s.accepting
    ensures NothingLost(Apply(s, Notify(notice)))
  {
    ProgramOwes(notice, s.handled);
    var after := Apply(s, Notify(notice));
    hide TodoTokens, Program, ObservedTokens;
    assert TodoTokens([]) == {} by {
      NoTokens();
    }
    assert InFlight(after) == InFlight(s) + TodoTokens(after.todo);
  }

  lemma NoTokens()
    ensures TodoTokens([]) == {}
  {
  }

  lemma BeginKeeps(s: Source, limit: nat)
    requires NothingLost(s)
    ensures NothingLost(Apply(s, BeginDrain(limit)))
  {
    hide TodoTokens, ObservedTokens;
    assert InFlight(s) == InFlight(Apply(s, BeginDrain(limit))) + {};
    StepKeeps(s, Apply(s, BeginDrain(limit)), {});
  }

  lemma StopKeeps(s: Source)
    requires NothingLost(s)
    ensures NothingLost(Apply(s, Stop))
  {
    hide TodoTokens, ObservedTokens;
    assert InFlight(s) == InFlight(Apply(s, Stop)) + {};
    StepKeeps(s, Apply(s, Stop), {});
  }

  lemma IgnoredKeeps(s: Source, notice: Notice)
    requires NothingLost(s) && s.todo == [] && !s.accepting
    ensures NothingLost(Apply(s, Notify(notice)))
  {
    hide TodoTokens, ObservedTokens;
    assert InFlight(s) == InFlight(Apply(s, Notify(notice))) + {};
    StepKeeps(s, Apply(s, Notify(notice)), {});
  }

  lemma ApplyKeeps(s: Source, step: Step)
    requires NothingLost(s) && HoldsSafely(s)
    ensures NothingLost(Apply(s, step))
  {
    hide NothingLost, HoldsSafely, Perform, Continued, Program, Owed;
    match step
    case Notify(notice) =>
      if s.todo == [] {
        if s.accepting {
          NotifyKeeps(s, notice);
        } else {
          IgnoredKeeps(s, notice);
        }
      }
    case Callback(expired) =>
      if s.todo != [] {
        PerformKeeps(s, expired);
      }
    case BeginDrain(limit) => BeginKeeps(s, limit);
    case Continue(expired) => ContinuedKeeps(s, expired);
    case Stop => StopKeeps(s);
  }
}
