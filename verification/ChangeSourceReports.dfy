/** What one notice comes to when its callback runs to the end: what is sent, held and marked. */
module ChangeSourceReports {
  import opened Options
  import opened ChangeSource
  import opened ChangeSourceProofs
  import opened ChangeSourceRuns
  import opened ChangeSourceContents

  // ---------------------------------------------------------------- running a callback

  /** A notice and so many turns of the callback, undisturbed by a drain or a stop. */
  function Handling(notice: Notice, expired: bool, turns: nat): seq<Step> {
    [Notify(notice)] + seq(turns, i => Callback(expired))
  }

  function Turned(s: Source, expired: bool, turns: nat): Source
    decreases turns
  {
    if turns == 0 then s else Turned(Apply(s, Callback(expired)), expired, turns - 1)
  }

  lemma {:induction false} TurnedLast(s: Source, expired: bool, turns: nat)
    ensures Turned(s, expired, turns + 1) == Apply(Turned(s, expired, turns), Callback(expired))
    decreases turns
  {
    hide Apply;
    if turns > 0 {
      TurnedLast(Apply(s, Callback(expired)), expired, turns - 1);
    }
  }

  lemma {:induction false} HandlingTurns(s: Source, notice: Notice, expired: bool, turns: nat)
    ensures Exec(s, Handling(notice, expired, turns)) == Turned(Apply(s, Notify(notice)), expired, turns)
    decreases turns
  {
    hide Apply;
    var steps := Handling(notice, expired, turns);
    if turns == 0 {
      assert steps == [Notify(notice)] && steps[..0] == [];
    } else {
      assert steps[..|steps| - 1] == Handling(notice, expired, turns - 1);
      HandlingTurns(s, notice, expired, turns - 1);
      TurnedLast(Apply(s, Notify(notice)), expired, turns - 1);
    }
  }

  /** Nothing is left for the callback to do. */
  lemma {:induction false} TurnedRests(s: Source, expired: bool, turns: nat)
    requires s.todo == []
    ensures Turned(s, expired, turns) == s
    decreases turns
  {
    if turns > 0 {
      TurnedRests(s, expired, turns - 1);
    }
  }

  // ---------------------------------------------------------------- sending and marking

  predicate Simple(op: Op) {
    op.Number? || op.Mark?
  }

  function DraftsOf(ops: seq<Op>): seq<Draft> {
    if ops == [] then [] else (if ops[0].Number? then [ops[0].draft] else []) + DraftsOf(ops[1..])
  }

  function MarksOf(ops: seq<Op>): seq<Issue> {
    if ops == [] then [] else (if ops[0].Mark? then [ops[0].issue] else []) + MarksOf(ops[1..])
  }

  /** The issue on record after further ones: the first of the most severe. */
  function Recorded(current: Option<Issue>, marks: seq<Issue>): Option<Issue>
    decreases |marks|
  {
    if marks == [] then current
    else if current.None? || (current.value.severity.Degraded? && marks[0].severity.Failed?) then
      Recorded(Some(marks[0]), marks[1..])
    else Recorded(current, marks[1..])
  }

  lemma {:induction false} RecordedThen(current: Option<Issue>, marks: seq<Issue>, more: seq<Issue>)
    ensures Recorded(current, marks + more) == Recorded(Recorded(current, marks), more)
    decreases |marks|
  {
    if marks == [] {
      assert marks + more == more;
    } else {
      assert (marks + more)[1..] == marks[1..] + more;
      RecordedThen(Some(marks[0]), marks[1..], more);
      RecordedThen(current, marks[1..], more);
    }
  }

  /** `drafts` were sent in their order and these issues marked; nothing else a caller sees has changed. */
  ghost predicate Comes(s: Source, t: Source, drafts: seq<Draft>, marks: seq<Issue>) {
    && t.accepting == s.accepting && t.capacity == s.capacity && t.drain == s.drain
    && t.dropped == s.dropped && t.ignored == s.ignored && t.handled == s.handled && t.pending == s.pending
    && |t.queue| == |s.queue| + |drafts| && t.queue[..|s.queue|] == s.queue
    && (forall i | 0 <= i < |drafts| :: t.queue[|s.queue| + i].draft == drafts[i])
    && (t.gap <==> s.gap || marks != [])
    && t.lastIssue == Recorded(s.lastIssue, marks)
  }

  lemma NothingComes(s: Source)
    ensures Comes(s, s, [], [])
  {
  }

  lemma SendsOne(s: Source, expired: bool)
    requires s.todo != [] && s.todo[0].Number? && s.accepting && |s.queue| < s.capacity
    ensures var t := Apply(Apply(s, Callback(expired)), Callback(expired));
            Comes(s, t, [s.todo[0].draft], []) && t.todo == s.todo[1..]
  {
    var numbered := Apply(s, Callback(expired));
    assert numbered.todo[1..] == s.todo[1..];
  }

  lemma MarksOne(s: Source, expired: bool)
    requires s.todo != [] && s.todo[0].Mark?
    ensures var t := Apply(s, Callback(expired));
            Comes(s, t, [], [s.todo[0].issue]) && t.todo == s.todo[1..]
  {
    assert [s.todo[0].issue][1..] == [];
  }

  lemma ComesThen(s: Source, m: Source, t: Source, first: seq<Draft>, second: seq<Draft>, marks: seq<Issue>, more: seq<Issue>)
    requires Comes(s, m, first, marks) && Comes(m, t, second, more)
    ensures Comes(s, t, first + second, marks + more)
  {
    RecordedThen(s.lastIssue, marks, more);
    hide Recorded;
    assert t.queue[..|s.queue|] == t.queue[..|m.queue|][..|s.queue|];
    forall i | 0 <= i < |first + second|
      ensures t.queue[|s.queue| + i].draft == (first + second)[i]
    {
      if i < |first| {
        assert t.queue[|s.queue| + i] == t.queue[..|m.queue|][|s.queue| + i];
      } else {
        assert t.queue[|s.queue| + i] == t.queue[|m.queue| + (i - |first|)];
      }
    }
  }

  lemma OpsBegin(op: Op, ops: seq<Op>)
    requires Simple(op)
    ensures DraftsOf([op] + ops) == (if op.Number? then [op.draft] else []) + DraftsOf(ops)
    ensures MarksOf([op] + ops) == (if op.Mark? then [op.issue] else []) + MarksOf(ops)
    ensures op.Number? <==> !op.Mark?
  {
    assert ([op] + ops)[1..] == ops;
  }

  /** Operations that only send and mark: everything is sent while there is room. */
  lemma {:induction false} SimpleRuns(s: Source, expired: bool, turns: nat)
    requires s.accepting && (forall i | 0 <= i < |s.todo| :: Simple(s.todo[i]))
    requires |s.queue| + |DraftsOf(s.todo)| <= s.capacity && turns >= 2 * |s.todo|
    ensures var t := Turned(s, expired, turns);
            t.todo == [] && Comes(s, t, DraftsOf(s.todo), MarksOf(s.todo))
    decreases |s.todo|
  {
    hide Apply, Simple, Recorded;
    if s.todo == [] {
      TurnedRests(s, expired, turns);
      NothingComes(s);
    } else {
      var op, once := s.todo[0], Apply(s, Callback(expired));
      assert s.todo == [op] + s.todo[1..];
      OpsBegin(op, s.todo[1..]);
      if op.Number? {
        SendsOne(s, expired);
        var twice := Apply(once, Callback(expired));
        SimpleRuns(twice, expired, turns - 2);
        hide Comes;
        ComesThen(s, twice, Turned(twice, expired, turns - 2), [op.draft], DraftsOf(twice.todo), [], MarksOf(twice.todo));
      } else {
        MarksOne(s, expired);
        SimpleRuns(once, expired, turns - 1);
        hide Comes;
        ComesThen(s, once, Turned(once, expired, turns - 1), [], DraftsOf(once.todo), [op.issue], MarksOf(once.todo));
      }
    }
  }

  /** A pending half is given up before the rest. */
  lemma FlushedRuns(s: Source, ops: seq<Op>, expired: bool, turns: nat)
    requires s.accepting && s.todo == [Flush] + ops && (forall i | 0 <= i < |ops| :: Simple(ops[i]))
    requires |s.queue| + |DraftsOf(ops)| <= s.capacity && turns >= 2 * |ops| + 3
    ensures var t := Turned(s, expired, turns);
            && t.todo == []
            && Comes(s.(pending := None), t, DraftsOf(ops), (if s.pending.Some? then [INCOMPLETE_RENAME] else []) + MarksOf(ops))
  {
    var flushed := Apply(s, Callback(expired));
    assert s.todo[1..] == ops;
    if s.pending.None? {
      assert flushed == s.(todo := ops);
      assert [] + MarksOf(ops) == MarksOf(ops);
    } else {
      var mark := Mark(INCOMPLETE_RENAME, {s.pending.value.token});
      assert flushed == s.(pending := None, todo := [mark] + ops);
      OpsBegin(mark, ops);
      assert [] + DraftsOf(ops) == DraftsOf(ops);
    }
    assert Alike(flushed, s.(pending := None));
    hide Apply, Comes, Alike;
    SimpleRuns(flushed, expired, turns - 1);
    ComesAlike(flushed, s.(pending := None), Turned(flushed, expired, turns - 1), DraftsOf(flushed.todo), MarksOf(flushed.todo));
  }

  /** The same for a caller. */
  predicate Alike(s: Source, other: Source) {
    && other.accepting == s.accepting && other.capacity == s.capacity && other.drain == s.drain
    && other.dropped == s.dropped && other.ignored == s.ignored && other.handled == s.handled && other.pending == s.pending
    && other.queue == s.queue && other.gap == s.gap && other.lastIssue == s.lastIssue
  }

  /** Only what a caller sees of the first state matters. */
  lemma ComesAlike(s: Source, other: Source, t: Source, drafts: seq<Draft>, marks: seq<Issue>)
    requires Comes(s, t, drafts, marks) && Alike(s, other)
    ensures Comes(other, t, drafts, marks)
  {
    hide Recorded;
  }

  // ---------------------------------------------------------------- what a notice should come to

  predicate Known(path: Path) {
    path.relative.Some?
  }

  /** A notice about the removal of the watched root itself. */
  predicate RootIsGone(notice: Notice) {
    notice.Event? && notice.kind.Remove? && exists i :: 0 <= i < |notice.paths| && notice.paths[i].isRoot
  }

  /** Of such a notice nothing is reported path by path. */
  predicate Unusable(notice: Notice) {
    notice.WatchError? || notice.rescan || RootIsGone(notice)
  }

  function ReportKind(kind: EventKind, path: Path): Kind {
    if kind == Remove(true) then Removed
    else if kind == Rename(To) || (kind == Create(false) && path.directory == Some(false)) then Created
    else if kind == Rename(Unspecified) || (kind.Change? && path.directory == Some(false)) then Modified
    else DirectoryChanged
  }

  function Report(kind: EventKind, path: Path, token: Token): Draft
    requires Known(path)
  {
    Draft(ReportKind(kind, path), if ReportKind(kind, path).DirectoryChanged? then SubtreeScope else PathScope,
          path.relative.value, None, {token})
  }

  /** The known paths, each reported once and in order. */
  function Reported(kind: EventKind, paths: seq<Path>, number: nat, from: nat): seq<Draft> {
    if paths == [] then []
    else
      (if Known(paths[0]) then [Report(kind, paths[0], Token(number, from))] else [])
      + Reported(kind, paths[1..], number, from + 1)
  }

  /** A mark for each path that is not known, or for their absence. */
  function Unreported(paths: seq<Path>): seq<Issue> {
    if paths == [] then [] else (if Known(paths[0]) then [] else [INCOMPLETE_EVENT]) + Unreported(paths[1..])
  }

  function Missing(paths: seq<Path>): seq<Issue> {
    if paths == [] then [INCOMPLETE_EVENT] else Unreported(paths)
  }

  function RenameReport(previous: Path, current: Path, from: Token, to: Token): Draft
    requires Known(previous) && Known(current)
  {
    Draft(Renamed, if current.directory == Some(false) then PathScope else SubtreeScope,
          current.relative.value, previous.relative, {from, to})
  }

  /** The observations that a notice gives rise to, given the half that is pending. */
  function Expected(pending: Option<Held>, notice: Notice, number: nat, expired: bool): seq<Draft> {
    if Unusable(notice) || notice.kind.Access? || notice.kind == Rename(From) then []
    else if notice.kind == Rename(Both) then
      if |notice.paths| == 2 && Known(notice.paths[0]) && Known(notice.paths[1]) then
        [RenameReport(notice.paths[0], notice.paths[1], Token(number, 0), Token(number, 1))]
      else []
    else if notice.kind == Rename(To) && |notice.paths| != 1 then []
    else if notice.kind == Rename(To) && pending.Some? && !expired then
      if Known(pending.value.path) && Known(notice.paths[0]) then
        [RenameReport(pending.value.path, notice.paths[0], pending.value.token, Token(number, 0))]
      else []
    else Reported(notice.kind, notice.paths, number, 0)
  }

  /** The single new name that a pending half is kept for. */
  predicate NewName(notice: Notice) {
    !Unusable(notice) && notice.kind == Rename(To) && |notice.paths| == 1
  }

  /** The issues that a notice marks besides a half that it makes the callback give up. */
  function OwnIssues(pending: Option<Held>, notice: Notice, expired: bool): seq<Issue> {
    if notice.WatchError? then [Issue(Failed, notice.code)]
    else if notice.rescan then [RESCAN]
    else if RootIsGone(notice) then [ROOT_REMOVED]
    else if notice.kind.Access? then []
    else if notice.kind == Rename(From) then if |notice.paths| == 1 then [] else [INCOMPLETE_RENAME]
    else if notice.kind == Rename(Both) then
      if |notice.paths| == 2 && Known(notice.paths[0]) && Known(notice.paths[1]) then [] else [INCOMPLETE_EVENT]
    else if notice.kind == Rename(To) && |notice.paths| != 1 then [INCOMPLETE_RENAME]
    else if notice.kind == Rename(To) && pending.Some? && !expired then
      if Known(pending.value.path) && Known(notice.paths[0]) then [] else [INCOMPLETE_EVENT]
    else if notice.kind.Rename? then [INCOMPLETE_RENAME] + Missing(notice.paths)
    else Missing(notice.paths)
  }

  function ExpectedIssues(pending: Option<Held>, notice: Notice, expired: bool): seq<Issue> {
    (if pending.Some? && !NewName(notice) then [INCOMPLETE_RENAME] else []) + OwnIssues(pending, notice, expired)
  }

  /** The half that is pending afterwards. */
  function HeldAfter(notice: Notice, number: nat): Option<Held> {
    if !Unusable(notice) && notice.kind == Rename(From) && |notice.paths| == 1 then
      Some(Held(notice.paths[0], Token(number, 0)))
    else None
  }

  lemma {:induction false} EmitEachReports(kind: EventKind, paths: seq<Path>, number: nat, from: nat)
    requires !kind.Access? && (kind.Rename? ==> kind.mode.Unspecified?)
    ensures DraftsOf(EmitEach(kind, paths, number, from)) == Reported(kind, paths, number, from)
    ensures MarksOf(EmitEach(kind, paths, number, from)) == Unreported(paths)
    ensures forall i | 0 <= i < |EmitEach(kind, paths, number, from)| :: Simple(EmitEach(kind, paths, number, from)[i])
    ensures |EmitEach(kind, paths, number, from)| == |paths|
    decreases |paths|
  {
    if paths != [] {
      var (what, scope) := KindOf(kind, paths[0]);
      var first, rest := EmitOne(paths[0], Token(number, from), what, scope), EmitEach(kind, paths[1..], number, from + 1);
      EmitEachReports(kind, paths[1..], number, from + 1);
      assert EmitEach(kind, paths, number, from) == [first] + rest;
      assert Known(paths[0]) ==> first == Number(Report(kind, paths[0], Token(number, from)));
      OpsBegin(first, rest);
      hide DraftsOf, MarksOf, EmitEach, KindOf;
    }
  }

  function PathsOf(notice: Notice): seq<Path> {
    if notice.Event? then notice.paths else []
  }

  lemma EmitAllReports(kind: EventKind, paths: seq<Path>, number: nat)
    requires !kind.Access? && (kind.Rename? ==> kind.mode.Unspecified?)
    ensures var ops := EmitAll(kind, paths, number);
            && (forall i | 0 <= i < |ops| :: Simple(ops[i])) && |ops| <= |paths| + 1 && (paths != [] ==> |ops| == |paths|)
            && DraftsOf(ops) == Reported(kind, paths, number, 0) && MarksOf(ops) == Missing(paths)
  {
    if paths == [] {
      OpsBegin(Mark(INCOMPLETE_EVENT, {}), []);
      assert [Mark(INCOMPLETE_EVENT, {})] + [] == [Mark(INCOMPLETE_EVENT, {})];
    } else {
      EmitEachReports(kind, paths, number, 0);
    }
    hide EmitEach;
  }

  /** A notice whose paths are reported one by one. */
  predicate OneByOne(notice: Notice) {
    !Unusable(notice) && !notice.kind.Access? && (notice.kind.Rename? ==> notice.kind.mode.Unspecified?)
  }

  lemma EachReports(pending: Option<Held>, notice: Notice, number: nat, expired: bool) returns (ops: seq<Op>)
    requires OneByOne(notice)
    ensures Program(notice, number) == [Flush] + ops && |ops| <= |notice.paths| + 2
    ensures forall i | 0 <= i < |ops| :: Simple(ops[i])
    ensures DraftsOf(ops) == Expected(pending, notice, number, expired)
    ensures MarksOf(ops) == OwnIssues(pending, notice, expired)
  {
    EmitAllReports(notice.kind, notice.paths, number);
    var each := EmitAll(notice.kind, notice.paths, number);
    hide DraftsOf, MarksOf, EmitAll, Reported, Missing;
    if notice.kind.Rename? {
      ops := [Mark(INCOMPLETE_RENAME, {})] + each;
      OpsBegin(Mark(INCOMPLETE_RENAME, {}), each);
      assert [Flush, Mark(INCOMPLETE_RENAME, {})] + each == [Flush] + ops;
      assert [] + DraftsOf(each) == DraftsOf(each);
    } else {
      ops := each;
    }
  }

  /** The operations of a notice that neither holds a half nor looks for one, after the flush. */
  lemma ProgramReports(pending: Option<Held>, notice: Notice, number: nat, expired: bool) returns (ops: seq<Op>)
    requires !NewName(notice) && HeldAfter(notice, number).None?
    ensures Program(notice, number) == [Flush] + ops && |ops| <= |PathsOf(notice)| + 2
    ensures forall i | 0 <= i < |ops| :: Simple(ops[i])
    ensures DraftsOf(ops) == Expected(pending, notice, number, expired)
    ensures MarksOf(ops) == OwnIssues(pending, notice, expired)
  {
    if OneByOne(notice) {
      ops := EachReports(pending, notice, number, expired);
    } else {
      ops := OneOrNone(pending, notice, number, expired);
    }
    hide Program, DraftsOf, MarksOf, Expected, OwnIssues;
  }

  lemma OneOrNone(pending: Option<Held>, notice: Notice, number: nat, expired: bool) returns (ops: seq<Op>)
    requires !OneByOne(notice) && !NewName(notice) && HeldAfter(notice, number).None?
    ensures Program(notice, number) == [Flush] + ops && |ops| <= 1
    ensures forall i | 0 <= i < |ops| :: Simple(ops[i])
    ensures DraftsOf(ops) == Expected(pending, notice, number, expired)
    ensures MarksOf(ops) == OwnIssues(pending, notice, expired)
  {
    var program := Program(notice, number);
    ops := program[1..];
    assert program == [Flush] + ops;
    if ops != [] {
      OpsBegin(ops[0], []);
      assert ops == [ops[0]] + [];
    }
    hide DraftsOf, MarksOf;
    NoOps();
  }

  lemma NoOps()
    ensures DraftsOf([]) == [] && MarksOf([]) == []
  {
  }

  /** A notice that neither holds a half nor looks for one. */
  lemma PlainNotice(s: Source, notice: Notice, expired: bool, turns: nat)
    requires s.todo == [] && s.accepting && !NewName(notice) && HeldAfter(notice, s.handled).None?
    requires |s.queue| + |Expected(s.pending, notice, s.handled, expired)| <= s.capacity && turns >= 2 * |PathsOf(notice)| + 7
    ensures var t := Turned(Apply(s, Notify(notice)), expired, turns);
            && t.todo == []
            && Comes(s.(handled := s.handled + 1, pending := None), t, Expected(s.pending, notice, s.handled, expired),
                     ExpectedIssues(s.pending, notice, expired))
  {
    hide Expected, OwnIssues, NewName, Comes, Program, HeldAfter;
    var ops := ProgramReports(s.pending, notice, s.handled, expired);
    var told := Apply(s, Notify(notice));
    assert told == s.(handled := s.handled + 1, obligations := told.obligations, todo := [Flush] + ops);
    assert Alike(told.(pending := None), s.(handled := s.handled + 1, pending := None));
    hide Apply, Alike;
    FlushedRuns(told, ops, expired, turns);
    ComesAlike(told.(pending := None), s.(handled := s.handled + 1, pending := None), Turned(told, expired, turns),
               DraftsOf(ops), ExpectedIssues(s.pending, notice, expired));
  }

  lemma HoldsLast(s: Source, held: Held, expired: bool, turns: nat)
    requires s.todo == [Hold(held)] && turns >= 1
    ensures Turned(s, expired, turns) == s.(todo := [], pending := Some(held))
  {
    var last := Apply(s, Callback(expired));
    assert last == s.(todo := [], pending := Some(held));
    hide Apply;
    TurnedRests(last, expired, turns - 1);
  }

  /** The old name of a rename is held. */
  lemma OldName(s: Source, notice: Notice, expired: bool, turns: nat)
    requires s.todo == [] && s.accepting && HeldAfter(notice, s.handled).Some? && turns >= 3
    ensures var t := Turned(Apply(s, Notify(notice)), expired, turns);
            && t.todo == []
            && Comes(s.(handled := s.handled + 1, pending := HeldAfter(notice, s.handled)), t, [],
                     ExpectedIssues(s.pending, notice, expired))
  {
    var held := HeldAfter(notice, s.handled).value;
    var told := Apply(s, Notify(notice));
    HoldStarts(s, notice, expired);
    hide Apply, HeldAfter, OwnIssues, NewName, Recorded;
    var flushed := Apply(told, Callback(expired));
    if s.pending.Some? {
      assert flushed.todo[1..] == [Hold(held)];
      MarksOne(flushed, expired);
      HoldsLast(Apply(flushed, Callback(expired)), held, expired, turns - 2);
    } else {
      NothingRecorded(s.lastIssue);
      HoldsLast(flushed, held, expired, turns - 1);
    }
  }

  lemma HoldStarts(s: Source, notice: Notice, expired: bool)
    requires s.todo == [] && s.accepting && HeldAfter(notice, s.handled).Some?
    ensures ExpectedIssues(s.pending, notice, expired) == if s.pending.Some? then [INCOMPLETE_RENAME] else []
    ensures var told := Apply(s, Notify(notice));
            var hold := Hold(HeldAfter(notice, s.handled).value);
            && told == s.(handled := s.handled + 1, obligations := told.obligations, todo := told.todo)
            && Apply(told, Callback(expired))
               == told.(pending := None,
                        todo := if s.pending.Some? then [Mark(INCOMPLETE_RENAME, {s.pending.value.token}), hold] else [hold])
  {
    var told, hold := Apply(s, Notify(notice)), Hold(HeldAfter(notice, s.handled).value);
    assert told.todo == [Flush, hold] && told.todo[1..] == [hold];
  }

  /** The notice of a new name. */
  function Arrival(path: Path): Notice {
    Event(Rename(To), [path], false)
  }

  lemma RenameOps(previous: Held, current: Held)
    ensures var ops := [EmitRename(previous, current)];
            && Simple(ops[0])
            && DraftsOf(ops) == (if Known(previous.path) && Known(current.path)
                                 then [RenameReport(previous.path, current.path, previous.token, current.token)] else [])
            && MarksOf(ops) == if Known(previous.path) && Known(current.path) then [] else [INCOMPLETE_EVENT]
  {
    var op := EmitRename(previous, current);
    NoOps();
    OpsBegin(op, []);
    assert [op] + [] == [op];
    hide DraftsOf, MarksOf;
  }

  lemma CreatedOps(covers: set<Token>, path: Path, token: Token)
    ensures var ops := [Mark(INCOMPLETE_RENAME, covers), EmitOne(path, token, Created, PathScope)];
            && Simple(ops[0]) && Simple(ops[1])
            && DraftsOf(ops) == (if Known(path) then [Report(Rename(To), path, token)] else [])
            && MarksOf(ops) == [INCOMPLETE_RENAME] + if Known(path) then [] else [INCOMPLETE_EVENT]
  {
    var mark, op := Mark(INCOMPLETE_RENAME, covers), EmitOne(path, token, Created, PathScope);
    NoOps();
    OpsBegin(op, []);
    OpsBegin(mark, [op]);
    assert [mark] + [op] == [mark, op] && [op] + [] == [op];
    hide DraftsOf, MarksOf;
  }

  lemma ExpectedOfArrival(pending: Option<Held>, path: Path, number: nat, expired: bool)
    ensures NewName(Arrival(path)) && HeldAfter(Arrival(path), number).None?
    ensures pending.Some? && !expired ==>
              && Expected(pending, Arrival(path), number, expired)
                 == (if Known(pending.value.path) && Known(path)
                     then [RenameReport(pending.value.path, path, pending.value.token, Token(number, 0))] else [])
              && ExpectedIssues(pending, Arrival(path), expired)
                 == if Known(pending.value.path) && Known(path) then [] else [INCOMPLETE_EVENT]
    ensures pending.None? || expired ==>
              && Expected(pending, Arrival(path), number, expired)
                 == (if Known(path) then [Report(Rename(To), path, Token(number, 0))] else [])
              && ExpectedIssues(pending, Arrival(path), expired)
                 == [INCOMPLETE_RENAME] + if Known(path) then [] else [INCOMPLETE_EVENT]
  {
    OnlyPath(Rename(To), path, number);
    hide Reported, Missing, Report, RenameReport;
  }

  lemma PairReports(s: Source, path: Path, number: nat, expired: bool)
    ensures var ops := PairOps(s, Held(path, Token(number, 0)), expired);
            && (forall i | 0 <= i < |ops| :: Simple(ops[i])) && |ops| <= 2
            && DraftsOf(ops) == Expected(s.pending, Arrival(path), number, expired)
            && MarksOf(ops) == ExpectedIssues(s.pending, Arrival(path), expired)
  {
    hide Expected, ExpectedIssues, DraftsOf, MarksOf, EmitOne, EmitRename, Simple, Report, RenameReport;
    ExpectedOfArrival(s.pending, path, number, expired);
    if s.pending.Some? && !expired {
      RenameOps(s.pending.value, Held(path, Token(number, 0)));
    } else {
      CreatedOps(if s.pending.None? then {} else {s.pending.value.token}, path, Token(number, 0));
    }
  }

  lemma OnlyPath(kind: EventKind, path: Path, number: nat)
    ensures Reported(kind, [path], number, 0) == if Known(path) then [Report(kind, path, Token(number, 0))] else []
    ensures Missing([path]) == if Known(path) then [] else [INCOMPLETE_EVENT]
  {
    assert [path][1..] == [];
    assert Unreported([]) == [];
  }

  lemma PairStarts(s: Source, path: Path, expired: bool)
    requires s.todo == [] && s.accepting
    ensures var told := Apply(s, Notify(Arrival(path)));
            var paired := Apply(told, Callback(expired));
            && paired.todo == PairOps(s, Held(path, Token(s.handled, 0)), expired)
            && Alike(paired, s.(handled := s.handled + 1, pending := None))
  {
    var current := Held(path, Token(s.handled, 0));
    var told := Apply(s, Notify(Arrival(path)));
    assert told.todo == [Pair(current)];
    assert PairOps(told, current, expired) == PairOps(s, current, expired);
    hide PairOps;
    assert told.todo[1..] == [] && PairOps(told, current, expired) + [] == PairOps(told, current, expired);
  }

  /** The new name of a rename looks for the old one. */
  lemma NewNameComes(s: Source, path: Path, expired: bool, turns: nat)
    requires s.todo == [] && s.accepting
    requires |s.queue| + |Expected(s.pending, Arrival(path), s.handled, expired)| <= s.capacity && turns >= 5
    ensures var t := Turned(Apply(s, Notify(Arrival(path))), expired, turns);
            && t.todo == []
            && Comes(s.(handled := s.handled + 1, pending := None), t, Expected(s.pending, Arrival(path), s.handled, expired),
                     ExpectedIssues(s.pending, Arrival(path), expired))
  {
    hide Apply, PairOps, Expected, ExpectedIssues, Comes, Arrival;
    PairStarts(s, path, expired);
    PairReports(s, path, s.handled, expired);
    var told := Apply(s, Notify(Arrival(path)));
    var paired := Apply(told, Callback(expired));
    assert paired.accepting && paired.queue == s.queue && paired.capacity == s.capacity;
    hide Alike;
    SimpleRuns(paired, expired, turns - 1);
    ComesAlike(paired, s.(handled := s.handled + 1, pending := None), Turned(paired, expired, turns - 1),
               DraftsOf(paired.todo), MarksOf(paired.todo));
  }

  /**
   * Any notice, handled to the end by a source at rest with room for what it gives rise to: exactly
   * the expected observations are sent, exactly the expected issues marked, and the half that is to
   * be kept is held.
   */
  lemma NoticeComesTo(s: Source, notice: Notice, expired: bool, turns: nat)
    requires s.todo == [] && s.accepting && turns >= 2 * |PathsOf(notice)| + 7
    requires |s.queue| + |Expected(s.pending, notice, s.handled, expired)| <= s.capacity
    ensures var t := Exec(s, Handling(notice, expired, turns));
            && t.todo == []
            && Comes(s.(handled := s.handled + 1, pending := HeldAfter(notice, s.handled)), t,
                     Expected(s.pending, notice, s.handled, expired), ExpectedIssues(s.pending, notice, expired))
  {
    HandlingTurns(s, notice, expired, turns);
    hide Exec, Apply, Handling, Comes, OwnIssues;
    if NewName(notice) {
      var path := notice.paths[0];
      assert notice == Arrival(path);
      ExpectedOfArrival(s.pending, path, s.handled, expired);
      NewNameComes(s, path, expired, turns);
    } else if HeldAfter(notice, s.handled).Some? {
      OldName(s, notice, expired, turns);
    } else {
      PlainNotice(s, notice, expired, turns);
    }
  }

  // ---------------------------------------------------------------- in particular

  lemma OneComes(s: Source, t: Source, draft: Draft, marks: seq<Issue>)
    requires Comes(s, t, [draft], marks)
    ensures |t.queue| == |s.queue| + 1 && t.queue[..|s.queue|] == s.queue && t.queue[|s.queue|].draft == draft
  {
    assert t.queue[|s.queue| + 0].draft == [draft][0];
  }

  /** The two halves of a rename, the second within the grace time: one observation, and no gap for it. */
  lemma HalvesBecomeARename(s: Source, path: Path, turns: nat)
    requires s.todo == [] && s.accepting && |s.queue| < s.capacity && turns >= 9
    requires s.pending.Some? && s.pending.value.path.relative.Some? && path.relative.Some?
    ensures var t := Exec(s, Handling(Event(Rename(To), [path], false), false, turns));
            && t.todo == [] && |t.queue| == |s.queue| + 1 && t.queue[..|s.queue|] == s.queue
            && t.queue[|s.queue|].draft.kind == Renamed
            && t.queue[|s.queue|].draft.relative == path.relative.value
            && t.queue[|s.queue|].draft.previous == s.pending.value.path.relative
            && t.queue[|s.queue|].draft.sources == {s.pending.value.token, Token(s.handled, 0)}
            && (t.queue[|s.queue|].draft.scope == PathScope <==> path.directory == Some(false))
            && t.pending.None? && t.gap == s.gap && t.lastIssue == s.lastIssue
  {
    var notice := Event(Rename(To), [path], false);
    var draft := RenameReport(s.pending.value.path, path, s.pending.value.token, Token(s.handled, 0));
    assert Expected(s.pending, notice, s.handled, false) == [draft];
    assert ExpectedIssues(s.pending, notice, false) == [];
    assert HeldAfter(notice, s.handled).None?;
    hide Exec, Handling, Expected, ExpectedIssues, HeldAfter, Recorded;
    NoticeComesTo(s, notice, false, turns);
    OneComes(s.(handled := s.handled + 1, pending := None), Exec(s, Handling(notice, false, turns)), draft, []);
    NothingRecorded(s.lastIssue);
  }

  lemma NothingRecorded(current: Option<Issue>)
    ensures Recorded(current, []) == current
  {
  }

  /** Both names in one notice. */
  lemma BothNamesAreARename(s: Source, previous: Path, current: Path, expired: bool, turns: nat)
    requires s.todo == [] && s.accepting && |s.queue| < s.capacity && turns >= 11
    requires previous.relative.Some? && current.relative.Some?
    ensures var t := Exec(s, Handling(Event(Rename(Both), [previous, current], false), expired, turns));
            && t.todo == [] && |t.queue| == |s.queue| + 1 && t.queue[..|s.queue|] == s.queue
            && t.queue[|s.queue|].draft.kind == Renamed
            && t.queue[|s.queue|].draft.relative == current.relative.value
            && t.queue[|s.queue|].draft.previous == previous.relative
            && (t.queue[|s.queue|].draft.scope == PathScope <==> current.directory == Some(false))
            && t.pending.None? && (s.pending.None? ==> t.gap == s.gap && t.lastIssue == s.lastIssue)
  {
    var notice := Event(Rename(Both), [previous, current], false);
    var draft := RenameReport(previous, current, Token(s.handled, 0), Token(s.handled, 1));
    assert Expected(s.pending, notice, s.handled, expired) == [draft];
    assert ExpectedIssues(s.pending, notice, expired) == if s.pending.Some? then [INCOMPLETE_RENAME] else [];
    assert HeldAfter(notice, s.handled).None?;
    hide Exec, Handling, Expected, ExpectedIssues, HeldAfter, Recorded;
    NoticeComesTo(s, notice, expired, turns);
    OneComes(s.(handled := s.handled + 1, pending := None), Exec(s, Handling(notice, expired, turns)), draft,
             ExpectedIssues(s.pending, notice, expired));
    NothingRecorded(s.lastIssue);
  }

  lemma {:induction false} AllReported(kind: EventKind, paths: seq<Path>, number: nat, from: nat)
    requires forall i | 0 <= i < |paths| :: paths[i].relative.Some?
    ensures |Reported(kind, paths, number, from)| == |paths| && Unreported(paths) == []
    ensures forall i | 0 <= i < |paths| ::
              Reported(kind, paths, number, from)[i] == Report(kind, paths[i], Token(number, from + i))
    decreases |paths|
  {
    hide Report;
    if paths != [] {
      AllReported(kind, paths[1..], number, from + 1);
      var all, rest := Reported(kind, paths, number, from), Reported(kind, paths[1..], number, from + 1);
      assert all == [Report(kind, paths[0], Token(number, from))] + rest;
      hide Reported;
      forall i | 0 < i < |paths|
        ensures all[i] == Report(kind, paths[i], Token(number, from + i))
      {
        assert all[i] == rest[i - 1] && paths[i] == paths[1..][i - 1];
        assert rest[i - 1] == Report(kind, paths[1..][i - 1], Token(number, from + 1 + (i - 1)));
      }
    }
  }

  /** Known paths that are created, removed or changed are sent one by one, and no gap is marked for them. */
  lemma KnownPathsAreSent(s: Source, kind: EventKind, paths: seq<Path>, expired: bool, turns: nat)
    requires s.todo == [] && s.accepting && |s.queue| + |paths| <= s.capacity && turns >= 2 * |paths| + 7
    requires kind.Create? || kind.Remove? || kind.Change?
    requires paths != [] && forall i | 0 <= i < |paths| :: paths[i].relative.Some? && !paths[i].isRoot
    ensures var t := Exec(s, Handling(Event(kind, paths, false), expired, turns));
            && t.todo == [] && |t.queue| == |s.queue| + |paths| && t.queue[..|s.queue|] == s.queue
            && (forall i | 0 <= i < |paths| ::
                  var draft := t.queue[|s.queue| + i].draft;
                  && draft.relative == paths[i].relative.value && draft.previous.None?
                  && draft.sources == {Token(s.handled, i)} && Suits(kind, paths[i], draft.kind, draft.scope))
            && t.pending.None? && (s.pending.None? ==> t.gap == s.gap && t.lastIssue == s.lastIssue)
  {
    hide Exec, Handling, Expected, ExpectedIssues, HeldAfter, Recorded, Suits;
    var notice := Event(kind, paths, false);
    var t := Exec(s, Handling(notice, expired, turns));
    ExpectedOfKnown(s.pending, kind, paths, s.handled, expired);
    NoticeComesTo(s, notice, expired, turns);
    NothingRecorded(s.lastIssue);
    forall i | 0 <= i < |paths|
      ensures var draft := t.queue[|s.queue| + i].draft;
              && draft.relative == paths[i].relative.value && draft.previous.None?
              && draft.sources == {Token(s.handled, i)} && Suits(kind, paths[i], draft.kind, draft.scope)
    {
      assert t.queue[|s.queue| + i].draft == Expected(s.pending, notice, s.handled, expired)[i];
    }
  }

  lemma ExpectedOfKnown(pending: Option<Held>, kind: EventKind, paths: seq<Path>, number: nat, expired: bool)
    requires kind.Create? || kind.Remove? || kind.Change?
    requires paths != [] && forall i | 0 <= i < |paths| :: paths[i].relative.Some? && !paths[i].isRoot
    ensures var notice := Event(kind, paths, false);
            var drafts := Expected(pending, notice, number, expired);
            && HeldAfter(notice, number).None? && |drafts| == |paths|
            && ExpectedIssues(pending, notice, expired) == (if pending.Some? then [INCOMPLETE_RENAME] else [])
            && forall i | 0 <= i < |paths| ::
                 && drafts[i].relative == paths[i].relative.value && drafts[i].previous.None?
                 && drafts[i].sources == {Token(number, i)} && Suits(kind, paths[i], drafts[i].kind, drafts[i].scope)
  {
    ReportedOnly(pending, kind, paths, number, expired);
    hide Reported, Expected, ExpectedIssues, HeldAfter, Report, Suits;
    AllReported(kind, paths, number, 0);
    var drafts := Expected(pending, Event(kind, paths, false), number, expired);
    forall i | 0 <= i < |paths|
      ensures drafts[i].relative == paths[i].relative.value && drafts[i].previous.None?
      ensures drafts[i].sources == {Token(number, i)} && Suits(kind, paths[i], drafts[i].kind, drafts[i].scope)
    {
      assert drafts[i] == Report(kind, paths[i], Token(number, 0 + i));
      ReportSuits(kind, paths[i], Token(number, i));
    }
  }

  lemma ReportSuits(kind: EventKind, path: Path, token: Token)
    requires Known(path) && (kind.Create? || kind.Remove? || kind.Change?)
    ensures var draft := Report(kind, path, token);
            && draft.relative == path.relative.value && draft.previous.None? && draft.sources == {token}
            && Suits(kind, path, draft.kind, draft.scope)
  {
  }

  lemma ReportedOnly(pending: Option<Held>, kind: EventKind, paths: seq<Path>, number: nat, expired: bool)
    requires kind.Create? || kind.Remove? || kind.Change?
    requires paths != [] && forall i | 0 <= i < |paths| :: paths[i].relative.Some? && !paths[i].isRoot
    ensures var notice := Event(kind, paths, false);
            && HeldAfter(notice, number).None?
            && Expected(pending, notice, number, expired) == Reported(kind, paths, number, 0)
            && ExpectedIssues(pending, notice, expired) == if pending.Some? then [INCOMPLETE_RENAME] else []
  {
    UnreportedIff(paths);
    hide Reported, Unreported;
  }

  /** A notice of which nothing is missing. */
  predicate Complete(pending: Option<Held>, notice: Notice, expired: bool) {
    && !Unusable(notice) && (notice.kind.Rename? ==> !notice.kind.mode.Unspecified?)
    && (pending.None? || NewName(notice))
    && match notice.kind
       case Access => true
       case Rename(From) => |notice.paths| == 1
       case Rename(To) => |notice.paths| == 1 && pending.Some? && !expired && Known(pending.value.path) && Known(notice.paths[0])
       case Rename(Both) => |notice.paths| == 2 && Known(notice.paths[0]) && Known(notice.paths[1])
       case _ => notice.paths != [] && forall i | 0 <= i < |notice.paths| :: Known(notice.paths[i])
  }

  lemma {:induction false} UnreportedIff(paths: seq<Path>)
    ensures Unreported(paths) == [] <==> forall i | 0 <= i < |paths| :: Known(paths[i])
    decreases |paths|
  {
    if paths != [] {
      UnreportedIff(paths[1..]);
      assert forall i | 0 < i < |paths| :: paths[i] == paths[1..][i - 1];
    }
  }

  /** A gap is marked for a notice exactly if something of it is missing. */
  lemma GapIffIncomplete(s: Source, notice: Notice, expired: bool, turns: nat)
    requires s.todo == [] && s.accepting && turns >= 2 * |PathsOf(notice)| + 7
    requires |s.queue| + |Expected(s.pending, notice, s.handled, expired)| <= s.capacity
    ensures var t := Exec(s, Handling(notice, expired, turns));
            && (t.gap <==> s.gap || !Complete(s.pending, notice, expired))
            && (Complete(s.pending, notice, expired) ==> t.lastIssue == s.lastIssue)
            && (!Complete(s.pending, notice, expired) ==> t.lastIssue.Some?)
  {
    NoticeComesTo(s, notice, expired, turns);
    hide Exec, Handling, Expected;
    if notice.Event? {
      UnreportedIff(notice.paths);
    }
    IssuesIff(s.pending, notice, expired);
    hide ExpectedIssues, Complete;
    RecordedIff(s.lastIssue, ExpectedIssues(s.pending, notice, expired));
  }

  lemma {:induction false} RecordedIff(current: Option<Issue>, marks: seq<Issue>)
    ensures Recorded(current, marks).None? <==> current.None? && marks == []
    decreases |marks|
  {
    if marks != [] {
      RecordedIff(Some(marks[0]), marks[1..]);
      RecordedIff(current, marks[1..]);
    }
  }

  lemma IssuesIff(pending: Option<Held>, notice: Notice, expired: bool)
    ensures ExpectedIssues(pending, notice, expired) == [] <==> Complete(pending, notice, expired)
  {
    if notice.Event? {
      UnreportedIff(notice.paths);
    }
    hide Unreported;
  }

  // ---------------------------------------------------------------- after the stop

  lemma StoppedTurn(s: Source, expired: bool)
    requires !s.accepting && s.todo != []
    ensures var t := Perform(s, expired);
            !t.accepting && t.enqueued == s.enqueued && t.handled == s.handled && t.obligations == s.obligations
  {
    hide PairOps, Worse, Bump;
  }

  lemma StoppedDrain(s: Source, expired: bool)
    ensures var t := Continued(s, expired);
            t.accepting == s.accepting && t.enqueued == s.enqueued && t.handled == s.handled && t.obligations == s.obligations
  {
    ContinuedFrame(s, expired);
    hide Continued;
  }

  lemma StoppedStep(s: Source, step: Step)
    requires !s.accepting
    ensures var t := Apply(s, step);
            && !t.accepting && t.enqueued == s.enqueued && t.handled == s.handled && t.obligations == s.obligations
            && (step.Notify? && s.todo == [] ==> t == s.(ignored := s.ignored + 1, refusals := s.refusals + 1))
  {
    hide Perform, Continued, Program, Owed;
    match step
    case Callback(expired) =>
      if s.todo != [] {
        StoppedTurn(s, expired);
      }
    case Continue(expired) => StoppedDrain(s, expired);
    case _ =>
  }

  /** Once stopped, no notice is accepted and nothing is sent any more. */
  lemma {:induction false} StoppedForGood(s: Source, schedule: seq<Step>)
    ensures var t := Exec(Apply(s, Stop), schedule);
            && !t.accepting && t.enqueued == s.enqueued && t.handled == s.handled && t.obligations == s.obligations
    decreases |schedule|
  {
    if schedule == [] {
      assert Exec(Apply(s, Stop), []) == Apply(s, Stop);
    } else {
      var shorter, last := schedule[..|schedule| - 1], schedule[|schedule| - 1];
      StoppedForGood(s, shorter);
      hide Apply;
      StoppedStep(Exec(Apply(s, Stop), shorter), last);
    }
  }
}
