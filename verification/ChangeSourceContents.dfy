/** What the observations of a change source say about the notices they come from. */
module ChangeSourceContents {
  import opened Options
  import opened ChangeSource
  import opened ChangeSourceProofs
  import opened ChangeSourceRuns

  /** The notices accepted in a run; tokens number them. */
  function Book(s: Source, schedule: seq<Step>): seq<Notice> {
    if schedule == [] then []
    else
      var before, last := Exec(s, schedule[..|schedule| - 1]), schedule[|schedule| - 1];
      Book(s, schedule[..|schedule| - 1]) + (if last.Notify? && before.todo == [] && before.accepting then [last.notice] else [])
  }

  predicate InBook(book: seq<Notice>, token: Token) {
    token.notice < |book| && book[token.notice].Event? && token.position < |book[token.notice].paths|
  }

  function PathAt(book: seq<Notice>, token: Token): Path
    requires InBook(book, token)
  {
    book[token.notice].paths[token.position]
  }

  function KindAt(book: seq<Notice>, token: Token): EventKind
    requires InBook(book, token)
  {
    book[token.notice].kind
  }

  /** When a path is reported as what. Unpaired renames do not look at the path. */
  predicate Suits(kind: EventKind, path: Path, what: Kind, scope: Scope) {
    && (what.Removed? <==> kind == Remove(true))
    && (what.Created? <==> kind == Rename(To) || (kind == Create(false) && path.directory == Some(false)))
    && (what.Modified? <==> kind == Rename(Unspecified) || (kind.Change? && path.directory == Some(false)))
    && (what.DirectoryChanged? <==> scope.SubtreeScope?)
    && !what.Renamed? && !what.EvidenceGap? && !scope.RootScope? && !kind.Access?
  }

  /** The draft reports one path of one notice. */
  predicate TellsOne(book: seq<Notice>, draft: Draft, of: Token) {
    && InBook(book, of) && draft.sources == {of} && draft.previous.None?
    && PathAt(book, of).relative == Some(draft.relative)
    && Suits(KindAt(book, of), PathAt(book, of), draft.kind, draft.scope)
  }

  /** The two halves of a rename: both in one notice, or the old name in an earlier one. */
  predicate Halves(book: seq<Notice>, from: Token, to: Token) {
    && InBook(book, from) && InBook(book, to)
    && if from.notice == to.notice then KindAt(book, to) == Rename(Both) && from.position == 0 && to.position == 1
       else from.notice < to.notice && KindAt(book, from) == Rename(From) && KindAt(book, to) == Rename(To)
  }

  predicate TellsRename(book: seq<Notice>, draft: Draft, from: Token, to: Token) {
    && Halves(book, from, to) && draft.kind.Renamed? && draft.sources == {from, to}
    && PathAt(book, from).relative.Some? && draft.previous == PathAt(book, from).relative
    && PathAt(book, to).relative == Some(draft.relative)
    && draft.scope == if PathAt(book, to).directory == Some(false) then PathScope else SubtreeScope
  }

  ghost predicate Tells(book: seq<Notice>, draft: Draft) {
    || (exists of :: TellsOne(book, draft, of))
    || (exists from, to :: TellsRename(book, draft, from, to))
  }

  predicate IsHalf(book: seq<Notice>, held: Held, mode: RenameMode) {
    InBook(book, held.token) && PathAt(book, held.token) == held.path && KindAt(book, held.token) == Rename(mode)
  }

  ghost predicate OpTells(book: seq<Notice>, op: Op) {
    match op
    case Number(draft) => Tells(book, draft)
    case Send(observation) => Tells(book, observation.draft)
    case Hold(held) => IsHalf(book, held, From)
    case Pair(held) => IsHalf(book, held, To) && held.token.notice == |book| - 1
    case _ => true
  }

  ghost predicate AllTell(book: seq<Notice>, ops: seq<Op>) {
    forall i | 0 <= i < |ops| :: OpTells(book, ops[i])
  }

  ghost predicate Truthful(book: seq<Notice>, s: Source) {
    && |book| == s.handled
    && AllTell(book, s.todo)
    && (s.pending.Some? ==> IsHalf(book, s.pending.value, From))
    && (forall i | 0 <= i < |s.enqueued| :: Tells(book, s.enqueued[i].draft))
  }

  // ---------------------------------------------------------------- what a notice makes the callback say

  lemma EmitOneTells(book: seq<Notice>, token: Token, what: Kind, scope: Scope)
    requires InBook(book, token) && Suits(KindAt(book, token), PathAt(book, token), what, scope)
    ensures OpTells(book, EmitOne(PathAt(book, token), token, what, scope))
  {
    var path := PathAt(book, token);
    if path.relative.Some? {
      assert TellsOne(book, Draft(what, scope, path.relative.value, None, {token}), token);
    }
  }

  lemma EmitRenameTells(book: seq<Notice>, from: Held, to: Held)
    requires Halves(book, from.token, to.token)
    requires PathAt(book, from.token) == from.path && PathAt(book, to.token) == to.path
    ensures OpTells(book, EmitRename(from, to))
  {
    var op := EmitRename(from, to);
    if op.Number? {
      assert TellsRename(book, op.draft, from.token, to.token);
    }
  }

  lemma {:induction false} EmitEachTells(book: seq<Notice>, kind: EventKind, notice: nat, from: nat)
    requires notice < |book| && book[notice].Event? && book[notice].kind == kind && from <= |book[notice].paths|
    requires !kind.Access? && (kind.Rename? ==> kind.mode.Unspecified?)
    ensures AllTell(book, EmitEach(kind, book[notice].paths[from..], notice, from))
    decreases |book[notice].paths| - from
  {
    hide OpTells;
    var paths := book[notice].paths[from..];
    if paths != [] {
      var (what, scope) := KindOf(kind, paths[0]);
      assert PathAt(book, Token(notice, from)) == paths[0];
      EmitOneTells(book, Token(notice, from), what, scope);
      EmitEachTells(book, kind, notice, from + 1);
      assert paths[1..] == book[notice].paths[from + 1..];
      assert EmitEach(kind, paths, notice, from)
          == [EmitOne(paths[0], Token(notice, from), what, scope)] + EmitEach(kind, paths[1..], notice, from + 1);
    }
  }

  lemma EmitAllTells(book: seq<Notice>, notice: nat)
    requires notice < |book| && book[notice].Event? && !book[notice].kind.Access?
    requires book[notice].kind.Rename? ==> book[notice].kind.mode.Unspecified?
    ensures AllTell(book, EmitAll(book[notice].kind, book[notice].paths, notice))
  {
    EmitEachTells(book, book[notice].kind, notice, 0);
    assert book[notice].paths[0..] == book[notice].paths;
    hide EmitEach, Tells;
  }

  lemma ProgramTells(book: seq<Notice>, notice: Notice, number: nat)
    requires number == |book| - 1 && book[number] == notice
    ensures AllTell(book, Program(notice, number))
  {
    hide Tells, EmitAll, EmitRename;
    if notice.Event? && !notice.kind.Access? && (notice.kind.Rename? ==> notice.kind.mode.Unspecified?) {
      EmitAllTells(book, number);
    }
    if notice.Event? && notice.kind == Rename(Both) && |notice.paths| == 2 {
      EmitRenameTells(book, Held(notice.paths[0], Token(number, 0)), Held(notice.paths[1], Token(number, 1)));
    }
  }

  // ---------------------------------------------------------------- every run

  lemma TellsMore(book: seq<Notice>, notice: Notice, draft: Draft)
    requires Tells(book, draft)
    ensures Tells(book + [notice], draft)
  {
    var more := book + [notice];
    assert forall token | InBook(book, token) :: InBook(more, token) && PathAt(more, token) == PathAt(book, token)
                                                 && KindAt(more, token) == KindAt(book, token);
    hide InBook, PathAt, KindAt, Suits;
    if of :| TellsOne(book, draft, of) {
      assert TellsOne(more, draft, of);
    } else {
      var from, to :| TellsRename(book, draft, from, to);
      assert TellsRename(more, draft, from, to);
    }
  }

  lemma TruthfulNotify(book: seq<Notice>, s: Source, notice: Notice)
    requires Truthful(book, s) && s.todo == [] && s.accepting
    ensures Truthful(book + [notice], Apply(s, Notify(notice)))
  {
    var more := book + [notice];
    ProgramTells(more, notice, |book|);
    forall i | 0 <= i < |s.enqueued|
      ensures Tells(more, s.enqueued[i].draft)
    {
      TellsMore(book, notice, s.enqueued[i].draft);
    }
    hide Tells, OpTells, Program, Owed;
  }

  /** Pairing the remembered half with the one that has just arrived. */
  lemma PairOpsTell(book: seq<Notice>, s: Source, current: Held, expired: bool)
    requires IsHalf(book, current, To) && current.token.notice == |book| - 1
    requires s.pending.Some? ==> IsHalf(book, s.pending.value, From)
    ensures AllTell(book, PairOps(s, current, expired))
  {
    hide Tells;
    EmitOneTells(book, current.token, Created, PathScope);
    if s.pending.Some? {
      assert Halves(book, s.pending.value.token, current.token);
      EmitRenameTells(book, s.pending.value, current);
    }
    assert OpTells(book, Mark(INCOMPLETE_RENAME, {}));
    assert s.pending.Some? ==> OpTells(book, Mark(INCOMPLETE_RENAME, {s.pending.value.token}));
    hide OpTells, EmitRename, EmitOne;
  }

  lemma InPlaceTells(book: seq<Notice>, s: Source, expired: bool)
    requires Truthful(book, s) && s.todo != []
    ensures AllTell(book, InPlace(s, expired))
  {
    hide Tells;
    assert OpTells(book, s.todo[0]);
    if s.todo[0].Pair? {
      PairOpsTell(book, s, s.todo[0].held, expired);
    }
    hide PairOps;
  }

  lemma TruthfulPerform(book: seq<Notice>, s: Source, expired: bool)
    requires Truthful(book, s) && s.todo != []
    ensures Truthful(book, Perform(s, expired))
  {
    var after := Perform(s, expired);
    InPlaceTells(book, s, expired);
    PerformTodo(s, expired);
    PerformFrame(s, expired);
    assert OpTells(book, s.todo[0]);
    assert s.todo[0].Send? ==> after.enqueued == s.enqueued || after.enqueued == s.enqueued + [s.todo[0].observation];
    assert after.pending == s.pending || after.pending.None? || (s.todo[0].Hold? && after.pending == Some(s.todo[0].held));
    hide Perform, InPlace, Tells;
  }

  lemma TruthfulContinued(book: seq<Notice>, s: Source, expired: bool)
    requires Truthful(book, s)
    ensures Truthful(book, Continued(s, expired))
  {
    ContinuedFrame(s, expired);
    ContinuedHolds(s, expired);
    hide Tells, OpTells, Continued;
  }

  lemma {:induction false} EveryRunIsTruthful(capacity: nat, schedule: seq<Step>)
    ensures Truthful(Book(Started(capacity), schedule), Exec(Started(capacity), schedule))
  {
    if schedule != [] {
      var shorter, last := schedule[..|schedule| - 1], schedule[|schedule| - 1];
      var book, s := Book(Started(capacity), shorter), Exec(Started(capacity), shorter);
      EveryRunIsTruthful(capacity, shorter);
      hide Tells, OpTells, AllTell, Perform, Continued;
      assert book + [] == book;
      match last {
        case Notify(notice) =>
          if s.todo == [] && s.accepting {
            TruthfulNotify(book, s, notice);
          }
        case Callback(expired) =>
          if s.todo != [] {
            TruthfulPerform(book, s, expired);
          }
        case Continue(expired) => TruthfulContinued(book, s, expired);
        case _ =>
      }
    }
  }

  /**
   * Whatever the owner is told, apart from gaps, is true of the accepted notices: the path that was
   * notified under the kind that suits it, or a rename from the old to the new name.
   */
  lemma DeliveriesAreTruthful(capacity: nat, schedule: seq<Step>, i: nat)
    requires i < |Plain(Seen(Exec(Started(capacity), schedule)))|
    ensures Tells(Book(Started(capacity), schedule), Plain(Seen(Exec(Started(capacity), schedule)))[i].draft)
  {
    var s := Exec(Started(capacity), schedule);
    EveryRunIsTruthful(capacity, schedule);
    EveryRunIsSound(capacity, schedule);
    hide Exec, Book, Tells, OpTells, Plain, Seen, Numbered, Flagged, HoldsSafely;
    assert s.enqueued[i] == s.received[i];
  }

  // ---------------------------------------------------------------- the scope of an observation

  /** The path is reported by itself, without what may lie below it. */
  predicate ReportedAlone(kind: EventKind, path: Path) {
    || kind == Remove(true)
    || (path.directory == Some(false) && (kind == Create(false) || kind.Change?))
    || kind == Rename(To) || kind == Rename(Unspecified)
  }

  /**
   * The exact scope of every delivered observation: one path by itself if and only if a file was
   * removed, a created or changed path is known not to be a directory, or half of a rename came
   * without its other half; for a rename, if and only if the new path is known not to be a directory.
   */
  lemma ScopeIff(capacity: nat, schedule: seq<Step>, i: nat)
    requires i < |Plain(Seen(Exec(Started(capacity), schedule)))|
    ensures var book := Book(Started(capacity), schedule);
            var draft := Plain(Seen(Exec(Started(capacity), schedule)))[i].draft;
            || (exists of :: TellsOne(book, draft, of) &&
                             (draft.scope.PathScope? <==> ReportedAlone(KindAt(book, of), PathAt(book, of))))
            || (exists from, to :: TellsRename(book, draft, from, to) &&
                                   (draft.scope.PathScope? <==> PathAt(book, to).directory == Some(false)))
  {
    var book := Book(Started(capacity), schedule);
    var draft := Plain(Seen(Exec(Started(capacity), schedule)))[i].draft;
    DeliveriesAreTruthful(capacity, schedule, i);
    hide Exec, Book, Plain, Seen;
    if of :| TellsOne(book, draft, of) {
      assert draft.scope.PathScope? <==> ReportedAlone(KindAt(book, of), PathAt(book, of));
    } else {
      var from, to :| TellsRename(book, draft, from, to);
      assert draft.scope.PathScope? <==> PathAt(book, to).directory == Some(false);
    }
  }

  const MOVED_DIRECTORY := Notify(Event(Rename(To), [Path("d", Some("d"), false, Some(true))], false))

  lemma Then(s: Source, steps: seq<Step>, now: Source, step: Step)
    requires Exec(s, steps) == now
    ensures Exec(s, steps + [step]) == Apply(now, step)
  {
    hide Apply;
    assert (steps + [step])[..|steps|] == steps;
  }

  /** A directory that is moved into the root and whose old name is unknown is reported as one new path. */
  lemma MovedDirectoryIsReportedAlone(capacity: nat)
    requires capacity > 0
    ensures var s := Exec(Started(capacity), [MOVED_DIRECTORY, Callback(false), Callback(false), Callback(false), Callback(false)]);
            && |s.queue| == 1 && s.queue[0].draft == Draft(Created, PathScope, "d", None, {Token(0, 0)})
            && s.gap && GapCovers(s, Token(0, 0))
  {
    var start, turn := Started(capacity), Callback(false);
    var draft := Draft(Created, PathScope, "d", None, {Token(0, 0)});
    hide Apply, Exec;
    var s0 := Apply(start, MOVED_DIRECTORY);
    var s1 := Apply(s0, turn);
    var s2 := Apply(s1, turn);
    var s3 := Apply(s2, turn);
    assert s3.queue == [] && s3.accepting && s3.capacity > 0 && s3.gap && s3.gapAt == 1;
    Then(start, [], start, MOVED_DIRECTORY);
    Then(start, [] + [MOVED_DIRECTORY], s0, turn);
    Then(start, [] + [MOVED_DIRECTORY] + [turn], s1, turn);
    Then(start, [] + [MOVED_DIRECTORY] + [turn] + [turn], s2, turn);
    Then(start, [] + [MOVED_DIRECTORY] + [turn] + [turn] + [turn], s3, turn);
    assert [] + [MOVED_DIRECTORY] + [turn] + [turn] + [turn] + [turn] == [MOVED_DIRECTORY, turn, turn, turn, turn];
  }

  // ---------------------------------------------------------------- unpaired renames are under a gap

  /** A report of a rename half by itself stands under an evidence gap raised at or after its notice. */
  predicate Covered(book: seq<Notice>, s: Source, draft: Draft) {
    forall token | token in draft.sources && InBook(book, token) && KindAt(book, token).Rename? && !draft.kind.Renamed? ::
      GapCovers(s, token)
  }

  predicate Speaks(op: Op) {
    op.Number? || op.Send?
  }

  function DraftOf(op: Op): Draft
    requires Speaks(op)
  {
    if op.Number? then op.draft else op.observation.draft
  }

  /** The gap comes before the report. */
  predicate MarkedBefore(ops: seq<Op>, i: nat) {
    exists j :: 0 <= j < i && j < |ops| && ops[j].Mark?
  }

  ghost predicate UnderGap(book: seq<Notice>, s: Source) {
    && (forall i: nat | i < |s.todo| && Speaks(s.todo[i]) :: Covered(book, s, DraftOf(s.todo[i])) || MarkedBefore(s.todo, i))
    && (forall i: nat | i < |s.enqueued| :: Covered(book, s, s.enqueued[i].draft))
  }

  /** What was covered stays covered: the flag is raised again, stays up, or is taken by a drain. */
  predicate GapGrows(s: Source, after: Source) {
    || (after.gap == s.gap && after.gapAt == s.gapAt && after.coveredBefore == s.coveredBefore)
    || (after.gap && after.gapAt >= s.gapAt && after.coveredBefore == s.coveredBefore)
    || (after.coveredBefore >= s.gapAt && after.coveredBefore >= s.coveredBefore)
  }

  lemma StaysCovered(book: seq<Notice>, s: Source, after: Source, draft: Draft)
    requires Covered(book, s, draft) && GapGrows(s, after)
    ensures Covered(book, after, draft)
  {
  }

  /** The rest of the work stays under the gap while its first operation is replaced by others. */
  lemma RestUnderGap(book: seq<Notice>, s: Source, after: Source, head: seq<Op>)
    requires UnderGap(book, s) && s.todo != [] && after.todo == head + s.todo[1..] && GapGrows(s, after)
    requires s.todo[0].Mark? ==> after.gap && after.gapAt == |book|
    requires forall i: nat | i < |head| && Speaks(head[i]) :: Covered(book, after, DraftOf(head[i])) || MarkedBefore(head, i)
    ensures forall i: nat | i < |after.todo| && Speaks(after.todo[i]) ::
              Covered(book, after, DraftOf(after.todo[i])) || MarkedBefore(after.todo, i)
  {
    forall k: nat | k < |after.todo| && Speaks(after.todo[k])
      ensures Covered(book, after, DraftOf(after.todo[k])) || MarkedBefore(after.todo, k)
    {
      if k < |head| {
        assert after.todo[k] == head[k];
        if MarkedBefore(head, k) {
          var j :| 0 <= j < k && j < |head| && head[j].Mark?;
          assert after.todo[j].Mark?;
        }
      } else {
        var i := k - |head| + 1;
        assert after.todo[k] == s.todo[i];
        RestOneUnderGap(book, s, after, head, i);
      }
    }
  }

  lemma RestOneUnderGap(book: seq<Notice>, s: Source, after: Source, head: seq<Op>, i: nat)
    requires s.todo != [] && after.todo == head + s.todo[1..] && GapGrows(s, after)
    requires s.todo[0].Mark? ==> after.gap && after.gapAt == |book|
    requires 0 < i < |s.todo| && Speaks(s.todo[i]) && (Covered(book, s, DraftOf(s.todo[i])) || MarkedBefore(s.todo, i))
    ensures Covered(book, after, DraftOf(s.todo[i])) || MarkedBefore(after.todo, |head| + i - 1)
  {
    if Covered(book, s, DraftOf(s.todo[i])) {
      StaysCovered(book, s, after, DraftOf(s.todo[i]));
    } else {
      var j :| 0 <= j < i && j < |s.todo| && s.todo[j].Mark?;
      if j > 0 {
        assert after.todo[|head| + j - 1] == s.todo[j];
      }
    }
  }

  lemma QueueUnderGap(book: seq<Notice>, s: Source, after: Source)
    requires UnderGap(book, s) && after.enqueued == s.enqueued && GapGrows(s, after)
    ensures forall i: nat | i < |after.enqueued| :: Covered(book, after, after.enqueued[i].draft)
  {
    forall i: nat | i < |after.enqueued|
      ensures Covered(book, after, after.enqueued[i].draft)
    {
      StaysCovered(book, s, after, s.enqueued[i].draft);
    }
  }

  lemma PerformHead(book: seq<Notice>, s: Source, expired: bool)
    requires UnderGap(book, s) && s.todo != [] && |book| == s.handled && s.gapAt <= s.handled && s.coveredBefore <= s.gapAt
    requires !s.todo[0].Pair? && !s.todo[0].Send?
    ensures UnderGap(book, Perform(s, expired))
  {
    var after, op := Perform(s, expired), s.todo[0];
    QueueUnderGap(book, s, after);
    if op.Number? {
      StaysCovered(book, s, after, op.draft);
      hide Covered, MarkedBefore;
      RestUnderGap(book, s, after, [after.todo[0]]);
    } else if op.Flush? && s.pending.Some? {
      hide Covered;
      RestUnderGap(book, s, after, [after.todo[0]]);
    } else {
      hide Covered;
      assert after.todo == [] + s.todo[1..];
      RestUnderGap(book, s, after, []);
    }
  }

  lemma PerformPair(book: seq<Notice>, s: Source, expired: bool)
    requires UnderGap(book, s) && s.todo != [] && |book| == s.handled
    requires s.todo[0].Pair?
    ensures UnderGap(book, Perform(s, expired))
  {
    var after := Perform(s, expired);
    QueueUnderGap(book, s, after);
    if s.pending.None? || expired {
      var head := after.todo[..2];
      assert head[0].Mark? && after.todo == head + s.todo[1..];
      assert MarkedBefore(head, 1);
      hide Covered, Perform;
      RestUnderGap(book, s, after, head);
    } else {
      var head := [EmitRename(s.pending.value, s.todo[0].held)];
      assert after.todo == head + s.todo[1..];
      assert Speaks(head[0]) ==> DraftOf(head[0]).kind.Renamed?;
      hide Perform, EmitRename;
      RestUnderGap(book, s, after, head);
    }
  }

  lemma PerformSend(book: seq<Notice>, s: Source, expired: bool)
    requires UnderGap(book, s) && s.todo != [] && |book| == s.handled
    requires s.todo[0].Send?
    ensures UnderGap(book, Perform(s, expired))
  {
    var after, observation := Perform(s, expired), s.todo[0].observation;
    StaysCovered(book, s, after, observation.draft);
    forall i: nat | i < |after.enqueued|
      ensures Covered(book, after, after.enqueued[i].draft)
    {
      if i < |s.enqueued| {
        StaysCovered(book, s, after, s.enqueued[i].draft);
      }
    }
    if |after.todo| == |s.todo| {
      assert after.todo == [after.todo[0]] + s.todo[1..] && after.todo[0].Mark?;
      hide Covered, Perform;
      RestUnderGap(book, s, after, [after.todo[0]]);
    } else {
      assert after.todo == [] + s.todo[1..];
      hide Covered, Perform;
      RestUnderGap(book, s, after, []);
    }
  }

  lemma UnderGapContinued(book: seq<Notice>, s: Source, expired: bool)
    requires UnderGap(book, s) && s.coveredBefore <= s.gapAt <= s.handled
    ensures UnderGap(book, Continued(s, expired))
  {
    var after := Continued(s, expired);
    ContinuedFrame(s, expired);
    hide Continued, GapGrows, Covered;
    QueueUnderGap(book, s, after);
    forall i: nat | i < |after.todo| && Speaks(after.todo[i])
      ensures Covered(book, after, DraftOf(after.todo[i])) || MarkedBefore(after.todo, i)
    {
      if Covered(book, s, DraftOf(s.todo[i])) {
        StaysCovered(book, s, after, DraftOf(s.todo[i]));
      }
    }
  }

  lemma {:induction false} TokensOfOps(ops: seq<Op>, i: nat)
    requires i < |ops| && ops[i].Number?
    ensures ops[i].draft.sources <= TodoTokens(ops)
  {
    if i > 0 {
      TokensOfOps(ops[1..], i - 1);
    }
  }

  lemma ProgramUnderGap(book: seq<Notice>, s: Source, notice: Notice, number: nat, i: nat)
    requires number == |book| - 1 && book[number] == notice && i < |Program(notice, number)| && Speaks(Program(notice, number)[i])
    ensures Covered(book, s, DraftOf(Program(notice, number)[i])) || MarkedBefore(Program(notice, number), i)
  {
    var ops := Program(notice, number);
    ProgramHolds(notice, number);
    ProgramOwes(notice, number);
    TokensOfOps(ops, i);
    hide TodoTokens, EmitAll;
    if notice.Event? && notice.kind.Rename? {
      if notice.kind.mode.Unspecified? && !notice.rescan {
        assert ops[1].Mark?;
      } else {
        assert DraftOf(ops[i]).kind.Renamed?;
      }
    }
  }

  lemma UnderGapNotify(book: seq<Notice>, s: Source, notice: Notice)
    requires UnderGap(book, s) && Truthful(book, s) && s.todo == [] && s.accepting
    ensures UnderGap(book + [notice], Apply(s, Notify(notice)))
  {
    var more, after := book + [notice], Apply(s, Notify(notice));
    assert after.todo == Program(notice, |book|) && after.enqueued == s.enqueued;
    assert after.gap == s.gap && after.gapAt == s.gapAt && after.coveredBefore == s.coveredBefore;
    hide Program, Owed, Tells;
    forall i: nat | i < |after.todo| && Speaks(after.todo[i])
      ensures Covered(more, after, DraftOf(after.todo[i])) || MarkedBefore(after.todo, i)
    {
      ProgramUnderGap(more, after, notice, |book|, i);
    }
    forall i: nat | i < |after.enqueued|
      ensures Covered(more, after, after.enqueued[i].draft)
    {
      var draft := s.enqueued[i].draft;
      forall token | token in draft.sources && InBook(more, token) && KindAt(more, token).Rename? && !draft.kind.Renamed?
        ensures GapCovers(after, token)
      {
      }
    }
  }

  lemma UnderGapPerform(book: seq<Notice>, s: Source, expired: bool)
    requires UnderGap(book, s) && s.todo != [] && |book| == s.handled && s.coveredBefore <= s.gapAt <= s.handled
    ensures UnderGap(book, Perform(s, expired))
  {
    hide UnderGap, Perform;
    if s.todo[0].Pair? {
      PerformPair(book, s, expired);
    } else if s.todo[0].Send? {
      PerformSend(book, s, expired);
    } else {
      PerformHead(book, s, expired);
    }
  }

  lemma UnderGapApply(book: seq<Notice>, s: Source, step: Step)
    requires UnderGap(book, s) && Truthful(book, s) && s.coveredBefore <= s.gapAt <= s.handled
    ensures UnderGap(if step.Notify? && s.todo == [] && s.accepting then book + [step.notice] else book, Apply(s, step))
  {
    hide Covered, Perform, Continued, Program, Owed, AllTell, Tells;
    match step
    case Notify(notice) =>
      if s.todo == [] && s.accepting {
        UnderGapNotify(book, s, notice);
      } else {
        Untouched(book, s, Apply(s, step));
      }
    case Callback(expired) =>
      if s.todo != [] {
        UnderGapPerform(book, s, expired);
      }
    case Continue(expired) => UnderGapContinued(book, s, expired);
    case BeginDrain(_) => Untouched(book, s, Apply(s, step));
    case Stop => Untouched(book, s, Apply(s, step));
  }

  lemma Untouched(book: seq<Notice>, s: Source, after: Source)
    requires UnderGap(book, s) && after.todo == s.todo && after.enqueued == s.enqueued
    requires after.gap == s.gap && after.gapAt == s.gapAt && after.coveredBefore == s.coveredBefore
    ensures UnderGap(book, after)
  {
    forall draft | Covered(book, s, draft)
      ensures Covered(book, after, draft)
    {
      StaysCovered(book, s, after, draft);
    }
    hide Covered;
  }

  lemma {:induction false} EveryRunIsUnderGap(capacity: nat, schedule: seq<Step>)
    ensures UnderGap(Book(Started(capacity), schedule), Exec(Started(capacity), schedule))
  {
    if schedule != [] {
      var shorter, last := schedule[..|schedule| - 1], schedule[|schedule| - 1];
      var book, s := Book(Started(capacity), shorter), Exec(Started(capacity), shorter);
      EveryRunIsUnderGap(capacity, shorter);
      EveryRunIsTruthful(capacity, shorter);
      EveryRunIsSound(capacity, shorter);
      assert s.coveredBefore <= s.gapAt <= s.handled;
      hide Sound, Truthful, UnderGap, Apply;
      UnderGapApply(book, s, last);
      assert book + [] == book;
    }
  }

  /**
   * What makes reporting an unpaired rename by itself safe: in every reachable state each queued or
   * delivered report of one stands under an evidence gap raised at or after its notice.
   */
  lemma UnpairedRenamesAreUnderAGap(capacity: nat, schedule: seq<Step>, i: nat)
    ensures var book := Book(Started(capacity), schedule);
            var s := Exec(Started(capacity), schedule);
            && (i < |s.queue| ==> Covered(book, s, s.queue[i].draft))
            && (i < |Plain(Seen(s))| ==> Covered(book, s, Plain(Seen(s))[i].draft))
  {
    var s := Exec(Started(capacity), schedule);
    EveryRunIsUnderGap(capacity, schedule);
    EveryRunIsSound(capacity, schedule);
    hide Exec, Book, Covered, Plain, Seen, Numbered, Flagged, HoldsSafely;
    if i < |s.queue| {
      assert s.enqueued[|s.received| + i] == s.queue[i];
    }
    if i < |s.received| {
      assert s.enqueued[i] == s.received[i];
    }
  }
}
