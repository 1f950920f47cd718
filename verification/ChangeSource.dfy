/**
 * Live change notifications (rust/src/adapters/windows_library_change_source.rs).
 *
 * Two threads share the callback state: the watcher thread runs `handle`, here a list of atomic
 * operations still to be carried out, and the owner runs `drain` and `stop`. Locks that the code
 * holds across two operations are not held here, so the machine allows more interleavings.
 *
 * Some fields only record the past (`handled`, `obligations`, `enqueued`, ...) and are read by no
 * operation; they say what the guarantees are about.
 */
module ChangeSource {
  import opened Options

  const MAX_INGRESS_CAPACITY: nat := 4096

  /** One path of one notice: the notice's number and the path's position in it. */
  datatype Token = Token(notice: nat, position: nat)

  /** A native path with what the adapter finds out about it. */
  datatype Path = Path(
    name: string,
    relative: Option<string>,   // relative_path: None outside the root or not representable
    isRoot: bool,
    directory: Option<bool>)    // metadata: None when it cannot be read

  datatype RenameMode = From | To | Both | Unspecified

  datatype EventKind = Rename(mode: RenameMode) | Access | Create(folder: bool) | Remove(file: bool) | Change

  datatype Notice = WatchError(code: string) | Event(kind: EventKind, paths: seq<Path>, rescan: bool)

  datatype Kind = Created | Modified | Removed | DirectoryChanged | Renamed | EvidenceGap

  datatype Scope = PathScope | SubtreeScope | RootScope

  datatype Draft = Draft(kind: Kind, scope: Scope, relative: string, previous: Option<string>, sources: set<Token>)

  datatype Observation = Observation(sequence: nat, ticket: nat, draft: Draft)

  datatype Severity = Degraded | Failed

  datatype Issue = Issue(severity: Severity, code: string)

  datatype Held = Held(path: Path, token: Token)

  /** The atomic operations of the callback thread. */
  datatype Op =
    | Flush                                       // take a pending rename half
    | Mark(issue: Issue, covers: set<Token>)      // mark_evidence_gap
    | Hold(held: Held)                            // remember a rename half
    | Pair(held: Held)                            // look for the other half
    | Number(draft: Draft)                        // next_sequence
    | Send(observation: Observation)              // emit, inside the delivery gate

  /** The limit of a drain and the two counters it has swapped out. */
  datatype Tally = Tally(limit: nat, dropped: nat, ignored: nat)

  /** Where `drain` stands. */
  datatype Drain =
    | Idle
    | Counting(tally: Tally)
    | Counted(tally: Tally)
    | Expiring(tally: Tally, token: Token)
    | Flushed(tally: Tally)
    | Taken(tally: Tally, code: Option<string>)
    | Receiving(tally: Tally, code: Option<string>, batch: seq<Observation>)

  datatype Batch = Batch(observations: seq<Observation>, dropped: nat, ignored: nat, code: Option<string>)

  datatype Source = Source(
    capacity: nat,
    accepting: bool,
    gap: bool,
    lastIssue: Option<Issue>,
    dropped: nat,
    ignored: nat,
    nextSequence: nat,
    pending: Option<Held>,
    queue: seq<Observation>,
    todo: seq<Op>,
    drain: Drain,
    // history
    handled: nat,                    // notices accepted so far
    obligations: set<Token>,         // paths they carried, access notices excepted
    enqueued: seq<Observation>,      // everything that ever entered the queue
    received: seq<Observation>,      // everything that ever left it
    discarded: set<Token>,           // refused because the source was stopped
    refusals: nat,                   // notices and sends that came after the stop
    attempts: nat,                   // sends attempted while accepting
    drops: nat,                      // sends that found the queue full
    tickets: nat,                    // sequence numbers handed out
    gapAt: nat,                      // notices handled when the flag was last raised
    coveredBefore: nat,              // the same, for the last flag that was drained
    taken: nat,                      // flags drained
    marks: seq<Issue>,               // issues marked since the flag was last taken
    reports: seq<Batch>)

  datatype Step = Notify(notice: Notice) | Callback(expired: bool) | BeginDrain(limit: nat) | Continue(expired: bool) | Stop

  // ---------------------------------------------------------------- what a notice makes the callback do

  const INCOMPLETE_RENAME := Issue(Degraded, "change_source_rename_incomplete")
  const INCOMPLETE_EVENT := Issue(Degraded, "change_source_event_incomplete")
  const OVERFLOW := Issue(Degraded, "change_source_ingress_overflow")
  const RESCAN := Issue(Degraded, "change_source_rescan_required")
  const ROOT_REMOVED := Issue(Failed, "change_source_root_removed")

  function TokensFrom(notice: nat, from: nat, count: nat): set<Token> {
    set i | from <= i < from + count :: Token(notice, i)
  }

  function EmitOne(path: Path, token: Token, kind: Kind, scope: Scope): Op {
    match path.relative
    case None => Mark(INCOMPLETE_EVENT, {token})
    case Some(relative) => Number(Draft(kind, scope, relative, None, {token}))
  }

  function EmitRename(previous: Held, current: Held): Op {
    if previous.path.relative.None? || current.path.relative.None? then
      Mark(INCOMPLETE_EVENT, {previous.token, current.token})
    else
      var scope := if current.path.directory == Some(false) then PathScope else SubtreeScope;
      Number(Draft(Renamed, scope, current.path.relative.value, Some(previous.path.relative.value),
                   {previous.token, current.token}))
  }

  /** Creations and modifications look at the file; removals and incomplete renames do not. */
  function KindOf(kind: EventKind, path: Path): (Kind, Scope) {
    match kind
    case Create(folder) =>
      if path.directory == Some(false) && !folder then (Created, PathScope) else (DirectoryChanged, SubtreeScope)
    case Remove(file) => if file then (Removed, PathScope) else (DirectoryChanged, SubtreeScope)
    case Change => if path.directory == Some(false) then (Modified, PathScope) else (DirectoryChanged, SubtreeScope)
    case _ => (Modified, PathScope)
  }

  function EmitEach(kind: EventKind, paths: seq<Path>, notice: nat, from: nat): seq<Op> {
    if paths == [] then []
    else
      var (what, scope) := KindOf(kind, paths[0]);
      [EmitOne(paths[0], Token(notice, from), what, scope)] + EmitEach(kind, paths[1..], notice, from + 1)
  }

  function EmitAll(kind: EventKind, paths: seq<Path>, notice: nat): seq<Op> {
    if paths == [] then [Mark(INCOMPLETE_EVENT, {})] else EmitEach(kind, paths, notice, 0)
  }

  /** `handle`, once the source is known to accept. */
  function Program(notice: Notice, number: nat): seq<Op> {
    match notice
    case WatchError(code) => [Flush, Mark(Issue(Failed, code), {})]
    case Event(kind, paths, rescan) =>
      var all := TokensFrom(number, 0, |paths|);
      if rescan then [Flush, Mark(RESCAN, all)]
      else if kind.Remove? && exists i :: 0 <= i < |paths| && paths[i].isRoot then [Flush, Mark(ROOT_REMOVED, all)]
      else
        match kind
        case Rename(From) =>
          if |paths| == 1 then [Flush, Hold(Held(paths[0], Token(number, 0)))] else [Flush, Mark(INCOMPLETE_RENAME, all)]
        case Rename(To) =>
          if |paths| == 1 then [Pair(Held(paths[0], Token(number, 0)))] else [Flush, Mark(INCOMPLETE_RENAME, all)]
        case Rename(Both) =>
          if |paths| == 2 then
            [Flush, EmitRename(Held(paths[0], Token(number, 0)), Held(paths[1], Token(number, 1)))]
          else [Flush, Mark(INCOMPLETE_EVENT, all)]
        case Rename(Unspecified) => [Flush, Mark(INCOMPLETE_RENAME, {})] + EmitAll(kind, paths, number)
        case Access => [Flush]
        case _ => [Flush] + EmitAll(kind, paths, number)
  }

  function Owed(notice: Notice, number: nat): set<Token> {
    match notice
    case WatchError(_) => {}
    case Event(kind, paths, _) => if kind.Access? then {} else TokensFrom(number, 0, |paths|)
  }

  // ---------------------------------------------------------------- steps

  /** health_code of the two severities that are ever marked. */
  function HealthCode(severity: Severity): nat {
    match severity
    case Degraded => 2
    case Failed => 3
  }

  function Worse(current: Option<Issue>, issue: Issue): Issue {
    if current.None? || HealthCode(issue.severity) > HealthCode(current.value.severity) then issue else current.value
  }

  function Raise(s: Source, issue: Issue): Source {
    s.(lastIssue := Some(Worse(s.lastIssue, issue)), gap := true, gapAt := s.handled, marks := s.marks + [issue])
  }

  /** next_sequence: saturating fetch-and-add. */
  function Bump(sequence: nat): nat {
    if sequence >= U64_MAX then U64_MAX else sequence + 1
  }

  /** A rename half that is still pending is given up. */
  function FlushHalf(s: Source): Source
    requires s.todo != []
  {
    if s.pending.None? then s.(todo := s.todo[1..])
    else s.(pending := None, todo := [Mark(INCOMPLETE_RENAME, {s.pending.value.token})] + s.todo[1..])
  }

  /** What becomes of a new name: paired with the pending half, or reported by itself under a gap. */
  function PairOps(s: Source, current: Held, expired: bool): seq<Op> {
    var created := EmitOne(current.path, current.token, Created, PathScope);
    if s.pending.None? then [Mark(INCOMPLETE_RENAME, {}), created]
    else if expired then [Mark(INCOMPLETE_RENAME, {s.pending.value.token}), created]
    else [EmitRename(s.pending.value, current)]
  }

  function PairHalf(s: Source, current: Held, expired: bool): Source
    requires s.todo != []
  {
    s.(pending := None, todo := PairOps(s, current, expired) + s.todo[1..])
  }

  function NumberDraft(s: Source, draft: Draft): Source
    requires s.todo != []
  {
    s.(nextSequence := Bump(s.nextSequence), tickets := s.tickets + 1,
       todo := [Send(Observation(s.nextSequence, s.tickets, draft))] + s.todo[1..])
  }

  function SendOne(s: Source, observation: Observation): Source
    requires s.todo != []
  {
    var rest := s.todo[1..];
    if !s.accepting then
      s.(ignored := s.ignored + 1, refusals := s.refusals + 1, discarded := s.discarded + observation.draft.sources, todo := rest)
    else if |s.queue| < s.capacity then
      s.(attempts := s.attempts + 1, queue := s.queue + [observation], enqueued := s.enqueued + [observation], todo := rest)
    else
      s.(attempts := s.attempts + 1, dropped := s.dropped + 1, drops := s.drops + 1,
         todo := [Mark(OVERFLOW, observation.draft.sources)] + rest)
  }

  /** The first operation of the callback. */
  function Perform(s: Source, expired: bool): Source
    requires s.todo != []
  {
    match s.todo[0]
    case Flush => FlushHalf(s)
    case Mark(issue, _) => Raise(s, issue).(todo := s.todo[1..])
    case Hold(held) => s.(pending := Some(held), todo := s.todo[1..])
    case Pair(current) => PairHalf(s, current, expired)
    case Number(draft) => NumberDraft(s, draft)
    case Send(observation) => SendOne(s, observation)
  }

  function GiveUpHalf(s: Source, tally: Tally, expired: bool): Source {
    if s.pending.Some? && expired then s.(pending := None, drain := Expiring(tally, s.pending.value.token))
    else s.(drain := Flushed(tally))
  }

  function TakeGap(s: Source, tally: Tally): Source {
    if s.gap then
      s.(gap := false, lastIssue := None, marks := [], coveredBefore := s.gapAt, taken := s.taken + 1,
         drain := Taken(tally, if s.lastIssue.Some? then Some(s.lastIssue.value.code) else None))
    else s.(drain := Receiving(tally, None, []))
  }

  function ReportGap(s: Source, tally: Tally, code: Option<string>): Source {
    var report := Observation(s.nextSequence, s.tickets, Draft(EvidenceGap, RootScope, "", None, {}));
    s.(nextSequence := Bump(s.nextSequence), tickets := s.tickets + 1, drain := Receiving(tally, code, [report]))
  }

  function ReceiveOne(s: Source, tally: Tally, code: Option<string>, batch: seq<Observation>): Source {
    if |batch| < tally.limit && s.queue != [] then
      s.(queue := s.queue[1..], received := s.received + [s.queue[0]],
         drain := Receiving(tally, code, batch + [s.queue[0]]))
    else s.(drain := Idle, reports := s.reports + [Batch(batch, tally.dropped, tally.ignored, code)])
  }

  /** The next step of `drain`. */
  function Continued(s: Source, expired: bool): Source {
    match s.drain
    case Idle => s
    case Counting(tally) => s.(ignored := 0, drain := Counted(tally.(ignored := s.ignored)))
    case Counted(tally) => GiveUpHalf(s, tally, expired)
    case Expiring(tally, _) => Raise(s, INCOMPLETE_RENAME).(drain := Flushed(tally))
    case Flushed(tally) => TakeGap(s, tally)
    case Taken(tally, code) => ReportGap(s, tally, code)
    case Receiving(tally, code, batch) => ReceiveOne(s, tally, code, batch)
  }

  function Apply(s: Source, step: Step): Source {
    match step
    case Notify(notice) =>
      if s.todo != [] then s // one watcher thread
      else if !s.accepting then s.(ignored := s.ignored + 1, refusals := s.refusals + 1)
      else s.(handled := s.handled + 1, obligations := s.obligations + Owed(notice, s.handled),
              todo := Program(notice, s.handled))
    case Callback(expired) => if s.todo == [] then s else Perform(s, expired)
    case BeginDrain(limit) =>
      if !s.drain.Idle? || limit == 0 || limit > MAX_INGRESS_CAPACITY then s
      else s.(dropped := 0, drain := Counting(Tally(limit, s.dropped, 0)))
    case Continue(expired) => Continued(s, expired)
    case Stop => s.(accepting := false)
  }

  function Exec(s: Source, schedule: seq<Step>): Source {
    if schedule == [] then s else Apply(Exec(s, schedule[..|schedule| - 1]), schedule[|schedule| - 1])
  }

  function Started(capacity: nat): Source {
    Source(capacity, true, false, None, 0, 0, 1, None, [], [], Idle, 0, {}, [], [], {}, 0, 0, 0, 0, 0, 0, 0, [], [])
  }
}
