/**
 * The registry of journal roots (rust/src/adapters/windows_identity_journal.rs): registration in
 * two phases around the opening of a root, expiry, eviction and closing, by threads that interleave.
 */
module IdentityJournal {
  import opened Options

  const MAX_ROOTS := 8
  const MAX_PROBED := 64
  const EXPIRY := 60

  datatype Root = Root(id: string, generation: nat, rest: nat)

  /** A root id and a generation. */
  type Key = (string, nat)

  /** The digest over caller and root, as an opaque value. */
  datatype Capability = Capability(caller: nat, root: Root)

  datatype Request = Request(caller: nat, root: Root, wellFormed: bool, ownProcess: bool)

  datatype Registration = Registration(root: Root, caller: nat, capability: Capability, lastUsed: nat)

  datatype Error = InvalidRequest | Closed | CapacityExceeded

  datatype Source = Source(roots: map<Key, Registration>, probed: map<Key, nat>, closed: bool)

  function KeyOf(root: Root): Key {
    (root.id, root.generation)
  }

  predicate Recent(at: nat, now: nat) {
    now < at + EXPIRY
  }

  // ---------------------------------------------------------------- the regions under a mutex

  function KeptProbes(probed: map<Key, nat>, now: nat): map<Key, nat> {
    map key | key in probed && Recent(probed[key], now) :: probed[key]
  }

  predicate OldestProbe(probed: map<Key, nat>, key: Key) {
    key in probed && forall other | other in probed :: probed[key] <= probed[other]
  }

  predicate ProbesFull(probed: map<Key, nat>, key: Key, now: nat) {
    |KeptProbes(probed, now)| >= MAX_PROBED && key !in KeptProbes(probed, now)
  }

  function NoteProbe(probed: map<Key, nat>, key: Key, now: nat, victim: Key): map<Key, nat> {
    var kept := KeptProbes(probed, now);
    (if ProbesFull(probed, key, now) then kept - {victim} else kept)[key := now]
  }

  /** Expired entries go, and so do other generations of the root. */
  function KeptRoots(roots: map<Key, Registration>, wanted: Key, now: nat): map<Key, Registration> {
    map key | key in roots && (key.0 != wanted.0 || key.1 == wanted.1) && Recent(roots[key].lastUsed, now) :: roots[key]
  }

  predicate OldestRoot(roots: map<Key, Registration>, key: Key) {
    key in roots && forall other | other in roots :: roots[key].lastUsed <= roots[other].lastUsed
  }

  predicate RootsFull(roots: map<Key, Registration>, wanted: Key, now: nat) {
    wanted !in KeptRoots(roots, wanted, now) && |KeptRoots(roots, wanted, now)| >= MAX_ROOTS
  }

  predicate SameClaim(entry: Registration, request: Request) {
    entry.root == request.root && entry.caller == request.caller
  }

  /** The first phase of a registration. */
  function MakeRoom(roots: map<Key, Registration>, request: Request, now: nat, victim: Key): map<Key, Registration> {
    var key := KeyOf(request.root);
    var kept := KeptRoots(roots, key, now);
    if key in kept then
      if SameClaim(kept[key], request) then kept[key := kept[key].(lastUsed := now)] else kept
    else if RootsFull(roots, key, now) then kept - {victim}
    else kept
  }

  predicate NoPlace(roots: map<Key, Registration>, key: Key) {
    |roots| >= MAX_ROOTS || key in roots
  }

  function CapabilityOf(request: Request): Capability {
    Capability(request.caller, request.root)
  }

  function Enter(request: Request, now: nat): Registration {
    Registration(request.root, request.caller, CapabilityOf(request), now)
  }

  function Touch(roots: map<Key, Registration>, key: Key, now: nat): map<Key, Registration> {
    if key in roots then roots[key := roots[key].(lastUsed := now)] else roots
  }

  predicate QueryMatches(roots: map<Key, Registration>, request: Request, capability: Capability) {
    KeyOf(request.root) in roots &&
    var entry := roots[KeyOf(request.root)];
    SameClaim(entry, request) && entry.capability == capability
  }

  // ---------------------------------------------------------------- threads

  datatype Thread =
    | Begin(request: Request)
    | Probe(request: Request)
    | Evict(request: Request)
    | Open(request: Request)
    | Check(request: Request)
    | Commit(request: Request)
    | Returned(request: Request, outcome: Result<Capability, Error>)
    | StoreClosed
    | ClearRoots
    | CloseReturned
    | Query(request: Request, capability: Capability)
    | FindRoot(key: Key)
    | TouchRoot(key: Key)
    | CanProbe(key: Key)
    | Done

  /** What the environment decides for a step: the time, the victim among the oldest, the opening. */
  datatype Step = Step(thread: nat, now: nat, victim: Key, openable: bool)

  /** `holder` is the thread inside the roots mutex between two of its steps. */
  datatype System = System(source: Source, holder: Option<nat>, threads: seq<Thread>)

  predicate NeedsRoots(thread: Thread) {
    thread.Evict? || thread.Check? || thread.ClearRoots? || thread.Query? || thread.TouchRoot?
  }

  predicate VictimFits(source: Source, thread: Thread, now: nat, victim: Key) {
    && (thread.Probe? && ProbesFull(source.probed, KeyOf(thread.request.root), now) ==>
          OldestProbe(KeptProbes(source.probed, now), victim))
    && (thread.Evict? && RootsFull(source.roots, KeyOf(thread.request.root), now) ==>
          OldestRoot(KeptRoots(source.roots, KeyOf(thread.request.root), now), victim))
  }

  predicate Enabled(s: System, step: Step) {
    && step.thread < |s.threads|
    && (NeedsRoots(s.threads[step.thread]) ==> s.holder.None?)
    && VictimFits(s.source, s.threads[step.thread], step.now, step.victim)
  }

  function Effect(source: Source, thread: Thread, step: Step): Source {
    match thread
    case Probe(request) =>
      source.(probed := NoteProbe(source.probed, KeyOf(request.root), step.now, step.victim))
    case Evict(request) => source.(roots := MakeRoom(source.roots, request, step.now, step.victim))
    case Commit(request) =>
      if NoPlace(source.roots, KeyOf(request.root)) then source
      else source.(roots := source.roots[KeyOf(request.root) := Enter(request, step.now)])
    case StoreClosed => source.(closed := true)
    case ClearRoots => source.(roots := map[])
    case Query(request, capability) =>
      if QueryMatches(source.roots, request, capability) then
        source.(roots := Touch(source.roots, KeyOf(request.root), step.now))
      else source
    case TouchRoot(key) => source.(roots := Touch(source.roots, key, step.now))
    case CanProbe(key) =>
      var kept := KeptProbes(source.probed, step.now);
      source.(probed := if key in kept then kept[key := step.now] else kept)
    case _ => source
  }

  function AfterEvict(source: Source, request: Request, now: nat): Thread {
    var kept := KeptRoots(source.roots, KeyOf(request.root), now);
    if KeyOf(request.root) !in kept then Open(request)
    else if SameClaim(kept[KeyOf(request.root)], request) then
      Returned(request, Ok(kept[KeyOf(request.root)].capability))
    else Returned(request, Err(InvalidRequest))
  }

  function Next(source: Source, thread: Thread, step: Step): Thread {
    match thread
    case Begin(request) =>
      if !request.wellFormed then Returned(request, Err(InvalidRequest))
      else if source.closed then Returned(request, Err(Closed))
      else if !request.ownProcess || request.root.generation == 0 then Returned(request, Err(InvalidRequest))
      else Probe(request)
    case Probe(request) => Evict(request)
    case Evict(request) => AfterEvict(source, request, step.now)
    case Open(request) => if step.openable then Check(request) else Returned(request, Err(InvalidRequest))
    case Check(request) => if source.closed then Returned(request, Err(Closed)) else Commit(request)
    case Commit(request) =>
      Returned(request, if NoPlace(source.roots, KeyOf(request.root)) then Err(CapacityExceeded) else Ok(CapabilityOf(request)))
    case StoreClosed => ClearRoots
    case ClearRoots => CloseReturned
    case FindRoot(key) => if source.closed then Done else TouchRoot(key)
    case Returned(_, _) => thread
    case CloseReturned => thread
    case _ => Done
  }

  function Apply(s: System, step: Step): System {
    if !Enabled(s, step) then s
    else
      var thread := s.threads[step.thread];
      var next := Next(s.source, thread, step);
      System(Effect(s.source, thread, step),
             if next.Commit? then Some(step.thread) else if thread.Commit? then None else s.holder,
             s.threads[step.thread := next])
  }

  function Exec(s: System, steps: seq<Step>): System
    decreases |steps|
  {
    if steps == [] then s else Exec(Apply(s, steps[0]), steps[1..])
  }

  lemma {:induction false} ExecConcat(s: System, a: seq<Step>, b: seq<Step>)
    ensures Exec(s, a + b) == Exec(Exec(s, a), b)
    decreases |a|
  {
    hide Apply;
    if a == [] {
      assert a + b == b;
    } else {
      ExecConcat(Apply(s, a[0]), a[1..], b);
      assert (a + b)[1..] == a[1..] + b;
    }
  }

  predicate NotStarted(thread: Thread) {
    thread.Begin? || thread.StoreClosed? || thread.Query? || thread.FindRoot? || thread.CanProbe?
  }

  /** A new connection with operations that have not begun. */
  ghost predicate Connected(s: System) {
    && s.source == Source(map[], map[], false) && s.holder.None?
    && forall id | 0 <= id < |s.threads| :: NotStarted(s.threads[id])
  }

  // ---------------------------------------------------------------- sizes

  lemma {:induction false} SubmapSize<K, V>(part: map<K, V>, whole: map<K, V>)
    requires part.Keys <= whole.Keys
    ensures |part| <= |whole|
  {
    SubsetSize(part.Keys, whole.Keys);
  }

  lemma {:induction false} SubsetSize<T>(part: set<T>, whole: set<T>)
    requires part <= whole
    ensures |part| <= |whole|
    decreases |part|
  {
    if part != {} {
      var one :| one in part;
      SubsetSize(part - {one}, whole - {one});
    }
  }

  lemma PutSize<K, V>(m: map<K, V>, key: K, value: V)
    ensures |m[key := value]| == |m| + (if key in m then 0 else 1)
  {
    assert m[key := value].Keys == m.Keys + {key};
  }

  lemma NoteProbeFits(probed: map<Key, nat>, key: Key, now: nat, victim: Key)
    requires |probed| <= MAX_PROBED
    requires ProbesFull(probed, key, now) ==> OldestProbe(KeptProbes(probed, now), victim)
    ensures |NoteProbe(probed, key, now, victim)| <= MAX_PROBED
  {
    var kept := KeptProbes(probed, now);
    SubmapSize(kept, probed);
    PutSize(kept, key, now);
    PutSize(kept - {victim}, key, now);
    assert (kept - {victim}).Keys == kept.Keys - {victim};
    hide KeptProbes;
  }

  lemma MakeRoomFits(roots: map<Key, Registration>, request: Request, now: nat, victim: Key)
    requires |roots| <= MAX_ROOTS
    ensures |MakeRoom(roots, request, now, victim)| <= MAX_ROOTS
    ensures forall key | key in MakeRoom(roots, request, now, victim) :: key in roots && !Rivals(key, KeyOf(request.root))
  {
    var key := KeyOf(request.root);
    var kept := KeptRoots(roots, key, now);
    SubmapSize(kept, roots);
    SubmapSize(kept - {victim}, kept);
    if key in kept {
      PutSize(kept, key, kept[key].(lastUsed := now));
    }
  }

  /** Two generations of one root. */
  predicate Rivals(a: Key, b: Key) {
    a.0 == b.0 && a.1 != b.1
  }

  ghost predicate OneGeneration(roots: map<Key, Registration>) {
    forall a, b | a in roots && b in roots :: !Rivals(a, b)
  }

  ghost predicate Bounded(source: Source) {
    |source.roots| <= MAX_ROOTS && |source.probed| <= MAX_PROBED
  }

  lemma EffectFits(source: Source, thread: Thread, step: Step)
    requires Bounded(source) && VictimFits(source, thread, step.now, step.victim)
    ensures Bounded(Effect(source, thread, step))
  {
    match thread {
      case Probe(request) =>
        NoteProbeFits(source.probed, KeyOf(request.root), step.now, step.victim);
      case Evict(request) =>
        MakeRoomFits(source.roots, request, step.now, step.victim);
      case Commit(request) =>
        PutSize(source.roots, KeyOf(request.root), Enter(request, step.now));
      case Query(request, _) =>
      case TouchRoot(key) =>
      case CanProbe(key) =>
        SubmapSize(KeptProbes(source.probed, step.now), source.probed);
        PutSize(KeptProbes(source.probed, step.now), key, step.now);
      case _ =>
    }
  }
}
