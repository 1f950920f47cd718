/** What the registry of journal roots guarantees in every interleaving of its threads. */
module IdentityJournalRuns {
  import opened Options
  import opened IdentityJournal

  // ---------------------------------------------------------------- bounds and the mutex

  /** Between two steps only a registration about to insert is inside the roots mutex. */
  ghost predicate Guarded(s: System) {
    forall id: nat | id < |s.threads| :: s.threads[id].Commit? <==> s.holder == Some(id)
  }

  ghost predicate Inv(s: System) {
    && Bounded(s.source) && Guarded(s)
    && (forall id: nat | id < |s.threads| && (s.threads[id].ClearRoots? || s.threads[id].CloseReturned?) :: s.source.closed)
    && ((exists id: nat :: id < |s.threads| && s.threads[id].CloseReturned?) ==> Emptied(s))
  }

  /** Closed for good: nothing registered and nobody about to insert. */
  ghost predicate Emptied(s: System) {
    s.source.closed && s.source.roots == map[] && forall id: nat | id < |s.threads| :: !s.threads[id].Commit?
  }

  lemma Frame(s: System, step: Step)
    ensures var t := Apply(s, step);
            && |t.threads| == |s.threads|
            && (forall id: nat | id < |s.threads| && id != step.thread :: t.threads[id] == s.threads[id])
            && (s.source.closed ==> t.source.closed)
  {
    hide VictimFits, NoteProbe, MakeRoom, Touch, KeptProbes, QueryMatches, NoPlace, AfterEvict;
  }

  lemma GuardedStep(s: System, step: Step)
    requires Guarded(s)
    ensures Guarded(Apply(s, step))
  {
    hide Effect, VictimFits, AfterEvict, NoPlace;
    Frame(s, step);
    if Enabled(s, step) {
      var thread := s.threads[step.thread];
      assert Next(s.source, thread, step).Commit? ==> thread.Check? by {
        AfterEvictIsNotCommit(s.source, thread, step);
      }
    }
  }

  lemma AfterEvictIsNotCommit(source: Source, thread: Thread, step: Step)
    ensures Next(source, thread, step).Commit? ==> thread.Check? && !source.closed
    ensures Next(source, thread, step).ClearRoots? ==> thread.StoreClosed?
    ensures Next(source, thread, step).CloseReturned? ==> thread.ClearRoots? || thread.CloseReturned?
  {
    hide KeptRoots, NoPlace, SameClaim;
  }

  /** A closed registry stays empty, and no registration that is still under way succeeds. */
  lemma EmptiedStep(s: System, step: Step)
    requires Emptied(s)
    ensures Emptied(Apply(s, step))
    ensures forall id: nat | id < |s.threads| && Succeeded(Apply(s, step).threads[id]) :: Succeeded(s.threads[id])
  {
    Frame(s, step);
    if Enabled(s, step) {
      var thread := s.threads[step.thread];
      AfterEvictIsNotCommit(s.source, thread, step);
      hide Next, Effect;
    }
  }

  predicate Succeeded(thread: Thread) {
    thread.Returned? && thread.outcome.Ok?
  }

  lemma InvStep(s: System, step: Step)
    requires Inv(s)
    ensures Inv(Apply(s, step))
  {
    var t := Apply(s, step);
    Frame(s, step);
    GuardedStep(s, step);
    if Emptied(s) {
      EmptiedStep(s, step);
    }
    if Enabled(s, step) {
      EffectFits(s.source, s.threads[step.thread], step);
      AfterEvictIsNotCommit(s.source, s.threads[step.thread], step);
      hide Effect, Next, VictimFits, Bounded;
    }
  }

  lemma {:induction false} ExecKeeps(s: System, steps: seq<Step>)
    requires Inv(s)
    ensures Inv(Exec(s, steps)) && |Exec(s, steps).threads| == |s.threads|
    decreases |steps|
  {
    hide Inv, Apply;
    if steps != [] {
      InvStep(s, steps[0]);
      Frame(s, steps[0]);
      ExecKeeps(Apply(s, steps[0]), steps[1..]);
    }
  }

  lemma {:induction false} EmptiedForever(s: System, steps: seq<Step>)
    requires Emptied(s)
    ensures Emptied(Exec(s, steps)) && |Exec(s, steps).threads| == |s.threads|
    ensures forall id: nat | id < |s.threads| && Succeeded(Exec(s, steps).threads[id]) :: Succeeded(s.threads[id])
    decreases |steps|
  {
    hide Emptied, Apply, Succeeded;
    if steps != [] {
      EmptiedStep(s, steps[0]);
      Frame(s, steps[0]);
      EmptiedForever(Apply(s, steps[0]), steps[1..]);
    }
  }

  /** The registry never holds more than eight roots, nor more than 64 probes. */
  lemma RegistryStaysBounded(s: System, steps: seq<Step>)
    requires Connected(s)
    ensures |Exec(s, steps).source.roots| <= MAX_ROOTS && |Exec(s, steps).source.probed| <= MAX_PROBED
  {
    ExecKeeps(s, steps);
    hide Exec;
  }

  /**
   * Once a `close` has returned the registry is empty in every later state, and no registration
   * succeeds any more: neither one begun later nor one that was under way.
   */
  lemma ClosedForGood(s: System, before: seq<Step>, closer: nat, after: seq<Step>)
    requires Connected(s) && closer < |s.threads| && |Exec(s, before).threads| == |s.threads|
    requires Exec(s, before).threads[closer].CloseReturned?
    ensures var t := Exec(s, before);
            var u := Exec(t, after);
            && u.source.roots == map[] && u.source.closed && |u.threads| == |s.threads|
            && forall id: nat | id < |s.threads| && Succeeded(u.threads[id]) :: Succeeded(t.threads[id])
  {
    ExecKeeps(s, before);
    EmptiedForever(Exec(s, before), after);
    hide Exec;
  }

  // ---------------------------------------------------------------- what is registered

  /** The entry belongs under its key and carries the capability of its own claim. */
  predicate Genuine(key: Key, entry: Registration) {
    KeyOf(entry.root) == key && entry.capability == Capability(entry.caller, entry.root)
  }

  ghost predicate AllGenuine(roots: map<Key, Registration>) {
    forall key | key in roots :: Genuine(key, roots[key])
  }

  predicate AnswersOwn(thread: Thread) {
    Succeeded(thread) ==> thread.outcome.value == CapabilityOf(thread.request)
  }

  ghost predicate Honest(s: System) {
    AllGenuine(s.source.roots) && forall id: nat | id < |s.threads| :: AnswersOwn(s.threads[id])
  }

  lemma GenuineEffect(source: Source, thread: Thread, step: Step)
    requires AllGenuine(source.roots)
    ensures AllGenuine(Effect(source, thread, step).roots)
  {
    hide NoteProbe, KeptProbes, Recent, RootsFull, QueryMatches, SameClaim;
    if thread.Evict? {
      var kept := KeptRoots(source.roots, KeyOf(thread.request.root), step.now);
      assert AllGenuine(kept);
    }
  }

  lemma HonestStep(s: System, step: Step)
    requires Honest(s)
    ensures Honest(Apply(s, step))
  {
    Frame(s, step);
    if Enabled(s, step) {
      GenuineEffect(s.source, s.threads[step.thread], step);
      hide Effect, Next, VictimFits, AllGenuine, AnswersOwn;
    }
  }

  /** In every run whoever registers successfully gets the capability of the claim it made. */
  lemma {:induction false} SuccessIsGenuine(s: System, steps: seq<Step>)
    requires Honest(s)
    ensures Honest(Exec(s, steps))
    decreases |steps|
  {
    hide Honest, Apply;
    if steps != [] {
      HonestStep(s, steps[0]);
      SuccessIsGenuine(Apply(s, steps[0]), steps[1..]);
    }
  }

  // ---------------------------------------------------------------- one generation per root

  predicate Acceptable(request: Request) {
    request.wellFormed && request.ownProcess && request.root.generation != 0
  }

  /** A registration that can still insert its key. */
  predicate Underway(thread: Thread) {
    (thread.Begin? && Acceptable(thread.request)) || thread.Probe? || thread.Evict? || thread.Open? || thread.Check? || thread.Commit?
  }

  /** No two registrations under way are for different generations of one root. */
  ghost predicate Agreeing(threads: seq<Thread>) {
    forall a, b | 0 <= a < |threads| && 0 <= b < |threads| && Underway(threads[a]) && Underway(threads[b]) ::
      !Rivals(KeyOf(threads[a].request.root), KeyOf(threads[b].request.root))
  }

  /** Between its two phases: a place has been made and the root may be inserted. */
  predicate PastEviction(thread: Thread) {
    thread.Open? || thread.Check? || thread.Commit?
  }

  ghost predicate NoRivalOf(roots: map<Key, Registration>, root: Root) {
    forall key | key in roots :: !Rivals(key, KeyOf(root))
  }

  /** One generation per root, and none in the way of a registration between its phases. */
  ghost predicate Separate(s: System) {
    && OneGeneration(s.source.roots)
    && forall id: nat | id < |s.threads| && PastEviction(s.threads[id]) :: NoRivalOf(s.source.roots, s.threads[id].request.root)
  }

  /** No two registrations between their phases are for different generations of one root. */
  ghost predicate Apart(threads: seq<Thread>) {
    forall a, b | 0 <= a < |threads| && 0 <= b < |threads| && PastEviction(threads[a]) && PastEviction(threads[b]) ::
      !Rivals(KeyOf(threads[a].request.root), KeyOf(threads[b].request.root))
  }

  /** In no state that the run leaves behind. */
  ghost predicate NeverOverlap(s: System, steps: seq<Step>)
    decreases |steps|
  {
    steps == [] || (Apart(s.threads) && NeverOverlap(Apply(s, steps[0]), steps[1..]))
  }

  lemma NextIsSameRequest(source: Source, thread: Thread, step: Step)
    ensures var next := Next(source, thread, step);
            && (Underway(next) ==> Underway(thread) && next.request == thread.request)
            && (PastEviction(next) ==> thread.Evict? || PastEviction(thread))
  {
    hide KeptRoots, NoPlace, SameClaim;
  }

  lemma SeparateStep(s: System, step: Step)
    requires Separate(s) && Apart(s.threads)
    ensures Separate(Apply(s, step))
  {
    if Enabled(s, step) {
      var t, thread := Apply(s, step), s.threads[step.thread];
      Frame(s, step);
      NextIsSameRequest(s.source, thread, step);
      hide Effect, Next, Enabled;
      assert OneGeneration(t.source.roots);
      forall id: nat | id < |t.threads| && PastEviction(t.threads[id])
        ensures NoRivalOf(t.source.roots, t.threads[id].request.root)
      {
        if id != step.thread && thread.Commit? {
          assert !Rivals(KeyOf(s.threads[step.thread].request.root), KeyOf(s.threads[id].request.root));
        }
      }
    }
  }

  /**
   * As long as no two registrations of different generations of one root are between their phases
   * at the same time, every state of the run has one generation per root.
   */
  lemma {:induction false} ApartKeepOneGeneration(s: System, steps: seq<Step>)
    requires Separate(s) && NeverOverlap(s, steps)
    ensures OneGeneration(Exec(s, steps).source.roots)
    decreases |steps|
  {
    hide Apply, Apart;
    if steps != [] {
      SeparateStep(s, steps[0]);
      hide Separate;
      ApartKeepOneGeneration(Apply(s, steps[0]), steps[1..]);
    }
  }

  // One after the other.

  predicate InProgress(thread: Thread) {
    thread.Probe? || thread.Evict? || thread.Open? || thread.Check? || thread.Commit?
  }

  ghost predicate AtMostOne(threads: seq<Thread>) {
    forall a, b | 0 <= a < |threads| && 0 <= b < |threads| && InProgress(threads[a]) && InProgress(threads[b]) :: a == b
  }

  /** Each registration has returned before the next one passes its first check. */
  ghost predicate OneAtATime(s: System, steps: seq<Step>)
    decreases |steps|
  {
    steps == [] || (AtMostOne(s.threads) && OneAtATime(Apply(s, steps[0]), steps[1..]))
  }

  /** Registrations that do not overlap keep one generation per root, whatever they ask for. */
  lemma {:induction false} SerialKeepOneGeneration(s: System, steps: seq<Step>)
    requires Separate(s) && OneAtATime(s, steps)
    ensures NeverOverlap(s, steps) && OneGeneration(Exec(s, steps).source.roots)
    decreases |steps|
  {
    if steps != [] {
      assert Apart(s.threads);
      SeparateStep(s, steps[0]);
      hide Apply, Apart, Separate, AtMostOne;
      SerialKeepOneGeneration(Apply(s, steps[0]), steps[1..]);
    }
  }

  // Never issued together.

  lemma {:induction false} AgreeingNeverOverlap(s: System, steps: seq<Step>)
    requires Agreeing(s.threads)
    ensures NeverOverlap(s, steps)
    decreases |steps|
  {
    if steps != [] {
      assert Apart(s.threads);
      if Enabled(s, steps[0]) {
        var thread := s.threads[steps[0].thread];
        NextIsSameRequest(s.source, thread, steps[0]);
      }
      assert Agreeing(Apply(s, steps[0]).threads);
      hide Apply, Apart, Agreeing;
      AgreeingNeverOverlap(Apply(s, steps[0]), steps[1..]);
    }
  }

  /** Registrations that all agree about generations keep one generation per root in every schedule. */
  lemma AgreeingKeepOneGeneration(s: System, steps: seq<Step>)
    requires Separate(s) && Agreeing(s.threads)
    ensures OneGeneration(Exec(s, steps).source.roots)
  {
    AgreeingNeverOverlap(s, steps);
    hide NeverOverlap, Separate, Agreeing;
    ApartKeepOneGeneration(s, steps);
  }

  /** An idle, open registry in which the thread is about to do the given thing. */
  ghost predicate Ready(s: System, id: nat, thread: Thread) {
    && !s.source.closed && s.holder.None? && id < |s.threads| && s.threads[id] == thread
    && |s.source.probed| < MAX_PROBED
  }

  function Go(id: nat): Step {
    Step(id, 0, ("", 0), true)
  }

  lemma StepProbe(s: System, id: nat, request: Request)
    requires Ready(s, id, Probe(request)) && s.source.roots == map[]
    ensures var t := Apply(s, Go(id));
            && t.threads == s.threads[id := Evict(request)] && t.holder.None? && !t.source.closed
            && t.source.roots == map[] && |t.source.probed| <= |s.source.probed| + 1
  {
    var kept := KeptProbes(s.source.probed, 0);
    SubmapSize(kept, s.source.probed);
    PutSize(kept, KeyOf(request.root), 0);
    hide KeptProbes;
  }

  lemma StepOpen(s: System, id: nat, request: Request)
    requires Ready(s, id, Open(request))
    ensures Apply(s, Go(id)) == s.(threads := s.threads[id := Check(request)])
  {
  }

  /** The first phase of a registration into an empty registry. */
  lemma FirstPhase(s: System, id: nat, request: Request)
    requires Ready(s, id, Begin(request)) && Acceptable(request) && s.source.roots == map[] && |s.source.probed| + 1 < MAX_PROBED
    ensures var t := Exec(s, [Go(id), Go(id), Go(id), Go(id)]);
            && t.threads == s.threads[id := Check(request)] && t.holder.None? && !t.source.closed
            && t.source.roots == map[] && |t.source.probed| <= |s.source.probed| + 1
  {
    var go := Go(id);
    var s1 := Apply(s, go);
    StepProbe(s1, id, request);
    var s2 := Apply(s1, go);
    var s3 := Apply(s2, go);
    StepOpen(s3, id, request);
    var s4 := Apply(s3, go);
    hide Apply;
    assert Exec(s4, []) == s4;
    assert Exec(s3, [go]) == s4 by { assert [go][1..] == []; }
    assert Exec(s2, [go, go]) == s4 by { assert [go, go][1..] == [go]; }
    assert Exec(s1, [go, go, go]) == s4 by { assert [go, go, go][1..] == [go, go]; }
    assert Exec(s, [go, go, go, go]) == s4 by { assert [go, go, go, go][1..] == [go, go, go]; }
    assert s4.threads == s.threads[id := Check(request)];
  }

  /** The second phase, where there is place. */
  lemma SecondPhase(s: System, id: nat, request: Request)
    requires Ready(s, id, Check(request)) && !NoPlace(s.source.roots, KeyOf(request.root))
    ensures var t := Exec(s, [Go(id), Go(id)]);
            && t.threads == s.threads[id := Returned(request, Ok(CapabilityOf(request)))]
            && t.holder.None? && !t.source.closed && t.source.probed == s.source.probed
            && t.source.roots == s.source.roots[KeyOf(request.root) := Enter(request, 0)]
  {
    var go := Go(id);
    var s1 := Apply(s, go);
    assert s1 == System(s.source, Some(id), s.threads[id := Commit(request)]);
    var s2 := Apply(s1, go);
    assert Exec(s2, []) == s2;
    assert Exec(s1, [go]) == s2 by { assert [go][1..] == []; }
    assert Exec(s, [go, go]) == s2 by { assert [go, go][1..] == [go]; }
    assert s2.threads == s.threads[id := Returned(request, Ok(CapabilityOf(request)))];
  }

  /** Two overlapping registrations for different generations can both end up registered. */
  lemma OverlapBreaksOneGeneration(s: System, a: nat, b: nat) returns (steps: seq<Step>)
    requires Connected(s) && a < |s.threads| && b < |s.threads|
    requires s.threads[a].Begin? && s.threads[b].Begin? && Acceptable(s.threads[a].request) && Acceptable(s.threads[b].request)
    requires Rivals(KeyOf(s.threads[a].request.root), KeyOf(s.threads[b].request.root))
    ensures !OneGeneration(Exec(s, steps).source.roots)
  {
    var ra, rb := s.threads[a].request, s.threads[b].request;
    var first, second := [Go(a), Go(a), Go(a), Go(a)], [Go(b), Go(b), Go(b), Go(b)];
    var third, fourth := [Go(a), Go(a)], [Go(b), Go(b)];
    FirstPhase(s, a, ra);
    var s1 := Exec(s, first);
    FirstPhase(s1, b, rb);
    var s2 := Exec(s1, second);
    SecondPhase(s2, a, ra);
    var s3 := Exec(s2, third);
    assert s3.source.roots == map[KeyOf(ra.root) := Enter(ra, 0)];
    SecondPhase(s3, b, rb);
    var s4 := Exec(s3, fourth);
    hide Exec;
    ExecConcat(s, first, second);
    ExecConcat(s, first + second, third);
    ExecConcat(s, first + second + third, fourth);
    steps := first + second + third + fourth;
    assert KeyOf(ra.root) in s4.source.roots && KeyOf(rb.root) in s4.source.roots;
  }

  ghost predicate AlwaysOneGeneration(s: System) {
    forall steps: seq<Step> :: OneGeneration(Exec(s, steps).source.roots)
  }

  /**
   * Operations issued together keep one generation per root under every interleaving exactly when
   * no two acceptable registrations among them name different generations of one root.
   */
  lemma OneGenerationIff(s: System)
    requires Connected(s)
    ensures AlwaysOneGeneration(s) <==> Agreeing(s.threads)
  {
    if Agreeing(s.threads) {
      assert Separate(s);
      hide Connected, Separate, Agreeing, OneGeneration, Exec;
      forall steps: seq<Step>
        ensures OneGeneration(Exec(s, steps).source.roots)
      {
        AgreeingKeepOneGeneration(s, steps);
      }
    } else {
      var a, b :| 0 <= a < |s.threads| && 0 <= b < |s.threads| && Underway(s.threads[a]) && Underway(s.threads[b])
                  && Rivals(KeyOf(s.threads[a].request.root), KeyOf(s.threads[b].request.root));
      assert NotStarted(s.threads[a]) && NotStarted(s.threads[b]);
      hide Connected, Agreeing, OneGeneration, Exec, Rivals;
      var steps := OverlapBreaksOneGeneration(s, a, b);
    }
  }
}
