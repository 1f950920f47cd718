/** The journal session as an object: each call in full, as a single thread runs it. */
module IdentitySession {
  import opened Options
  import opened IdentityJournal
  import opened IdentityRetention

  /** A key with the least time. */
  method Oldest(times: map<Key, nat>) returns (oldest: Key)
    requires times != map[]
    ensures OldestProbe(times, oldest)
  {
    oldest :| oldest in times;
    var rest := times.Keys;
    while rest != {}
      invariant rest <= times.Keys && oldest in times
      invariant forall key | key in times && key !in rest :: times[oldest] <= times[key]
      decreases |rest|
    {
      var key :| key in rest;
      if times[key] < times[oldest] {
        oldest := key;
      }
      rest := rest - {key};
    }
  }

  /** A live registration under the key. */
  predicate Live(roots: map<Key, Registration>, key: Key, now: nat) {
    key in roots && Recent(roots[key].lastUsed, now)
  }

  /** Whether a registration can succeed, from the state it finds. */
  predicate Registers(source: Source, request: Request, now: nat, openable: bool) {
    var key := KeyOf(request.root);
    && request.wellFormed && !source.closed && request.ownProcess && request.root.generation != 0
    && (if Live(source.roots, key, now) then SameClaim(source.roots[key], request) else openable)
  }

  /** The probe is noted, one of the oldest giving way if need be. */
  ghost predicate Noted(probed: map<Key, nat>, key: Key, now: nat, after: map<Key, nat>) {
    exists victim: Key :: after == NoteProbe(probed, key, now, victim)
                          && (ProbesFull(probed, key, now) ==> OldestProbe(KeptProbes(probed, now), victim))
  }

  /** The first phase of a registration, one of the oldest giving way if need be. */
  ghost predicate Placed(roots: map<Key, Registration>, request: Request, now: nat, after: map<Key, Registration>) {
    exists victim: Key :: after == MakeRoom(roots, request, now, victim)
                          && (RootsFull(roots, KeyOf(request.root), now) ==>
                                OldestRoot(KeptRoots(roots, KeyOf(request.root), now), victim))
  }

  lemma PlacedRetains(roots: map<Key, Registration>, request: Request, now: nat, made: map<Key, Registration>)
    requires Placed(roots, request, now, made)
    ensures Retains(roots, made, request, now)
  {
    hide MakeRoom, Retains;
    var victim :| made == MakeRoom(roots, request, now, victim)
                  && (RootsFull(roots, KeyOf(request.root), now) ==>
                        OldestRoot(KeptRoots(roots, KeyOf(request.root), now), victim));
    MakeRoomRetains(roots, request, now, victim);
  }

  lemma NotedRemembers(probed: map<Key, nat>, key: Key, now: nat, after: map<Key, nat>)
    requires Noted(probed, key, now, after)
    ensures Remembers(probed, after, key, now)
  {
    hide NoteProbe, Remembers;
    var victim :| after == NoteProbe(probed, key, now, victim)
                  && (ProbesFull(probed, key, now) ==> OldestProbe(KeptProbes(probed, now), victim));
    NoteProbeRemembers(probed, key, now, victim);
  }

  /** A registration that is tried at all: well formed, not after a closing and for this process. */
  predicate Tried(source: Source, request: Request) {
    request.wellFormed && !source.closed && request.ownProcess && request.root.generation != 0
  }

  // ---------------------------------------------------------------- the machine with a single thread

  function Alone(source: Source, thread: Thread): System {
    System(source, None, [thread])
  }

  /** Left to itself, the thread takes the machine from the one state to the other. */
  ghost predicate RunsTo(source: Source, thread: Thread, later: Source, end: Thread) {
    exists steps: seq<Step> :: Exec(Alone(source, thread), steps) == Alone(later, end)
  }

  lemma RunsOn(source: Source, thread: Thread, middle: Source, between: Thread, later: Source, end: Thread)
    requires RunsTo(source, thread, middle, between) && RunsTo(middle, between, later, end)
    ensures RunsTo(source, thread, later, end)
  {
    hide Exec;
    var first :| Exec(Alone(source, thread), first) == Alone(middle, between);
    var second :| Exec(Alone(middle, between), second) == Alone(later, end);
    ExecConcat(Alone(source, thread), first, second);
  }

  lemma RunsStep(source: Source, thread: Thread, step: Step)
    requires step.thread == 0 && VictimFits(source, thread, step.now, step.victim)
    requires !thread.Commit? && !Next(source, thread, step).Commit?
    ensures RunsTo(source, thread, Effect(source, thread, step), Next(source, thread, step))
  {
    hide Effect, Next, VictimFits;
    var s := Alone(source, thread);
    assert Apply(s, step) == Alone(Effect(source, thread, step), Next(source, thread, step));
    hide Apply;
    assert [step][1..] == [];
    assert Exec(s, [step]) == Apply(s, step);
  }

  lemma RunsFirstPhase(source: Source, request: Request, now: nat, made: Source)
    requires request.wellFormed && !source.closed && request.ownProcess && request.root.generation != 0
    requires Noted(source.probed, KeyOf(request.root), now, made.probed) && Placed(source.roots, request, now, made.roots)
    requires made.closed == source.closed
    ensures RunsTo(source, Begin(request), made, AfterEvict(source, request, now))
  {
    hide NoteProbe, MakeRoom, AfterEvict, RunsTo;
    var probe :| made.probed == NoteProbe(source.probed, KeyOf(request.root), now, probe)
                 && VictimFits(source, Probe(request), now, probe);
    var evicted :| made.roots == MakeRoom(source.roots, request, now, evicted)
                   && VictimFits(source, Evict(request), now, evicted);
    var noted := source.(probed := made.probed);
    EvictsAlike(source, noted, request, now, evicted);
    hide VictimFits, Noted, Placed;
    RunsStep(source, Begin(request), Step(0, now, probe, true));
    RunsStep(source, Probe(request), Step(0, now, probe, true));
    RunsStep(noted, Evict(request), Step(0, now, evicted, true));
    RunsOn(source, Begin(request), source, Probe(request), noted, Evict(request));
    RunsOn(source, Begin(request), noted, Evict(request), made, AfterEvict(source, request, now));
  }

  /** Where a registration stands after its first phase does not depend on the probes. */
  lemma EvictsAlike(source: Source, noted: Source, request: Request, now: nat, victim: Key)
    requires noted.roots == source.roots
    ensures AfterEvict(noted, request, now) == AfterEvict(source, request, now) && !AfterEvict(source, request, now).Commit?
    ensures VictimFits(noted, Evict(request), now, victim) <==> VictimFits(source, Evict(request), now, victim)
  {
  }

  lemma EndsFirstPhase(source: Source, request: Request, now: nat)
    ensures AfterEvict(source, request, now) ==
            if !Live(source.roots, KeyOf(request.root), now) then Open(request)
            else Returned(request, if SameClaim(source.roots[KeyOf(request.root)], request)
                                   then Ok(source.roots[KeyOf(request.root)].capability) else Err(InvalidRequest))
  {
  }

  lemma RunsSecondPhase(source: Source, request: Request, now: nat)
    requires !source.closed && !NoPlace(source.roots, KeyOf(request.root))
    ensures RunsTo(source, Open(request), source.(roots := source.roots[KeyOf(request.root) := Enter(request, now)]),
                   Returned(request, Ok(CapabilityOf(request))))
  {
    var step := Step(0, now, KeyOf(request.root), true);
    var ready := Alone(source, Check(request));
    RunsStep(source, Open(request), step);
    var entered := Apply(ready, step);
    assert entered == System(source, Some(0), [Commit(request)]);
    var last := Apply(entered, step);
    assert last == Alone(source.(roots := source.roots[KeyOf(request.root) := Enter(request, now)]),
                         Returned(request, Ok(CapabilityOf(request))));
    hide Apply, NoPlace, Enter;
    assert [step, step][1..] == [step] && [step][1..] == [];
    assert Exec(entered, [step]) == last;
    assert Exec(ready, [step, step]) == last;
    hide Exec;
    RunsOn(source, Open(request), source, Check(request), last.source, last.threads[0]);
  }

  /** What the first phase leaves: rivals are gone, everything else is as it was or gone. */
  lemma PlaceIsClean(roots: map<Key, Registration>, request: Request, now: nat, made: map<Key, Registration>)
    requires |roots| <= MAX_ROOTS && Placed(roots, request, now, made)
    ensures var key := KeyOf(request.root);
            && |made| <= MAX_ROOTS
            && (forall other | other in made :: other in roots && !Rivals(other, key))
            && (forall other | other in made && other != key :: made[other] == roots[other])
            && (Live(roots, key, now) && SameClaim(roots[key], request) ==>
                  key in made && made[key] == roots[key].(lastUsed := now))
            && (OneGeneration(roots) ==> OneGeneration(made) && OneGeneration(made[key := Enter(request, now)]))
  {
    hide Recent, Enter;
    var victim :| made == MakeRoom(roots, request, now, victim);
    MakeRoomFits(roots, request, now, victim);
  }

  lemma RunsRefused(source: Source, request: Request)
    requires !request.wellFormed || source.closed || !request.ownProcess || request.root.generation == 0
    ensures RunsTo(source, Begin(request), source,
                   Returned(request, Err(if request.wellFormed && source.closed then Closed else InvalidRequest)))
  {
    RunsStep(source, Begin(request), Step(0, 0, KeyOf(request.root), true));
    hide RunsTo;
  }

  /** A first phase that has made a place, and a root that is opened or not. */
  lemma RunsPast(source: Source, request: Request, now: nat, openable: bool, made: Source)
    requires RunsTo(source, Begin(request), made, AfterEvict(source, request, now))
    requires !made.closed && !Live(source.roots, KeyOf(request.root), now) && !NoPlace(made.roots, KeyOf(request.root))
    ensures openable ==>
              RunsTo(source, Begin(request), made.(roots := made.roots[KeyOf(request.root) := Enter(request, now)]),
                     Returned(request, Ok(CapabilityOf(request))))
    ensures !openable ==> RunsTo(source, Begin(request), made, Returned(request, Err(InvalidRequest)))
  {
    RunsStep(made, Open(request), Step(0, now, KeyOf(request.root), openable));
    hide RunsTo, NoPlace, Enter;
    var last := if openable then made.(roots := made.roots[KeyOf(request.root) := Enter(request, now)]) else made;
    if openable {
      RunsSecondPhase(made, request, now);
    }
    RunsOn(source, Begin(request), made, Open(request), last,
           Returned(request, if openable then Ok(CapabilityOf(request)) else Err(InvalidRequest)));
  }

  lemma RunsClose(source: Source)
    ensures RunsTo(source, StoreClosed, Source(map[], source.probed, true), CloseReturned)
  {
    var step := Step(0, 0, ("", 0), true);
    RunsStep(source, StoreClosed, step);
    RunsStep(source.(closed := true), ClearRoots, step);
    hide RunsTo;
    RunsOn(source, StoreClosed, source.(closed := true), ClearRoots, Source(map[], source.probed, true), CloseReturned);
  }

  class Session {
    var roots: map<Key, Registration>
    var probed: map<Key, nat>
    var closed: bool

    ghost function Value(): Source
      reads this
    {
      Source(roots, probed, closed)
    }

    constructor ()
      ensures Value() == Source(map[], map[], false)
    {
      roots, probed, closed := map[], map[], false;
    }

    method NoteProbed(key: Key, now: nat)
      requires |probed| <= MAX_PROBED
      modifies this`probed
      ensures |probed| <= MAX_PROBED && key in probed && probed[key] == now
      ensures Noted(old(probed), key, now, probed)
    {
      ghost var before := probed;
      ghost var victim: Key := key;
      probed := KeptProbes(probed, now);
      if |probed| >= MAX_PROBED && key !in probed {
        var oldest := Oldest(probed);
        victim := oldest;
        probed := probed - {oldest};
      }
      probed := probed[key := now];
      NoteProbeFits(before, key, now, victim);
      assert probed == NoteProbe(before, key, now, victim);
    }

    /** The first phase: the answer if a live registration decides it, else a place is made. */
    method MakePlace(request: Request, now: nat) returns (answer: Option<Result<Capability, Error>>)
      requires |roots| <= MAX_ROOTS
      modifies this`roots
      ensures Placed(old(roots), request, now, roots)
      ensures answer.Some? <==> Live(old(roots), KeyOf(request.root), now)
      ensures answer.Some? ==>
                answer.value == if SameClaim(old(roots)[KeyOf(request.root)], request)
                                then Ok(old(roots)[KeyOf(request.root)].capability) else Err(InvalidRequest)
      ensures answer.None? ==> |roots| < MAX_ROOTS && KeyOf(request.root) !in roots
    {
      ghost var before := roots;
      var key := KeyOf(request.root);
      ghost var kept := KeptRoots(before, key, now);
      SubmapSize(kept, before);
      roots := KeptRoots(roots, key, now);
      if key in roots {
        assert kept[key] == before[key];
        assert RootsFull(before, key, now) ==> OldestRoot(kept, key);
        if roots[key].root == request.root && roots[key].caller == request.caller {
          answer := Some(Ok(roots[key].capability));
          roots := roots[key := roots[key].(lastUsed := now)];
          assert roots == MakeRoom(before, request, now, key);
        } else {
          answer := Some(Err(InvalidRequest));
          assert roots == MakeRoom(before, request, now, key);
        }
        return;
      }
      answer := None;
      if |roots| >= MAX_ROOTS {
        var times := map k | k in roots :: roots[k].lastUsed;
        assert times.Keys == roots.Keys;
        var victim := Oldest(times);
        assert forall other | other in kept :: times[other] == kept[other].lastUsed;
        assert OldestRoot(kept, victim);
        roots := roots - {victim};
        assert roots.Keys == kept.Keys - {victim};
        assert roots == MakeRoom(before, request, now, victim);
      } else {
        assert roots == MakeRoom(before, request, now, key);
      }
    }

    /** The second phase. */
    method Insert(request: Request, now: nat) returns (answer: Result<Capability, Error>)
      modifies this`roots
      ensures closed ==> answer == Err(Closed) && roots == old(roots)
      ensures !closed && NoPlace(old(roots), KeyOf(request.root)) ==> answer == Err(CapacityExceeded) && roots == old(roots)
      ensures !closed && !NoPlace(old(roots), KeyOf(request.root)) ==>
                answer == Ok(CapabilityOf(request)) && roots == old(roots)[KeyOf(request.root) := Enter(request, now)]
    {
      var key := KeyOf(request.root);
      if closed {
        return Err(Closed);
      }
      if |roots| >= MAX_ROOTS || key in roots {
        return Err(CapacityExceeded);
      }
      roots := roots[key := Registration(request.root, request.caller, CapabilityOf(request), now)];
      answer := Ok(CapabilityOf(request));
    }

    /**
     * A registration that nothing interrupts. It never runs out of capacity, it leaves no other
     * generation of its root behind, and every other registration is as it was or gone.
     */
    method RegisterRoot(request: Request, now: nat, openable: bool) returns (answer: Result<Capability, Error>)
      requires Bounded(Value())
      modifies this
      ensures Bounded(Value()) && closed == old(closed)
      ensures answer.Ok? <==> Registers(old(Value()), request, now, openable)
      ensures answer == Err(Closed) <==> request.wellFormed && old(closed)
      ensures answer != Err(CapacityExceeded)
      ensures answer.Ok? ==> KeyOf(request.root) in roots && SameClaim(roots[KeyOf(request.root)], request)
                             && roots[KeyOf(request.root)].capability == answer.value
                             && forall key | key in roots :: !Rivals(key, KeyOf(request.root))
      ensures forall key | key in roots && key != KeyOf(request.root) :: key in old(roots) && roots[key] == old(roots)[key]
      ensures OneGeneration(old(roots)) ==> OneGeneration(roots)
      ensures !Tried(old(Value()), request) ==> Value() == old(Value())
      ensures Tried(old(Value()), request) ==>
                && Remembers(old(probed), probed, KeyOf(request.root), now)
                && exists made :: Retains(old(roots), made, request, now)
                                  && roots == if answer.Ok? && KeyOf(request.root) !in made
                                              then made[KeyOf(request.root) := Enter(request, now)] else made
      ensures RunsTo(old(Value()), Begin(request), Value(), Returned(request, answer))
    {
      hide Noted, Placed, Retains, Remembers, AfterEvict, Live, OneGeneration, RunsTo;
      ghost var source := Value();
      if !request.wellFormed || closed || !request.ownProcess || request.root.generation == 0 {
        RunsRefused(source, request);
      }
      if !request.wellFormed {
        return Err(InvalidRequest);
      }
      if closed {
        return Err(Closed);
      }
      if !request.ownProcess || request.root.generation == 0 {
        return Err(InvalidRequest);
      }
      NoteProbed(KeyOf(request.root), now);
      var found := MakePlace(request, now);
      PlaceIsClean(source.roots, request, now, roots);
      NotedRemembers(source.probed, KeyOf(request.root), now, probed);
      PlacedRetains(source.roots, request, now, roots);
      EndsFirstPhase(source, request, now);
      RunsFirstPhase(source, request, now, Value());
      if found.None? {
        RunsPast(source, request, now, openable, Value());
      }
      if found.Some? {
        return found.value;
      }
      if !openable {
        return Err(InvalidRequest);
      }
      PutSize(roots, KeyOf(request.root), Enter(request, now));
      answer := Insert(request, now);
    }

    /** Only the caller, root and capability that were registered pass; the entry is marked as used. */
    method QueryJournal(request: Request, capability: Capability, now: nat) returns (accepted: bool)
      modifies this`roots
      ensures accepted <==> request.wellFormed && QueryMatches(old(roots), request, capability)
      ensures roots == if accepted then Touch(old(roots), KeyOf(request.root), now) else old(roots)
      ensures request.wellFormed ==> RunsTo(old(Value()), Query(request, capability), Value(), Done)
    {
      RunsStep(Value(), Query(request, capability), Step(0, now, KeyOf(request.root), true));
      hide RunsTo;
      var key := KeyOf(request.root);
      if !request.wellFormed || key !in roots {
        return false;
      }
      var entry := roots[key];
      if entry.caller != request.caller || entry.capability != capability || entry.root != request.root {
        return false;
      }
      roots := roots[key := entry.(lastUsed := now)];
      accepted := true;
    }

    method Close()
      modifies this`closed, this`roots
      ensures closed && roots == map[]
      ensures RunsTo(old(Value()), StoreClosed, Value(), CloseReturned)
    {
      RunsClose(Value());
      closed := true;
      roots := map[];
    }

    /** A baseline may be probed unless it was within the last minute; a refusal renews the record. */
    method CanProbeBaseline(key: Key, now: nat) returns (can: bool)
      requires |probed| <= MAX_PROBED
      modifies this`probed
      ensures can <==> !(key in old(probed) && Recent(old(probed)[key], now))
      ensures |probed| <= MAX_PROBED && (key in probed <==> !can)
      ensures !can ==> probed[key] == now
      ensures forall other | other != key :: other in probed <==> other in old(probed) && Recent(old(probed)[other], now)
      ensures RunsTo(old(Value()), CanProbe(key), Value(), Done)
    {
      RunsStep(Value(), CanProbe(key), Step(0, now, key, true));
      hide RunsTo;
      SubmapSize(KeptProbes(probed, now), probed);
      probed := KeptProbes(probed, now);
      can := key !in probed;
      PutSize(probed, key, now);
      if !can {
        probed := probed[key := now];
      }
    }
  }
}
