/** Which registrations and probes outlive a step of the registry. */
module IdentityRetention {
  import opened Options
  import opened IdentityJournal

  /** A registration used within the last 60 seconds that is no other generation of the wanted root. */
  predicate Stays(roots: map<Key, Registration>, key: Key, wanted: Key, now: nat) {
    key in roots && (key.0 == wanted.0 ==> key.1 == wanted.1) && now < roots[key].lastUsed + 60
  }

  function Staying(roots: map<Key, Registration>, wanted: Key, now: nat): set<Key> {
    set key | key in roots && Stays(roots, key, wanted, now)
  }

  /** All of them but one that was used least recently. */
  ghost predicate AllButOldest(roots: map<Key, Registration>, staying: set<Key>, left: set<Key>)
    requires staying <= roots.Keys
  {
    exists gone: Key :: gone in staying && left == staying - {gone}
                        && forall other | other in staying :: roots[gone].lastUsed <= roots[other].lastUsed
  }

  /**
   * What the first phase of a registration keeps: every registration that stays, as it was, except
   * that one used least recently goes if eight stay and the wanted one is not among them, and that
   * the wanted one is marked as used if it is claimed again.
   */
  ghost predicate Retains(before: map<Key, Registration>, after: map<Key, Registration>, request: Request, now: nat) {
    var wanted := (request.root.id, request.root.generation);
    var staying := Staying(before, wanted, now);
    && (if wanted !in staying && |staying| >= 8 then AllButOldest(before, staying, after.Keys) else after.Keys == staying)
    && (forall key | key in after && key in before && key != wanted :: after[key] == before[key])
    && (wanted in after && wanted in before ==>
          after[wanted] == if before[wanted].root == request.root && before[wanted].caller == request.caller
                           then before[wanted].(lastUsed := now) else before[wanted])
  }

  /** Probes of the last 60 seconds stay, but for an oldest one if 64 stay and the key is not among them. */
  ghost predicate Remembers(before: map<Key, nat>, after: map<Key, nat>, key: Key, now: nat) {
    var recent := Recently(before, now);
    && (if key !in recent && |recent| >= 64 then
          exists gone: Key :: gone in recent && after.Keys == recent - {gone} + {key}
                              && forall other | other in recent :: before[gone] <= before[other]
        else after.Keys == recent + {key})
    && key in after && after[key] == now
    && forall other | other in after && other in before && other != key :: after[other] == before[other]
  }

  lemma KeptIsStaying(roots: map<Key, Registration>, wanted: Key, now: nat)
    ensures KeptRoots(roots, wanted, now).Keys == Staying(roots, wanted, now) <= roots.Keys
    ensures forall key | key in KeptRoots(roots, wanted, now) :: KeptRoots(roots, wanted, now)[key] == roots[key]
    ensures |KeptRoots(roots, wanted, now)| == |Staying(roots, wanted, now)|
  {
    var kept := KeptRoots(roots, wanted, now);
    assert kept.Keys == Staying(roots, wanted, now);
    assert |kept| == |kept.Keys|;
  }

  lemma MakeRoomRetains(roots: map<Key, Registration>, request: Request, now: nat, victim: Key)
    requires RootsFull(roots, KeyOf(request.root), now) ==>
               OldestRoot(KeptRoots(roots, KeyOf(request.root), now), victim)
    ensures Retains(roots, MakeRoom(roots, request, now, victim), request, now)
  {
    var wanted := KeyOf(request.root);
    KeptIsStaying(roots, wanted, now);
    hide KeptRoots, Staying;
    var kept, staying, made := KeptRoots(roots, wanted, now), Staying(roots, wanted, now), MakeRoom(roots, request, now, victim);
    if wanted !in staying && |staying| >= 8 {
      assert victim in staying && made.Keys == staying - {victim};
      assert forall other | other in staying :: roots[victim].lastUsed <= roots[other].lastUsed;
    } else {
      assert made.Keys == staying;
    }
  }

  function Recently(probed: map<Key, nat>, now: nat): set<Key> {
    set key | key in probed && now < probed[key] + 60
  }

  lemma KeptIsRecent(probed: map<Key, nat>, now: nat)
    ensures KeptProbes(probed, now).Keys == Recently(probed, now) <= probed.Keys
    ensures forall key | key in KeptProbes(probed, now) :: KeptProbes(probed, now)[key] == probed[key]
    ensures |KeptProbes(probed, now)| == |Recently(probed, now)|
  {
    var kept := KeptProbes(probed, now);
    assert kept.Keys == Recently(probed, now);
    assert |kept| == |kept.Keys|;
  }

  lemma NoteProbeRemembers(probed: map<Key, nat>, key: Key, now: nat, victim: Key)
    requires ProbesFull(probed, key, now) ==> OldestProbe(KeptProbes(probed, now), victim)
    ensures Remembers(probed, NoteProbe(probed, key, now, victim), key, now)
  {
    KeptIsRecent(probed, now);
    hide KeptProbes, Recently;
    var recent, noted := Recently(probed, now), NoteProbe(probed, key, now, victim);
    if key !in recent && |recent| >= 64 {
      assert victim in recent && noted.Keys == recent - {victim} + {key};
    } else {
      assert noted.Keys == recent + {key};
    }
  }

  /** In every interleaving the first phase of a registration keeps what it should. */
  lemma EvictRetains(s: System, step: Step)
    requires Enabled(s, step) && s.threads[step.thread].Evict?
    ensures var source := Apply(s, step).source;
            && Retains(s.source.roots, source.roots, s.threads[step.thread].request, step.now)
            && source.probed == s.source.probed && source.closed == s.source.closed
  {
    MakeRoomRetains(s.source.roots, s.threads[step.thread].request, step.now, step.victim);
    hide Retains, MakeRoom;
  }

  /** And noting a probe keeps the probes it should. */
  lemma ProbeRemembers(s: System, step: Step)
    requires Enabled(s, step) && s.threads[step.thread].Probe?
    ensures var source := Apply(s, step).source;
            && Remembers(s.source.probed, source.probed, KeyOf(s.threads[step.thread].request.root), step.now)
            && source.roots == s.source.roots && source.closed == s.source.closed
  {
    NoteProbeRemembers(s.source.probed, KeyOf(s.threads[step.thread].request.root), step.now, step.victim);
    hide Remembers, NoteProbe;
  }

  /** At most the time of use of the key differs. */
  ghost predicate SameButUse(before: map<Key, Registration>, after: map<Key, Registration>, key: Key, now: nat) {
    after == before || (key in before && after == before[key := before[key].(lastUsed := now)])
  }

  /**
   * Registrations are gained by an insertion alone, where there is place and the key is free, and lost
   * by a closing or as the first phase of a registration says; every other step leaves them as they
   * are or marks one as used.
   */
  lemma RegistrationsChangeOnlyBy(s: System, step: Step)
    ensures var before, after := s.source.roots, Apply(s, step).source.roots;
            if Enabled(s, step) then ChangesBy(s.threads[step.thread], before, after, step.now) else after == before
  {
    if Enabled(s, step) {
      EffectChanges(s.source, s.threads[step.thread], step);
      hide Effect, Next, ChangesBy, VictimFits;
    }
  }

  ghost predicate ChangesBy(thread: Thread, before: map<Key, Registration>, after: map<Key, Registration>, now: nat) {
    match thread
    case Evict(request) => Retains(before, after, request, now)
    case Commit(request) =>
      after == if KeyOf(request.root) in before || |before| >= 8 then before
               else before[KeyOf(request.root)
                           := Registration(request.root, request.caller, Capability(request.caller, request.root), now)]
    case ClearRoots => after == map[]
    case Query(request, _) => SameButUse(before, after, KeyOf(request.root), now)
    case TouchRoot(key) => SameButUse(before, after, key, now) && (key in before ==> after[key].lastUsed == now)
    case _ => after == before
  }

  lemma EffectChanges(source: Source, thread: Thread, step: Step)
    requires VictimFits(source, thread, step.now, step.victim)
    ensures ChangesBy(thread, source.roots, Effect(source, thread, step).roots, step.now)
  {
    match thread {
      case Evict(request) =>
        MakeRoomRetains(source.roots, request, step.now, step.victim);
        hide MakeRoom, Retains, KeptRoots;
      case Commit(request) =>
        hide VictimFits;
      case Query(request, _) =>
        hide VictimFits;
      case TouchRoot(key) =>
        hide VictimFits;
      case _ =>
        hide VictimFits, NoteProbe, KeptProbes;
    }
  }

  /** A lookup that comes after the closing does not touch the registry; one before it goes on to mark its root. */
  lemma LookupHeedsTheClosing(s: System, id: nat, first: Step, second: Step)
    requires id < |s.threads| && s.threads[id].FindRoot? && first.thread == id == second.thread && s.holder.None?
    ensures var key := s.threads[id].key;
            var t := Apply(Apply(s, first), second);
            && t.threads[id] == Done
            && (s.source.closed ==> t.source == s.source)
            && (!s.source.closed && key in s.source.roots ==>
                  t.source.roots == s.source.roots[key := s.source.roots[key].(lastUsed := second.now)])
  {
    hide KeptProbes, NoteProbe, MakeRoom, KeptRoots;
  }
}
