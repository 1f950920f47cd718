/** What every interleaving of publications keeps: exclusivity, conservation of bytes, the budget. */
module PreviewCacheProofs {
  import opened Options
  import opened MapSums
  import opened PreviewCache

  // ---------------------------------------------------------------- ownership of staging targets

  predicate Holds(phase: Phase) {
    !phase.Waiting? && !phase.Done?
  }

  ghost predicate Owns(jobs: map<JobId, Job>, job: JobId, target: Path) {
    job in jobs && Holds(jobs[job].phase) && jobs[job].target == target
  }

  /** No two publications hold the same artifact path. */
  ghost predicate Exclusive(jobs: map<JobId, Job>) {
    forall i, j, target :: Owns(jobs, i, target) && Owns(jobs, j, target) ==> i == j
  }

  /** `staging_targets` is exactly the set of the paths that publications hold. */
  ghost predicate Tracked(s: Store) {
    && (forall job, target :: Owns(s.jobs, job, target) ==> target in s.targets)
    && (forall target :: target in s.targets ==> exists job :: Owns(s.jobs, job, target))
  }

  ghost predicate Staging(s: Store) {
    Exclusive(s.jobs) && Tracked(s)
  }

  ghost function OwnerOf(s: Store, target: Path): (job: JobId)
    requires Staging(s) && target in s.targets
    ensures Owns(s.jobs, job, target)
  {
    var job :| Owns(s.jobs, job, target);
    job
  }

  // ---------------------------------------------------------------- accounted bytes

  /** Bytes that a publication has added to `used_bytes` and not yet handed over or released. */
  function Charge(phase: Phase): nat {
    match phase
    case Reserved(staged) => staged
    case Staged(staged, _) => staged
    case Committing(staged, _) => staged
    case Locked(staged, _) => staged
    case Sized(staged, _, _) => staged
    case Admitted(staged, _, _) => staged
    case Removing(staging) => staging
    case Releasing(bytes) => bytes
    case Exchanging(bytes, _) => bytes
    case _ => 0
  }

  /** The staged preview may still become the installed artifact. */
  predicate Committable(phase: Phase) {
    phase.Reserved? || phase.Staged? || phase.Committing? || phase.Locked? || phase.Sized? || phase.Admitted?
  }

  ghost function PhaseAt(s: Store, target: Path): Phase
    requires Staging(s) && target in s.targets
  {
    s.jobs[OwnerOf(s, target)].phase
  }

  ghost function Charges(s: Store): map<Path, nat>
    requires Staging(s)
  {
    map target | target in s.targets :: Charge(PhaseAt(s, target))
  }

  /** The outstanding staged previews by artifact path. */
  ghost function Outstanding(s: Store): map<Path, nat>
    requires Staging(s)
  {
    map target | target in s.targets && Committable(PhaseAt(s, target)) :: Charge(PhaseAt(s, target))
  }

  ghost predicate Conserved(s: Store)
    requires Staging(s)
  {
    s.used == Sum(s.artifacts) + s.retained + s.stranded + Sum(Charges(s))
  }

  /** Sizes a publication has read stay true while it holds its target. */
  ghost predicate Fresh(s: Store, job: Job) {
    match job.phase
    case Reserving(_, replaced, _) => replaced == 0 || replaced == SizeAt(s.artifacts, job.target)
    case Sized(_, _, previous) => Reads(s, job.target, previous)
    case Admitted(_, _, previous) => Reads(s, job.target, previous)
    case _ => true
  }

  ghost predicate Reads(s: Store, target: Path, previous: Option<nat>) {
    match previous
    case Some(bytes) => target in s.artifacts && s.artifacts[target] == bytes
    case None => target !in s.artifacts
  }

  predicate UnderLock(phase: Phase) {
    phase.Locked? || phase.Sized? || phase.Admitted? || phase.Removing? || phase.Releasing? ||
    phase.Exchanging? || phase.Finishing?
  }

  /** Neither the budget nor an artifact comes near the width of the counter. */
  ghost predicate Roomy(s: Store) {
    && 2 * s.budget <= U64_MAX
    && (forall job | job in s.jobs && Committable(s.jobs[job].phase) :: Charge(s.jobs[job].phase) <= s.budget)
    && (forall path | path in s.artifacts :: s.budget + s.artifacts[path] <= U64_MAX)
  }

  ghost predicate Inv(s: Store) {
    && Staging(s)
    && Conserved(s)
    && Roomy(s)
    && AllFresh(s)
    && Locking(s)
  }

  ghost predicate AllFresh(s: Store) {
    forall job | job in s.jobs :: Fresh(s, s.jobs[job])
  }

  /** The install lock is held by one publication past its acquisition. */
  ghost predicate Locking(s: Store) {
    && (s.installLock.Some? ==> s.installLock.value in s.jobs && UnderLock(s.jobs[s.installLock.value].phase))
    && (forall job | job in s.jobs && MustLock(s.jobs[job].phase) :: s.installLock == Some(job))
  }

  predicate MustLock(phase: Phase) {
    phase.Locked? || phase.Sized? || phase.Admitted?
  }

  /** Counted files that no publication can remove any more. */
  function Leftovers(s: Store): nat {
    s.retained + s.stranded
  }

  /**
   * Every reachable store: the bookkeeping invariant, and every subset settles below the ceiling.
   * The ceiling leaves room for the leftovers, so that the budget bounds everything counted.
   */
  ghost predicate Safe(s: Store, ceiling: nat) {
    Inv(s) && s.budget <= ceiling + Leftovers(s) && WithinBudget(s.artifacts, Outstanding(s), ceiling)
  }

  // ---------------------------------------------------------------- the settled size of a subset

  /** The artifacts after the staged previews of `chosen` commit and every other one is discarded. */
  ghost function Overlay(artifacts: map<Path, nat>, staged: map<Path, nat>, chosen: set<Path>): map<Path, nat>
    requires chosen <= staged.Keys
  {
    map path | path in artifacts.Keys + chosen :: if path in chosen then staged[path] else artifacts[path]
  }

  ghost predicate WithinBudget(artifacts: map<Path, nat>, staged: map<Path, nat>, ceiling: nat) {
    forall chosen | chosen <= staged.Keys :: Sum(Overlay(artifacts, staged, chosen)) <= ceiling
  }

  /** Adding one more committing preview replaces exactly the artifact at its own path. */
  lemma OverlayWith(artifacts: map<Path, nat>, staged: map<Path, nat>, chosen: set<Path>, target: Path)
    requires chosen <= staged.Keys && target in staged && target !in chosen
    ensures Sum(Overlay(artifacts, staged, chosen + {target}))
         == Sum(Overlay(artifacts, staged, chosen)) - SizeAt(artifacts, target) + staged[target]
  {
    var before := Overlay(artifacts, staged, chosen);
    assert Overlay(artifacts, staged, chosen + {target}) == before[target := staged[target]];
    SumPut(before, target, staged[target]);
  }

  lemma {:induction false} OverlayBound(artifacts: map<Path, nat>, staged: map<Path, nat>, chosen: set<Path>)
    requires chosen <= staged.Keys
    ensures Sum(Overlay(artifacts, staged, chosen)) <= Sum(artifacts) + Sum(map path | path in chosen :: staged[path])
    decreases chosen
  {
    if chosen == {} {
      assert Overlay(artifacts, staged, chosen) == artifacts;
    } else {
      var target :| target in chosen;
      var rest := chosen - {target};
      OverlayBound(artifacts, staged, rest);
      OverlayWith(artifacts, staged, rest, target);
      assert rest + {target} == chosen;
      var picked := map path | path in chosen :: staged[path];
      SumWithout(picked, target);
      assert picked - {target} == map path | path in rest :: staged[path];
    }
  }

  /** One admission: what `reserve_staged` checks is enough for every subset. */
  lemma AdmitKeepsBudget(artifacts: map<Path, nat>, staged: map<Path, nat>, target: Path, bytes: nat, ceiling: nat)
    requires WithinBudget(artifacts, staged, ceiling)
    requires target !in staged
    requires Sum(artifacts) + Sum(staged) + bytes <= ceiling + SizeAt(artifacts, target)
    ensures WithinBudget(artifacts, staged[target := bytes], ceiling)
  {
    var grown := staged[target := bytes];
    forall chosen | chosen <= grown.Keys
      ensures Sum(Overlay(artifacts, grown, chosen)) <= ceiling
    {
      var rest := chosen - {target};
      assert rest <= staged.Keys;
      if target in chosen {
        hide Overlay, WithinBudget;
        AdmitOne(artifacts, staged, rest, target, bytes, ceiling);
        assert rest + {target} == chosen;
      } else {
        assert rest == chosen;
        SameOverlay(artifacts, staged, grown, chosen);
      }
    }
  }

  lemma SameOverlay(artifacts: map<Path, nat>, staged: map<Path, nat>, other: map<Path, nat>, chosen: set<Path>)
    requires chosen <= staged.Keys && chosen <= other.Keys && forall path | path in chosen :: staged[path] == other[path]
    ensures Overlay(artifacts, staged, chosen) == Overlay(artifacts, other, chosen)
  {
  }

  lemma AdmitOne(artifacts: map<Path, nat>, staged: map<Path, nat>, rest: set<Path>, target: Path, bytes: nat, ceiling: nat)
    requires target !in staged && rest <= staged.Keys
    requires Sum(artifacts) + Sum(staged) + bytes <= ceiling + SizeAt(artifacts, target)
    ensures Sum(Overlay(artifacts, staged[target := bytes], rest + {target})) <= ceiling
  {
    hide Sum;
    var grown := staged[target := bytes];
    assert Overlay(artifacts, grown, rest) == Overlay(artifacts, staged, rest);
    OverlayWith(artifacts, grown, rest, target);
    OverlayBound(artifacts, staged, rest);
    SumOfPart(map path | path in rest :: staged[path], staged);
  }

  lemma ShrinkKeepsBudget(artifacts: map<Path, nat>, staged: map<Path, nat>, fewer: map<Path, nat>, ceiling: nat)
    requires WithinBudget(artifacts, staged, ceiling)
    requires fewer.Keys <= staged.Keys && forall path | path in fewer :: fewer[path] == staged[path]
    ensures WithinBudget(artifacts, fewer, ceiling)
  {
    hide Overlay;
    forall chosen | chosen <= fewer.Keys
      ensures Sum(Overlay(artifacts, fewer, chosen)) <= ceiling
    {
      assert chosen <= staged.Keys;
      SameOverlay(artifacts, fewer, staged, chosen);
    }
  }

  lemma InstallKeepsBudget(artifacts: map<Path, nat>, staged: map<Path, nat>, target: Path, ceiling: nat)
    requires WithinBudget(artifacts, staged, ceiling)
    requires target in staged
    ensures WithinBudget(artifacts[target := staged[target]], staged - {target}, ceiling)
  {
    var installed := artifacts[target := staged[target]];
    forall chosen | chosen <= (staged - {target}).Keys
      ensures Sum(Overlay(installed, staged - {target}, chosen)) <= ceiling
    {
      assert Overlay(installed, staged - {target}, chosen) == Overlay(artifacts, staged, chosen + {target});
    }
  }

  lemma LossKeepsBudget(artifacts: map<Path, nat>, staged: map<Path, nat>, target: Path, ceiling: nat)
    requires WithinBudget(artifacts, staged, ceiling)
    ensures WithinBudget(artifacts - {target}, staged - {target}, ceiling)
  {
    forall chosen | chosen <= (staged - {target}).Keys
      ensures Sum(Overlay(artifacts - {target}, staged - {target}, chosen)) <= ceiling
    {
      SumOfPart(Overlay(artifacts - {target}, staged - {target}, chosen), Overlay(artifacts, staged, chosen));
    }
  }

  // ---------------------------------------------------------------- moving one publication

  lemma OwnerIs(s: Store, job: JobId, target: Path)
    requires Staging(s) && Owns(s.jobs, job, target)
    ensures target in s.targets && OwnerOf(s, target) == job
  {
  }

  /** A publication that moves between two holding phases leaves ownership as it was. */
  lemma MovedStaging(s: Store, after: Store, job: JobId, phase: Phase)
    requires Staging(s) && job in s.jobs && Holds(s.jobs[job].phase) && Holds(phase)
    requires after.jobs == s.jobs[job := s.jobs[job].(phase := phase)] && after.targets == s.targets
    ensures Staging(after)
    ensures forall path | path in s.targets && path != s.jobs[job].target :: PhaseAt(after, path) == PhaseAt(s, path)
  {
    assert forall i, path :: Owns(after.jobs, i, path) <==> Owns(s.jobs, i, path);
    forall target | target in s.targets
      ensures exists i :: Owns(after.jobs, i, target)
    {
      assert Owns(after.jobs, OwnerOf(s, target), target);
    }
    forall path | path in s.targets && path != s.jobs[job].target
      ensures PhaseAt(after, path) == PhaseAt(s, path)
    {
      OwnerIs(after, OwnerOf(s, path), path);
      assert OwnerOf(s, path) != job;
    }
  }

  /** Two stores whose held paths, apart from one, belong to publications in the same phases. */
  lemma SameTables(s: Store, after: Store, target: Path)
    requires Staging(s) && Staging(after)
    requires forall path | path != target :: path in s.targets <==> path in after.targets
    requires forall path | path != target && path in s.targets :: PhaseAt(after, path) == PhaseAt(s, path)
    ensures Charges(after) - {target} == Charges(s) - {target}
    ensures Outstanding(after) - {target} == Outstanding(s) - {target}
  {
  }

  lemma EntryOf(s: Store, job: JobId)
    requires Staging(s) && job in s.jobs && Holds(s.jobs[job].phase)
    ensures s.jobs[job].target in s.targets && PhaseAt(s, s.jobs[job].target) == s.jobs[job].phase
    ensures Sum(Charges(s)) == Sum(Charges(s) - {s.jobs[job].target}) + Charge(s.jobs[job].phase)
    ensures Outstanding(s) == if Committable(s.jobs[job].phase)
                              then (Outstanding(s) - {s.jobs[job].target})[s.jobs[job].target := Charge(s.jobs[job].phase)]
                              else Outstanding(s) - {s.jobs[job].target}
  {
    var target := s.jobs[job].target;
    assert Owns(s.jobs, job, target);
    OwnerIs(s, job, target);
    SumWithout(Charges(s), target);
  }

  lemma PutAgain(table: map<Path, nat>, target: Path, bytes: nat)
    ensures (table - {target})[target := bytes] == table[target := bytes]
  {
  }

  /** It changes only its own entry in both tables. */
  lemma Moved(s: Store, after: Store, job: JobId, phase: Phase)
    requires Staging(s) && job in s.jobs && Holds(s.jobs[job].phase) && Holds(phase)
    requires after.jobs == s.jobs[job := s.jobs[job].(phase := phase)] && after.targets == s.targets
    ensures Staging(after)
    ensures s.jobs[job].target in Outstanding(s) <==> Committable(s.jobs[job].phase)
    ensures Committable(s.jobs[job].phase) ==> Outstanding(s)[s.jobs[job].target] == Charge(s.jobs[job].phase)
    ensures Sum(Charges(after)) == Sum(Charges(s)) - Charge(s.jobs[job].phase) + Charge(phase)
    ensures Outstanding(after) == if Committable(phase) then Outstanding(s)[s.jobs[job].target := Charge(phase)]
                                  else Outstanding(s) - {s.jobs[job].target}
  {
    var target := s.jobs[job].target;
    MovedStaging(s, after, job, phase);
    EntryOf(s, job);
    EntryOf(after, job);
    SameTables(s, after, target);
    PutAgain(Outstanding(s), target, Charge(phase));
  }

  lemma EnteredStaging(s: Store, after: Store, job: JobId)
    requires Staging(s) && job in s.jobs && s.jobs[job].phase.Waiting? && s.jobs[job].target !in s.targets
    requires after.jobs == s.jobs[job := s.jobs[job].(phase := Holding)]
    requires after.targets == s.targets + {s.jobs[job].target}
    ensures Staging(after)
    ensures forall path | path in s.targets :: OwnerOf(after, path) == OwnerOf(s, path) != job
  {
    var target := s.jobs[job].target;
    assert Owns(after.jobs, job, target);
    assert forall i, path :: Owns(after.jobs, i, path) <==> ((i == job && path == target) || Owns(s.jobs, i, path));
    forall path | path in s.targets
      ensures Owns(after.jobs, OwnerOf(s, path), path)
    {
    }
    forall path | path in s.targets
      ensures OwnerOf(after, path) == OwnerOf(s, path)
    {
      OwnerIs(after, OwnerOf(s, path), path);
    }
  }

  /** Taking a free target charges nothing. */
  lemma Entered(s: Store, after: Store, job: JobId)
    requires Staging(s) && job in s.jobs && s.jobs[job].phase.Waiting? && s.jobs[job].target !in s.targets
    requires after.jobs == s.jobs[job := s.jobs[job].(phase := Holding)]
    requires after.targets == s.targets + {s.jobs[job].target}
    ensures Staging(after)
    ensures Sum(Charges(after)) == Sum(Charges(s)) && Outstanding(after) == Outstanding(s)
  {
    var target := s.jobs[job].target;
    hide Staging;
    EnteredStaging(s, after, job);
    NoEntry(s, target);
    EntryOf(after, job);
    SameTables(s, after, target);
    hide Charges, Outstanding, PhaseAt;
  }

  lemma NoEntry(s: Store, target: Path)
    requires Staging(s) && target !in s.targets
    ensures Charges(s) - {target} == Charges(s) && Outstanding(s) - {target} == Outstanding(s)
  {
  }

  lemma LeftStaging(s: Store, after: Store, job: JobId)
    requires Staging(s) && job in s.jobs && s.jobs[job].phase.Finishing?
    requires after.jobs == s.jobs[job := s.jobs[job].(phase := Done)]
    requires after.targets == s.targets - {s.jobs[job].target}
    ensures Staging(after)
    ensures forall path | path in after.targets :: OwnerOf(after, path) == OwnerOf(s, path) != job
  {
    var target := s.jobs[job].target;
    assert Owns(s.jobs, job, target);
    assert forall i, path :: Owns(after.jobs, i, path) <==> (i != job && Owns(s.jobs, i, path));
    forall path | path in after.targets
      ensures Owns(after.jobs, OwnerOf(s, path), path)
    {
    }
    forall path | path in after.targets
      ensures OwnerOf(after, path) == OwnerOf(s, path)
    {
      OwnerIs(after, OwnerOf(s, path), path);
    }
  }

  /** Dropping the last guard frees the target and charges nothing. */
  lemma Left(s: Store, after: Store, job: JobId)
    requires Staging(s) && job in s.jobs && s.jobs[job].phase.Finishing?
    requires after.jobs == s.jobs[job := s.jobs[job].(phase := Done)]
    requires after.targets == s.targets - {s.jobs[job].target}
    ensures Staging(after)
    ensures Sum(Charges(after)) == Sum(Charges(s)) && Outstanding(after) == Outstanding(s)
  {
    var target := s.jobs[job].target;
    hide Staging;
    LeftStaging(s, after, job);
    NoEntry(after, target);
    EntryOf(s, job);
    SameTables(s, after, target);
    hide Charges, Outstanding, PhaseAt;
  }

  /** Every other publication works on another path. */
  lemma OthersElsewhere(s: Store, job: JobId)
    requires Staging(s) && job in s.jobs && Holds(s.jobs[job].phase)
    ensures forall other | other in s.jobs && other != job && Holds(s.jobs[other].phase) ::
              s.jobs[other].target != s.jobs[job].target
  {
    assert Owns(s.jobs, job, s.jobs[job].target);
    forall other | other in s.jobs && other != job && Holds(s.jobs[other].phase)
      ensures s.jobs[other].target != s.jobs[job].target
    {
      assert Owns(s.jobs, other, s.jobs[other].target);
    }
  }

  /** `used_bytes` covers all artifacts, all leftovers and all staged previews. */
  lemma UsedCovers(s: Store)
    requires Staging(s) && Conserved(s)
    ensures Sum(s.artifacts) + Leftovers(s) + Sum(Outstanding(s)) <= s.used
    ensures forall target | target in s.targets :: Charge(PhaseAt(s, target)) <= s.used
    ensures forall path | path in s.artifacts :: s.artifacts[path] <= Sum(s.artifacts)
  {
    SumOfPart(Outstanding(s), Charges(s));
    forall target | target in s.targets
      ensures Charge(PhaseAt(s, target)) <= s.used
    {
      SumWithout(Charges(s), target);
    }
    forall path | path in s.artifacts
      ensures s.artifacts[path] <= Sum(s.artifacts)
    {
      SumWithout(s.artifacts, path);
    }
  }

  // ---------------------------------------------------------------- each step is safe

  /** Bytes change hands between the counter, the artifacts, the leftovers and one publication. */
  ghost predicate Balanced(s: Store, after: Store, before: Phase, phase: Phase) {
    after.used + Sum(s.artifacts) + s.retained + s.stranded + Charge(before)
      == s.used + Sum(after.artifacts) + after.retained + after.stranded + Charge(phase)
  }

  /** What the others have read stays true when artifacts change at the path of one publication only. */
  lemma StayFresh(s: Store, after: Store, job: JobId)
    requires AllFresh(s) && job in s.jobs
    requires after.jobs.Keys == s.jobs.Keys && forall other | other in s.jobs && other != job :: after.jobs[other] == s.jobs[other]
    requires after.artifacts == s.artifacts ||
             (after.artifacts - {s.jobs[job].target} == s.artifacts - {s.jobs[job].target} &&
              forall other | other in s.jobs && other != job && Holds(s.jobs[other].phase) ::
                s.jobs[other].target != s.jobs[job].target)
    requires Fresh(after, after.jobs[job])
    ensures AllFresh(after)
  {
    var target := s.jobs[job].target;
    forall other | other in after.jobs && other != job
      ensures Fresh(after, after.jobs[other])
    {
      var path := s.jobs[other].target;
      assert Fresh(s, s.jobs[other]);
      if after.artifacts != s.artifacts && Holds(s.jobs[other].phase) {
        assert path in after.artifacts <==> path in after.artifacts - {target};
        assert path in s.artifacts <==> path in s.artifacts - {target};
        assert SizeAt(after.artifacts, path) == SizeAt(after.artifacts - {target}, path);
      }
    }
  }

  lemma BalancedConserves(s: Store, after: Store, job: JobId, phase: Phase)
    requires Staging(s) && Conserved(s) && job in s.jobs && Holds(s.jobs[job].phase) && Holds(phase)
    requires after.jobs == s.jobs[job := s.jobs[job].(phase := phase)] && after.targets == s.targets
    requires Balanced(s, after, s.jobs[job].phase, phase)
    ensures Staging(after) && Conserved(after)
  {
    Moved(s, after, job, phase);
  }

  lemma QuietBudget(s: Store, after: Store, job: JobId, phase: Phase, ceiling: nat)
    requires Staging(s) && job in s.jobs && Holds(s.jobs[job].phase) && Holds(phase)
    requires after.jobs == s.jobs[job := s.jobs[job].(phase := phase)] && after.targets == s.targets
    requires after.artifacts == s.artifacts
    requires Committable(phase) ==> Committable(s.jobs[job].phase) && Charge(phase) == Charge(s.jobs[job].phase)
    requires WithinBudget(s.artifacts, Outstanding(s), ceiling)
    ensures Staging(after) && WithinBudget(after.artifacts, Outstanding(after), ceiling)
  {
    hide Staging, WithinBudget;
    Moved(s, after, job, phase);
    ShrinkKeepsBudget(s.artifacts, Outstanding(s), Outstanding(after), ceiling);
  }

  /** The lock passes to or from this publication, or stays with whoever has it. */
  predicate LockFits(s: Store, after: Store, job: JobId, phase: Phase) {
    && (after.installLock == s.installLock
        || (s.installLock.None? && after.installLock == Some(job))
        || (s.installLock == Some(job) && after.installLock.None?))
    && (MustLock(phase) ==> after.installLock == Some(job))
    && (after.installLock == Some(job) ==> UnderLock(phase))
  }

  lemma LockingKept(s: Store, after: Store, job: JobId, phase: Phase)
    requires Locking(s) && job in s.jobs && LockFits(s, after, job, phase)
    requires after.jobs == s.jobs[job := s.jobs[job].(phase := phase)]
    ensures Locking(after)
  {
  }

  /** A move that installs nothing, stages nothing new and deletes no leftover. */
  ghost predicate Quiet(s: Store, after: Store, job: JobId, phase: Phase) {
    && job in s.jobs && Holds(s.jobs[job].phase) && Holds(phase)
    && after.jobs == s.jobs[job := s.jobs[job].(phase := phase)] && after.targets == s.targets
    && after.artifacts == s.artifacts && after.budget == s.budget && Leftovers(s) <= Leftovers(after)
    && Balanced(s, after, s.jobs[job].phase, phase)
    && (Committable(phase) ==> Committable(s.jobs[job].phase) && Charge(phase) == Charge(s.jobs[job].phase))
    && Fresh(s, Job(s.jobs[job].target, phase)) && LockFits(s, after, job, phase)
  }

  lemma QuietMove(s: Store, after: Store, job: JobId, phase: Phase, ceiling: nat)
    requires Safe(s, ceiling) && Quiet(s, after, job, phase)
    ensures Safe(after, ceiling)
  {
    hide Staging, Conserved, WithinBudget, Balanced, Locking, LockFits, Roomy, AllFresh, Fresh;
    LockingKept(s, after, job, phase);
    BalancedConserves(s, after, job, phase);
    SameFresh(s, after, after.jobs[job]);
    StayFresh(s, after, job);
    QuietBudget(s, after, job, phase, ceiling);
    QuietRoomy(s, after, job, phase);
  }

  lemma SameFresh(s: Store, after: Store, job: Job)
    requires after.artifacts == s.artifacts
    ensures Fresh(after, job) <==> Fresh(s, job)
  {
  }

  lemma QuietRoomy(s: Store, after: Store, job: JobId, phase: Phase)
    requires Roomy(s) && job in s.jobs && after.jobs == s.jobs[job := s.jobs[job].(phase := phase)]
    requires after.artifacts == s.artifacts && after.budget == s.budget
    requires Committable(phase) ==> Committable(s.jobs[job].phase) && Charge(phase) == Charge(s.jobs[job].phase)
    ensures Roomy(after)
  {
  }

  /** What the admission test says about all bytes counted so far. */
  lemma AdmissionMeans(s: Store, job: JobId)
    requires Inv(s) && job in s.jobs && s.jobs[job].phase.Reserving?
    requires SettledBytes(s.used, s.jobs[job].phase.temporary, s.jobs[job].phase.replaced) <= s.budget
    ensures Sum(s.artifacts) + Leftovers(s) + Sum(Outstanding(s)) + s.jobs[job].phase.temporary
         <= s.budget + SizeAt(s.artifacts, s.jobs[job].target)
    ensures s.jobs[job].phase.temporary <= s.budget
    ensures s.used + s.jobs[job].phase.temporary <= U64_MAX
  {
    UsedCovers(s);
    assert Fresh(s, s.jobs[job]);
  }

  lemma ReserveBudget(s: Store, after: Store, job: JobId, ceiling: nat)
    requires Staging(s) && job in s.jobs && s.jobs[job].phase.Reserving?
    requires after.jobs == s.jobs[job := s.jobs[job].(phase := Reserved(s.jobs[job].phase.temporary))]
    requires after.targets == s.targets && after.artifacts == s.artifacts
    requires Sum(s.artifacts) + Sum(Outstanding(s)) + s.jobs[job].phase.temporary
          <= ceiling + SizeAt(s.artifacts, s.jobs[job].target)
    requires WithinBudget(s.artifacts, Outstanding(s), ceiling)
    ensures Staging(after) && WithinBudget(after.artifacts, Outstanding(after), ceiling)
  {
    Moved(s, after, job, Reserved(s.jobs[job].phase.temporary));
    AdmitKeepsBudget(s.artifacts, Outstanding(s), s.jobs[job].target, s.jobs[job].phase.temporary, ceiling);
  }

  /** A successful exchange in `reserve_staged`. */
  lemma ReserveMove(s: Store, after: Store, job: JobId, ceiling: nat)
    requires Safe(s, ceiling) && job in s.jobs && s.jobs[job].phase.Reserving?
    requires SettledBytes(s.used, s.jobs[job].phase.temporary, s.jobs[job].phase.replaced) <= s.budget
    requires after == To(s.(used := SaturatingAdd(s.used, s.jobs[job].phase.temporary)), job,
                         Reserved(s.jobs[job].phase.temporary))
    ensures Safe(after, ceiling)
  {
    hide Staging, Conserved, WithinBudget, Fresh;
    AdmissionMeans(s, job);
    BalancedConserves(s, after, job, Reserved(s.jobs[job].phase.temporary));
    StayFresh(s, after, job);
    ReserveBudget(s, after, job, ceiling);
  }

  lemma EnterMove(s: Store, after: Store, job: JobId, ceiling: nat)
    requires Safe(s, ceiling) && job in s.jobs && s.jobs[job].phase.Waiting? && s.jobs[job].target !in s.targets
    requires after == To(s.(targets := s.targets + {s.jobs[job].target}), job, Holding)
    ensures Safe(after, ceiling)
  {
    hide Staging, WithinBudget, Fresh;
    Entered(s, after, job);
    StayFresh(s, after, job);
  }

  lemma LeaveMove(s: Store, after: Store, job: JobId, ceiling: nat)
    requires Safe(s, ceiling) && job in s.jobs && s.jobs[job].phase.Finishing? && s.installLock != Some(job)
    requires after == To(s.(targets := s.targets - {s.jobs[job].target}), job, Done)
    ensures Safe(after, ceiling)
  {
    hide Staging, WithinBudget, Fresh;
    Left(s, after, job);
    StayFresh(s, after, job);
  }

  lemma PublishQuiet(s: Store, job: JobId, c: Choice)
    requires job in s.jobs && Holds(s.jobs[job].phase) && Fresh(s, s.jobs[job])
    requires s.installLock == Some(job) ==> UnderLock(s.jobs[job].phase)
    requires !Publish(s, job, c).jobs[job].phase.Reserved?
    ensures Publish(s, job, c) == s || Quiet(s, Publish(s, job, c), job, Publish(s, job, c).jobs[job].phase)
  {
  }

  lemma PublishSafe(s: Store, job: JobId, c: Choice, ceiling: nat)
    requires Safe(s, ceiling) && job in s.jobs
    ensures Safe(Publish(s, job, c), ceiling)
  {
    var after := Publish(s, job, c);
    var phase := s.jobs[job].phase;
    assert Fresh(s, s.jobs[job]);
    hide Staging, Conserved, WithinBudget, Roomy, AllFresh, Fresh;
    if phase.Waiting? {
      if after != s {
        EnterMove(s, after, job, ceiling);
      }
    } else if phase.Reserving? && after.jobs[job].phase.Reserved? {
      ReserveMove(s, after, job, ceiling);
    } else if phase.Done? {
      assert after == s;
    } else {
      PublishQuiet(s, job, c);
      hide Publish, Quiet, Safe;
      if after != s {
        QuietMove(s, after, job, after.jobs[job].phase, ceiling);
      }
    }
  }

  lemma SettleQuiet(s: Store, job: JobId, c: Choice)
    requires job in s.jobs && Holds(s.jobs[job].phase) && Fresh(s, s.jobs[job])
    requires s.installLock == Some(job) ==> UnderLock(s.jobs[job].phase)
    requires MustLock(s.jobs[job].phase) ==> s.installLock == Some(job)
    ensures Settle(s, job, c) == s || Quiet(s, Settle(s, job, c), job, Settle(s, job, c).jobs[job].phase)
  {
  }

  lemma SettleSafe(s: Store, job: JobId, c: Choice, ceiling: nat)
    requires Safe(s, ceiling) && job in s.jobs
    ensures Safe(Settle(s, job, c), ceiling)
  {
    var after := Settle(s, job, c);
    assert Fresh(s, s.jobs[job]);
    if Holds(s.jobs[job].phase) {
      SettleQuiet(s, job, c);
      hide Settle, Quiet, Safe;
      if after != s {
        QuietMove(s, after, job, after.jobs[job].phase, ceiling);
      }
    }
  }

  lemma InstallBudget(s: Store, after: Store, job: JobId, phase: Phase, ceiling: nat)
    requires Staging(s) && job in s.jobs && s.jobs[job].phase.Admitted?
    requires phase.Releasing? || phase.Finishing?
    requires after.jobs == s.jobs[job := s.jobs[job].(phase := phase)] && after.targets == s.targets
    requires after.artifacts == s.artifacts[s.jobs[job].target := s.jobs[job].phase.staged]
    requires WithinBudget(s.artifacts, Outstanding(s), ceiling)
    ensures Staging(after) && WithinBudget(after.artifacts, Outstanding(after), ceiling)
  {
    Moved(s, after, job, phase);
    InstallKeepsBudget(s.artifacts, Outstanding(s), s.jobs[job].target, ceiling);
  }

  lemma StayRoomy(s: Store, after: Store, job: JobId, phase: Phase)
    requires Roomy(s) && job in s.jobs && s.jobs[job].phase.Admitted? && !Committable(phase)
    requires after.jobs == s.jobs[job := s.jobs[job].(phase := phase)] && after.budget == s.budget
    requires after.artifacts == s.artifacts[s.jobs[job].target := s.jobs[job].phase.staged]
    ensures Roomy(after)
  {
  }

  /** The file of this publication becomes the artifact. */
  lemma InstallMove(s: Store, after: Store, job: JobId, phase: Phase, ceiling: nat)
    requires Safe(s, ceiling) && job in s.jobs && s.jobs[job].phase.Admitted?
    requires phase.Releasing? || phase.Finishing?
    requires after.jobs == s.jobs[job := s.jobs[job].(phase := phase)] && after.targets == s.targets
    requires after.artifacts == s.artifacts[s.jobs[job].target := s.jobs[job].phase.staged]
    requires after.budget == s.budget && after.used == s.used && after.stranded == s.stranded
    requires after.installLock == s.installLock
    requires after.retained + Charge(phase) == s.retained + SizeAt(s.artifacts, s.jobs[job].target)
    requires s.retained <= after.retained
    ensures Safe(after, ceiling)
  {
    hide Staging, Conserved, WithinBudget, Fresh, Roomy;
    var target := s.jobs[job].target;
    SumPut(s.artifacts, target, s.jobs[job].phase.staged);
    BalancedConserves(s, after, job, phase);
    OthersElsewhere(s, job);
    assert after.artifacts - {target} == s.artifacts - {target};
    InstallBudget(s, after, job, phase, ceiling);
    StayRoomy(s, after, job, phase);
    StayFresh(s, after, job);
  }

  lemma LossBudget(s: Store, after: Store, job: JobId, ceiling: nat)
    requires Staging(s) && job in s.jobs && s.jobs[job].phase.Admitted?
    requires after.jobs == s.jobs[job := s.jobs[job].(phase := Removing(s.jobs[job].phase.staged))]
    requires after.targets == s.targets && after.artifacts == s.artifacts - {s.jobs[job].target}
    requires WithinBudget(s.artifacts, Outstanding(s), ceiling)
    ensures Staging(after) && WithinBudget(after.artifacts, Outstanding(after), ceiling)
  {
    Moved(s, after, job, Removing(s.jobs[job].phase.staged));
    LossKeepsBudget(s.artifacts, Outstanding(s), s.jobs[job].target, ceiling);
  }

  /** The artifact is left at its backup path. */
  lemma LossMove(s: Store, after: Store, job: JobId, ceiling: nat)
    requires Safe(s, ceiling) && job in s.jobs && s.jobs[job].phase.Admitted? && s.jobs[job].target in s.artifacts
    requires after.jobs == s.jobs[job := s.jobs[job].(phase := Removing(s.jobs[job].phase.staged))]
    requires after.targets == s.targets && after.artifacts == s.artifacts - {s.jobs[job].target}
    requires after.budget == s.budget && after.used == s.used && after.stranded == s.stranded
    requires after.installLock == s.installLock
    requires after.retained == s.retained + s.artifacts[s.jobs[job].target]
    ensures Safe(after, ceiling)
  {
    hide Staging, Conserved, WithinBudget;
    var target := s.jobs[job].target;
    SumWithout(s.artifacts, target);
    BalancedConserves(s, after, job, Removing(s.jobs[job].phase.staged));
    OthersElsewhere(s, job);
    assert after.artifacts - {target} == s.artifacts - {target};
    LossBudget(s, after, job, ceiling);
    StayFresh(s, after, job);
  }

  lemma InstallSafe(s: Store, job: JobId, c: Choice, ceiling: nat)
    requires Safe(s, ceiling) && job in s.jobs && s.jobs[job].phase.Admitted?
    ensures Safe(Install(s, job, c), ceiling)
  {
    hide Staging, Conserved, WithinBudget, Roomy;
    var after := Install(s, job, c);
    assert Fresh(s, s.jobs[job]);
    if after.artifacts == s.artifacts && !after.jobs[job].phase.Finishing? && !after.jobs[job].phase.Releasing? && after.retained == s.retained {
      QuietMove(s, after, job, after.jobs[job].phase, ceiling);
    } else if c.ok {
      InstallMove(s, after, job, after.jobs[job].phase, ceiling);
    } else {
      LossMove(s, after, job, ceiling);
    }
  }

  /** A publication never releases more than `used_bytes` holds. */
  lemma ChargeCovered(s: Store, job: JobId)
    requires Inv(s) && job in s.jobs && Holds(s.jobs[job].phase)
    ensures Charge(s.jobs[job].phase) <= s.used
  {
    UsedCovers(s);
    EntryOf(s, job);
  }

  lemma LeaveQuiet(s: Store, job: JobId, c: Choice)
    requires job in s.jobs && Holds(s.jobs[job].phase) && Charge(s.jobs[job].phase) <= s.used
    requires s.installLock == Some(job) ==> UnderLock(s.jobs[job].phase)
    requires s.jobs[job].phase.Finishing? ==> s.installLock == Some(job)
    ensures Leave(s, job, c) == s || Quiet(s, Leave(s, job, c), job, Leave(s, job, c).jobs[job].phase)
  {
    if s.jobs[job].phase.Finishing? {
      assert s.jobs == s.jobs[job := s.jobs[job].(phase := Finishing)];
    }
  }

  lemma LeaveSafe(s: Store, job: JobId, c: Choice, ceiling: nat)
    requires Safe(s, ceiling) && job in s.jobs
    ensures Safe(Leave(s, job, c), ceiling)
  {
    var after := Leave(s, job, c);
    if s.jobs[job].phase.Finishing? && s.installLock != Some(job) {
      LeaveMove(s, after, job, ceiling);
    } else if Holds(s.jobs[job].phase) {
      ChargeCovered(s, job);
      LeaveQuiet(s, job, c);
      hide Leave, Quiet, Safe;
      if after != s {
        QuietMove(s, after, job, after.jobs[job].phase, ceiling);
      }
    }
  }
}
