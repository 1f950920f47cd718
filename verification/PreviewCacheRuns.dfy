/** Theorems about whole runs of the preview cache. */
module PreviewCacheRuns {
  import opened Options
  import opened MapSums
  import opened PreviewCache
  import opened PreviewCacheProofs

  /** A store as `new_in_namespace` returns it: everything on disk is counted, nothing is staged. */
  ghost predicate Opened(s: Store) {
    && s.jobs == map[] && s.targets == {} && s.installLock.None?
    && s.used == Sum(s.artifacts) + s.retained + s.stranded
    && Roomy(s)
  }

  /** What the budget, or what was counted at the start, leaves beside the leftovers. */
  ghost function Ceiling(start: Store): nat
    requires Opened(start)
  {
    Max(start.budget, start.used) - Leftovers(start)
  }

  /** A store that differs only where ownership does not look has the same tables. */
  lemma SameOwners(s: Store, after: Store)
    requires Staging(s) && after.targets == s.targets
    requires forall i, path :: Owns(after.jobs, i, path) <==> Owns(s.jobs, i, path)
    requires forall i | i in s.jobs :: i in after.jobs && after.jobs[i] == s.jobs[i]
    ensures Staging(after) && Charges(after) == Charges(s) && Outstanding(after) == Outstanding(s)
  {
    forall path | path in s.targets
      ensures Owns(after.jobs, OwnerOf(s, path), path)
    {
    }
    forall path | path in s.targets
      ensures PhaseAt(after, path) == PhaseAt(s, path)
    {
      OwnerIs(after, OwnerOf(s, path), path);
    }
  }

  lemma StayFreshWith(s: Store, after: Store)
    requires AllFresh(s) && after.artifacts == s.artifacts
    requires forall i | i in after.jobs :: (i in s.jobs && after.jobs[i] == s.jobs[i]) || after.jobs[i].phase.Waiting?
    ensures AllFresh(after)
  {
    forall i | i in after.jobs
      ensures Fresh(after, after.jobs[i])
    {
      assert i in s.jobs ==> Fresh(s, s.jobs[i]);
    }
  }

  lemma SpawnSafe(s: Store, job: JobId, target: Path, ceiling: nat)
    requires Safe(s, ceiling) && job !in s.jobs
    ensures Safe(s.(jobs := s.jobs[job := Job(target, Waiting)]), ceiling)
  {
    var after := s.(jobs := s.jobs[job := Job(target, Waiting)]);
    SameOwners(s, after);
    StayFreshWith(s, after);
  }

  lemma RejectedSafe(s: Store, ceiling: nat)
    requires Safe(s, ceiling)
    ensures Safe(s.(rejected := 0), ceiling)
  {
    var after := s.(rejected := 0);
    SameOwners(s, after);
    StayFreshWith(s, after);
  }

  lemma ApplySafe(s: Store, step: Step, ceiling: nat)
    requires Safe(s, ceiling)
    ensures Safe(Apply(s, step), ceiling)
  {
    hide Safe, Publish, Settle, Install, Leave;
    match step
    case Spawn(job, target) =>
      if job !in s.jobs {
        SpawnSafe(s, job, target, ceiling);
      }
    case TakeRejected => RejectedSafe(s, ceiling);
    case Run(job, c) =>
      if job in s.jobs {
        match s.jobs[job].phase
        case Waiting | Holding | Encoded(_) | Reserving(_, _, _) | Refused(_) | Reserved(_) =>
          PublishSafe(s, job, c, ceiling);
        case Staged(_, _) | Committing(_, _) | Locked(_, _) | Sized(_, _, _) => SettleSafe(s, job, c, ceiling);
        case Admitted(_, _, _) => InstallSafe(s, job, c, ceiling);
        case Removing(_) | Releasing(_) | Exchanging(_, _) | Finishing | Done => LeaveSafe(s, job, c, ceiling);
      }
  }

  lemma OpenedSafe(s: Store)
    requires Opened(s)
    ensures Safe(s, Ceiling(s))
  {
    assert Charges(s) == map[] && Outstanding(s) == map[];
    forall chosen | chosen <= Outstanding(s).Keys
      ensures Sum(Overlay(s.artifacts, Outstanding(s), chosen)) <= Ceiling(s)
    {
      assert Overlay(s.artifacts, Outstanding(s), chosen) == s.artifacts;
    }
  }

  /**
   * Every interleaving of publications, commits and discards keeps the bookkeeping exact, and
   * whichever of the staged previews go on to commit, the artifacts settle within what the budget
   * (or what was counted at the start) leaves beside the files left over from before.
   */
  lemma {:induction false} EveryRunIsSafe(start: Store, schedule: seq<Step>)
    requires Opened(start)
    ensures Safe(Exec(start, schedule), Ceiling(start))
  {
    if schedule == [] {
      OpenedSafe(start);
    } else {
      EveryRunIsSafe(start, schedule[..|schedule| - 1]);
      ApplySafe(Exec(start, schedule[..|schedule| - 1]), schedule[|schedule| - 1], Ceiling(start));
    }
  }

  lemma {:induction false} BudgetIsFixed(s: Store, schedule: seq<Step>)
    ensures Exec(s, schedule).budget == s.budget
  {
    if schedule != [] {
      BudgetIsFixed(s, schedule[..|schedule| - 1]);
      StepKeepsBudget(Exec(s, schedule[..|schedule| - 1]), schedule[|schedule| - 1]);
      hide Apply;
    }
  }

  lemma StepKeepsBudget(s: Store, step: Step)
    ensures Apply(s, step).budget == s.budget
  {
  }

  lemma {:induction false} LeftoversGrow(s: Store, schedule: seq<Step>)
    ensures Leftovers(s) <= Leftovers(Exec(s, schedule))
  {
    if schedule != [] {
      LeftoversGrow(s, schedule[..|schedule| - 1]);
      StepKeepsLeftovers(Exec(s, schedule[..|schedule| - 1]), schedule[|schedule| - 1]);
      hide Apply, Leftovers;
    }
  }

  lemma StepKeepsLeftovers(s: Store, step: Step)
    ensures Leftovers(s) <= Leftovers(Apply(s, step))
  {
  }

  /** The bytes of the deletions that failed in a run. */
  function Leaked(start: Store, schedule: seq<Step>): int {
    Leftovers(Exec(start, schedule)) - Leftovers(start)
  }

  /** Whichever staged previews commit, everything counted exceeds the bound by at most `excess`. */
  ghost predicate SettlesWithin(start: Store, schedule: seq<Step>, excess: int) {
    var s := Exec(start, schedule);
    Staging(s) && forall chosen | chosen <= Outstanding(s).Keys ::
      Sum(Overlay(s.artifacts, Outstanding(s), chosen)) + Leftovers(s) <= Max(start.budget, start.used) + excess
  }

  /**
   * In every run and for every subset of the staged previews that commits while the rest is
   * discarded, all counted files together settle within the budget, or within what was counted at
   * the start, except for the bytes whose deletion failed on the way.
   */
  lemma CountedFilesSettleWithinBudget(start: Store, schedule: seq<Step>)
    requires Opened(start)
    ensures Leaked(start, schedule) >= 0 && SettlesWithin(start, schedule, Leaked(start, schedule))
  {
    var s := Exec(start, schedule);
    EveryRunIsSafe(start, schedule);
    LeftoversGrow(start, schedule);
    hide Exec, Inv, Sum, Outstanding, Overlay;
  }

  /** Opened within budget, everything counted stays within budget until a deletion fails. */
  lemma CountedFilesStayWithinBudget(start: Store, schedule: seq<Step>)
    requires Opened(start) && start.used <= start.budget
    ensures Sum(Exec(start, schedule).artifacts) + Leftovers(Exec(start, schedule)) <= start.budget + Leaked(start, schedule)
    ensures Leftovers(Exec(start, schedule)) == Leftovers(start) ==>
              Sum(Exec(start, schedule).artifacts) + Leftovers(start) <= start.budget
  {
    var s := Exec(start, schedule);
    CountedFilesSettleWithinBudget(start, schedule);
    assert Overlay(s.artifacts, Outstanding(s), {}) == s.artifacts;
  }

  /** Opened within budget, the installed artifacts stay within budget whatever fails. */
  lemma ArtifactsStayWithinBudget(start: Store, schedule: seq<Step>)
    requires Opened(start) && Sum(start.artifacts) <= start.budget
    ensures Sum(Exec(start, schedule).artifacts) <= start.budget
  {
    var s := Exec(start, schedule);
    EveryRunIsSafe(start, schedule);
    assert Overlay(s.artifacts, Outstanding(s), {}) == s.artifacts;
  }

  /** No release ever clamps at zero, so the counter loses exactly what is released. */
  lemma ReleaseIsExact(start: Store, schedule: seq<Step>, job: JobId, c: Choice)
    requires Opened(start)
    requires job in Exec(start, schedule).jobs
    requires Exec(start, schedule).jobs[job].phase.Exchanging?
    requires Exec(start, schedule).jobs[job].phase.seen == Exec(start, schedule).used && c.ok
    ensures Leave(Exec(start, schedule), job, c).used + Exec(start, schedule).jobs[job].phase.bytes
         == Exec(start, schedule).used
  {
    EveryRunIsSafe(start, schedule);
    ChargeCovered(Exec(start, schedule), job);
  }

  lemma {:induction false} ZeroTotal<K>(m: map<K, nat>)
    requires forall k | k in m :: m[k] == 0
    ensures Sum(m) == 0
    decreases |m|
  {
    if m != map[] {
      var k :| k in m;
      SumWithout(m, k);
      ZeroTotal(m - {k});
    }
  }

  /** When every publication is over, the counter is the size of what lies on disk and is counted. */
  lemma IdleCountsTheDisk(start: Store, schedule: seq<Step>)
    requires Opened(start)
    requires forall job | job in Exec(start, schedule).jobs :: Exec(start, schedule).jobs[job].phase.Done?
    ensures Exec(start, schedule).targets == {}
    ensures Exec(start, schedule).used
         == Sum(Exec(start, schedule).artifacts) + Exec(start, schedule).retained + Exec(start, schedule).stranded
  {
    var s := Exec(start, schedule);
    EveryRunIsSafe(start, schedule);
    assert forall job, path :: !Owns(s.jobs, job, path);
    ZeroTotal(Charges(s));
  }

  // ---------------------------------------------------------------- the counter during replacement

  /** The step is the exchange that admits a reservation. */
  predicate AdmitsBy(s: Store, step: Step) {
    && step.Run? && step.job in s.jobs && s.jobs[step.job].phase.Reserving?
    && SettledBytes(s.jobs[step.job].phase.seen, s.jobs[step.job].phase.temporary, s.jobs[step.job].phase.replaced) <= s.budget
    && s.jobs[step.job].phase.seen == s.used && step.choice.ok
  }

  function LargestReplaced(s: Store, schedule: seq<Step>): nat {
    if schedule == [] then 0
    else
      var earlier := LargestReplaced(s, schedule[..|schedule| - 1]);
      var now := Exec(s, schedule[..|schedule| - 1]);
      var last := schedule[|schedule| - 1];
      if AdmitsBy(now, last) then Max(earlier, now.jobs[last.job].phase.replaced) else earlier
  }

  lemma StepBoundsUsed(s: Store, step: Step, bound: nat)
    requires s.used <= bound
    requires AdmitsBy(s, step) ==> s.budget + s.jobs[step.job].phase.replaced <= bound
    ensures Apply(s, step).used <= bound
  {
    if step.Run? && step.job in s.jobs {
      hide Settle, Install;
    }
  }

  lemma LargestGrows(s: Store, schedule: seq<Step>)
    requires schedule != []
    ensures LargestReplaced(s, schedule[..|schedule| - 1]) <= LargestReplaced(s, schedule)
    ensures AdmitsBy(Exec(s, schedule[..|schedule| - 1]), schedule[|schedule| - 1]) ==>
              Exec(s, schedule[..|schedule| - 1]).jobs[schedule[|schedule| - 1].job].phase.replaced
                <= LargestReplaced(s, schedule)
  {
  }

  lemma LastStepBounds(s: Store, shorter: seq<Step>, last: Step, largest: nat, earlier: nat)
    requires var now := Exec(s, shorter);
             && now.used <= Max(s.used, s.budget + earlier) && now.budget == s.budget && earlier <= largest
             && (AdmitsBy(now, last) ==> now.jobs[last.job].phase.replaced <= largest)
    ensures Apply(Exec(s, shorter), last).used <= Max(s.used, s.budget + largest)
  {
    hide Apply, Exec;
    StepBoundsUsed(Exec(s, shorter), last, Max(s.used, s.budget + largest));
  }

  lemma RunBegins(s: Store)
    ensures Exec(s, []) == s
  {
  }

  lemma RunEnds(s: Store, schedule: seq<Step>)
    requires schedule != []
    ensures Exec(s, schedule) == Apply(Exec(s, schedule[..|schedule| - 1]), schedule[|schedule| - 1])
  {
    hide Apply;
  }

  /** Whatever the store starts with, the counter overshoots the budget by at most one replaced file. */
  lemma {:induction false} UsedIsBounded(s: Store, schedule: seq<Step>)
    ensures Exec(s, schedule).used <= Max(s.used, s.budget + LargestReplaced(s, schedule))
  {
    hide Apply, Exec, LargestReplaced, AdmitsBy;
    if schedule == [] {
      RunBegins(s);
    } else {
      var shorter, last := schedule[..|schedule| - 1], schedule[|schedule| - 1];
      RunEnds(s, schedule);
      LargestGrows(s, schedule);
      UsedIsBounded(s, shorter);
      BudgetIsFixed(s, shorter);
      LastStepBounds(s, shorter, last, LargestReplaced(s, schedule), LargestReplaced(s, shorter));
    }
  }

  // ---------------------------------------------------------------- where the bounds are tight

  /** The staged previews that are larger than the artifact they replace. */
  ghost function Growing(artifacts: map<Path, nat>, staged: map<Path, nat>): set<Path> {
    set path | path in staged && staged[path] > SizeAt(artifacts, path)
  }

  lemma {:induction false} DropShrinking(artifacts: map<Path, nat>, staged: map<Path, nat>, chosen: set<Path>)
    requires chosen <= staged.Keys
    ensures Sum(Overlay(artifacts, staged, chosen))
         <= Sum(Overlay(artifacts, staged, chosen * Growing(artifacts, staged)))
    decreases chosen
  {
    var growing := Growing(artifacts, staged);
    if chosen <= growing {
      assert chosen * growing == chosen;
    } else {
      var target :| target in chosen && target !in growing;
      OverlayWith(artifacts, staged, chosen - {target}, target);
      assert chosen - {target} + {target} == chosen;
      DropShrinking(artifacts, staged, chosen - {target});
      assert (chosen - {target}) * growing == chosen * growing;
    }
  }

  lemma {:induction false} AddGrowing(artifacts: map<Path, nat>, staged: map<Path, nat>, chosen: set<Path>)
    requires chosen <= Growing(artifacts, staged)
    ensures Sum(Overlay(artifacts, staged, chosen))
         <= Sum(Overlay(artifacts, staged, Growing(artifacts, staged)))
    decreases Growing(artifacts, staged) - chosen
  {
    var growing := Growing(artifacts, staged);
    if chosen != growing {
      var target :| target in growing && target !in chosen;
      OverlayWith(artifacts, staged, chosen, target);
      AddGrowing(artifacts, staged, chosen + {target});
    }
  }

  /** Of all subsets of a store's staged previews those that grow their artifact settle highest. */
  lemma SettlesBelowIff(s: Store, bound: nat)
    requires Staging(s)
    ensures (forall chosen | chosen <= Outstanding(s).Keys ::
               Sum(Overlay(s.artifacts, Outstanding(s), chosen)) + Leftovers(s) <= bound)
       <==> Sum(Overlay(s.artifacts, Outstanding(s), Growing(s.artifacts, Outstanding(s)))) + Leftovers(s) <= bound
  {
    var artifacts, staged := s.artifacts, Outstanding(s);
    hide Staging, Outstanding;
    forall chosen | chosen <= staged.Keys
      ensures Sum(Overlay(artifacts, staged, chosen)) <= Sum(Overlay(artifacts, staged, Growing(artifacts, staged)))
    {
      DropShrinking(artifacts, staged, chosen);
      AddGrowing(artifacts, staged, chosen * Growing(artifacts, staged));
    }
  }

  lemma Then(s: Store, schedule: seq<Step>, now: Store, step: Step, next: Store)
    requires Exec(s, schedule) == now && Apply(now, step) == next
    ensures Exec(s, schedule + [step]) == next
  {
    hide Apply;
    assert (schedule + [step])[..|schedule|] == schedule;
  }

  /** A full cache: one artifact as large as the budget. */
  function FullCache(size: nat): Store {
    Store(size, size, 0, map["a" := size], 0, 0, 0, {}, None, map[])
  }

  function Refreshing(size: nat, phase: Phase, doubled: bool, kept: bool, targets: set<Path>, installLock: Option<JobId>): Store {
    Store(size, if doubled then 2 * size else size, 0, map["a" := size], if kept then size else 0, 0, 0,
          targets, installLock, map[0 := Job("a", phase)])
  }

  function Go(size: nat): Step {
    Run(0, Choice(true, true, size))
  }

  function Keep(size: nat): Step {
    Run(0, Choice(true, false, size))
  }

  lemma ReserveSteps(n: nat)
    requires 2 * n <= U64_MAX
    ensures Apply(Refreshing(n, Reserving(n, n, n), false, false, {"a"}, None), Go(n))
         == Refreshing(n, Reserved(n), true, false, {"a"}, None)
    ensures Apply(Refreshing(n, Reserved(n), true, false, {"a"}, None), Go(n))
         == Refreshing(n, Staged(n, true), true, false, {"a"}, None)
    ensures Apply(Refreshing(n, Staged(n, true), true, false, {"a"}, None), Go(n))
         == Refreshing(n, Committing(n, true), true, false, {"a"}, None)
    ensures Apply(Refreshing(n, Committing(n, true), true, false, {"a"}, None), Go(n))
         == Refreshing(n, Locked(n, true), true, false, {"a"}, Some(0))
  {
  }

  lemma InstallSteps(n: nat)
    ensures Apply(Refreshing(n, Locked(n, true), true, false, {"a"}, Some(0)), Go(n))
         == Refreshing(n, Sized(n, true, Some(n)), true, false, {"a"}, Some(0))
    ensures Apply(Refreshing(n, Sized(n, true, Some(n)), true, false, {"a"}, Some(0)), Go(n))
         == Refreshing(n, Admitted(n, true, Some(n)), true, false, {"a"}, Some(0))
    ensures Apply(Refreshing(n, Admitted(n, true, Some(n)), true, false, {"a"}, Some(0)), Keep(n))
         == Refreshing(n, Finishing, true, true, {"a"}, Some(0))
  {
  }

  lemma FinishSteps(n: nat)
    ensures Apply(Refreshing(n, Finishing, true, true, {"a"}, Some(0)), Go(n)) == Refreshing(n, Finishing, true, true, {"a"}, None)
    ensures Apply(Refreshing(n, Finishing, true, true, {"a"}, None), Go(n)) == Refreshing(n, Done, true, true, {}, None)
  {
  }

  lemma RefreshPublishes(n: nat) returns (schedule: seq<Step>)
    requires 2 * n <= U64_MAX
    ensures Exec(FullCache(n), schedule) == Refreshing(n, Locked(n, true), true, false, {"a"}, Some(0))
  {
    ReserveSteps(n);
    hide Apply, Refreshing;
    Then(FullCache(n), [], FullCache(n), Spawn(0, "a"), Refreshing(n, Waiting, false, false, {}, None));
    schedule := [] + [Spawn(0, "a")];
    Then(FullCache(n), schedule, Refreshing(n, Waiting, false, false, {}, None), Go(n), Refreshing(n, Holding, false, false, {"a"}, None));
    schedule := schedule + [Go(n)];
    Then(FullCache(n), schedule, Refreshing(n, Holding, false, false, {"a"}, None), Go(n),
         Refreshing(n, Encoded(n), false, false, {"a"}, None));
    schedule := schedule + [Go(n)];
    Then(FullCache(n), schedule, Refreshing(n, Encoded(n), false, false, {"a"}, None), Go(n),
         Refreshing(n, Reserving(n, n, n), false, false, {"a"}, None));
    schedule := schedule + [Go(n)];
    Then(FullCache(n), schedule, Refreshing(n, Reserving(n, n, n), false, false, {"a"}, None), Go(n),
         Refreshing(n, Reserved(n), true, false, {"a"}, None));
    schedule := schedule + [Go(n)];
    Then(FullCache(n), schedule, Refreshing(n, Reserved(n), true, false, {"a"}, None), Go(n),
         Refreshing(n, Staged(n, true), true, false, {"a"}, None));
    schedule := schedule + [Go(n)];
    Then(FullCache(n), schedule, Refreshing(n, Staged(n, true), true, false, {"a"}, None), Go(n),
         Refreshing(n, Committing(n, true), true, false, {"a"}, None));
    schedule := schedule + [Go(n)];
    Then(FullCache(n), schedule, Refreshing(n, Committing(n, true), true, false, {"a"}, None), Go(n),
         Refreshing(n, Locked(n, true), true, false, {"a"}, Some(0)));
    schedule := schedule + [Go(n)];
  }

  lemma RefreshInstalls(n: nat, begun: seq<Step>) returns (schedule: seq<Step>)
    requires Exec(FullCache(n), begun) == Refreshing(n, Locked(n, true), true, false, {"a"}, Some(0))
    ensures Exec(FullCache(n), schedule) == Refreshing(n, Done, true, true, {}, None)
  {
    InstallSteps(n);
    FinishSteps(n);
    hide Apply, Refreshing;
    schedule := begun;
    Then(FullCache(n), schedule, Refreshing(n, Locked(n, true), true, false, {"a"}, Some(0)), Go(n),
         Refreshing(n, Sized(n, true, Some(n)), true, false, {"a"}, Some(0)));
    schedule := schedule + [Go(n)];
    Then(FullCache(n), schedule, Refreshing(n, Sized(n, true, Some(n)), true, false, {"a"}, Some(0)), Go(n),
         Refreshing(n, Admitted(n, true, Some(n)), true, false, {"a"}, Some(0)));
    schedule := schedule + [Go(n)];
    Then(FullCache(n), schedule, Refreshing(n, Admitted(n, true, Some(n)), true, false, {"a"}, Some(0)), Keep(n),
         Refreshing(n, Finishing, true, true, {"a"}, Some(0)));
    schedule := schedule + [Keep(n)];
    Then(FullCache(n), schedule, Refreshing(n, Finishing, true, true, {"a"}, Some(0)), Go(n),
         Refreshing(n, Finishing, true, true, {"a"}, None));
    schedule := schedule + [Go(n)];
    Then(FullCache(n), schedule, Refreshing(n, Finishing, true, true, {"a"}, None), Go(n), Refreshing(n, Done, true, true, {}, None));
    schedule := schedule + [Go(n)];
  }

  lemma RefreshKeepsBoth(n: nat) returns (schedule: seq<Step>)
    requires 2 * n <= U64_MAX
    ensures Exec(FullCache(n), schedule) == Refreshing(n, Done, true, true, {}, None)
  {
    hide Apply, Exec, Refreshing, FullCache;
    schedule := RefreshPublishes(n);
    schedule := RefreshInstalls(n, schedule);
  }

  lemma RefreshSizes(n: nat)
    ensures Refreshing(n, Done, true, true, {}, None).artifacts == FullCache(n).artifacts
    ensures Leftovers(Refreshing(n, Done, true, true, {}, None)) == n && Leftovers(FullCache(n)) == 0
    ensures FullCache(n).used == FullCache(n).budget == n
  {
  }

  /**
   * A full cache of any size whose only artifact is refreshed while its previous file cannot be
   * deleted: the counted bytes end up at twice the budget, which is the bound.
   */
  lemma RetainedFileExceedsBudget(n: nat) returns (schedule: seq<Step>)
    requires 2 * n <= U64_MAX
    ensures Opened(FullCache(n)) && FullCache(n).used == FullCache(n).budget == n
    ensures Exec(FullCache(n), schedule) == Refreshing(n, Done, true, true, {}, None)
    ensures Sum(Exec(FullCache(n), schedule).artifacts) == n == Leaked(FullCache(n), schedule)
  {
    hide Apply, Opened, Exec, Refreshing, FullCache, Sum, Leftovers;
    FullCacheOpens(n);
    RefreshSizes(n);
    schedule := RefreshKeepsBoth(n);
  }

  lemma FullCacheOpens(n: nat)
    requires 2 * n <= U64_MAX
    ensures Opened(FullCache(n)) && Sum(FullCache(n).artifacts) == n
  {
    SumPut(map[], "a", n);
    assert map[]["a" := n] == FullCache(n).artifacts;
  }

  /** Every run that leaks so many bytes settles within the bound and `excess` more. */
  ghost predicate LeakSettlesWithin(leaked: nat, excess: nat) {
    forall start: Store, schedule: seq<Step> | Opened(start) && Leaked(start, schedule) == leaked ::
      SettlesWithin(start, schedule, excess)
  }

  /**
   * What failed deletions cost exactly: of all runs in which they leave `leaked` bytes behind, every
   * one settles within the bound and `excess` more if `excess` covers those bytes, and, where a store
   * of that size can be refreshed, only if.
   */
  lemma ExcessIsTheLeak(leaked: nat, excess: nat)
    ensures leaked <= excess ==> LeakSettlesWithin(leaked, excess)
    ensures 2 * leaked <= U64_MAX ==> (LeakSettlesWithin(leaked, excess) <==> leaked <= excess)
  {
    if leaked <= excess {
      forall start: Store, schedule: seq<Step> | Opened(start) && Leaked(start, schedule) == leaked
        ensures SettlesWithin(start, schedule, excess)
      {
        CountedFilesSettleWithinBudget(start, schedule);
      }
    } else if 2 * leaked <= U64_MAX {
      var schedule := RetainedFileExceedsBudget(leaked);
      var s := Exec(FullCache(leaked), schedule);
      if Staging(s) {
        assert Overlay(s.artifacts, Outstanding(s), {}) == s.artifacts;
      }
      assert !SettlesWithin(FullCache(leaked), schedule, excess);
    }
  }

  /**
   * The counter can hold every reservation that the admission test lets through exactly when the
   * budget and the replaced file together fit its width and the budget is not all of it: there
   * the saturated sum of the test hides an overflow.
   */
  lemma AdmissionFitsIff(budget: nat, replaced: nat)
    requires budget <= U64_MAX && replaced <= U64_MAX
    ensures (forall used: nat, staged: nat | used <= U64_MAX && staged <= U64_MAX && SettledBytes(used, staged, replaced) <= budget ::
               used + staged <= U64_MAX)
       <==> budget + replaced <= U64_MAX && budget < U64_MAX
  {
    if budget == U64_MAX {
      assert SettledBytes(U64_MAX, 1, replaced) <= budget;
    } else if budget + replaced > U64_MAX {
      assert SettledBytes(replaced, budget, replaced) <= budget;
    }
  }

  /** A store opened within a budget, whatever its width. */
  ghost predicate OpenedWithin(s: Store, budget: nat) {
    && s.jobs == map[] && s.targets == {} && s.installLock.None? && s.budget == budget
    && s.used == Sum(s.artifacts) + s.retained + s.stranded && s.used <= budget
  }

  ghost predicate KeepsAccount(start: Store, schedule: seq<Step>) {
    var s := Exec(start, schedule);
    Staging(s) && Conserved(s)
  }

  lemma OpensRoomy(s: Store, budget: nat)
    requires OpenedWithin(s, budget) && 2 * budget <= U64_MAX
    ensures Opened(s)
  {
    forall path | path in s.artifacts
      ensures s.budget + s.artifacts[path] <= U64_MAX
    {
      SumWithout(s.artifacts, path);
    }
  }

  lemma ClampedIsShort(s: Store, n: nat)
    requires s.jobs == map[0 := Job("a", Reserved(n))] && s.targets == {"a"} && Leftovers(s) == 0
    requires Sum(s.artifacts) == n && s.used < 2 * n
    ensures !(Staging(s) && Conserved(s))
  {
    if Staging(s) {
      EntryOf(s, 0);
    }
  }

  lemma RefreshClamps(n: nat) returns (schedule: seq<Step>)
    requires n <= U64_MAX < 2 * n
    ensures OpenedWithin(FullCache(n), n) && !KeepsAccount(FullCache(n), schedule)
  {
    SumPut(map[], "a", n);
    assert map[]["a" := n] == FullCache(n).artifacts;
    assert OpenedWithin(FullCache(n), n);
    hide Apply, Refreshing, FullCache, Sum, Staging, Conserved;
    Then(FullCache(n), [], FullCache(n), Spawn(0, "a"), Refreshing(n, Waiting, false, false, {}, None));
    schedule := [] + [Spawn(0, "a")];
    Then(FullCache(n), schedule, Refreshing(n, Waiting, false, false, {}, None), Go(n), Refreshing(n, Holding, false, false, {"a"}, None));
    schedule := schedule + [Go(n)];
    Then(FullCache(n), schedule, Refreshing(n, Holding, false, false, {"a"}, None), Go(n),
         Refreshing(n, Encoded(n), false, false, {"a"}, None));
    schedule := schedule + [Go(n)];
    Then(FullCache(n), schedule, Refreshing(n, Encoded(n), false, false, {"a"}, None), Go(n),
         Refreshing(n, Reserving(n, n, n), false, false, {"a"}, None));
    schedule := schedule + [Go(n)];
    var last := Apply(Refreshing(n, Reserving(n, n, n), false, false, {"a"}, None), Go(n));
    Then(FullCache(n), schedule, Refreshing(n, Reserving(n, n, n), false, false, {"a"}, None), Go(n), last);
    schedule := schedule + [Go(n)];
    ClampedIsShort(last, n);
  }

  /**
   * How wide the counter must be: every run of every store opened within the budget keeps its
   * account if and only if twice the budget fits it. Otherwise refreshing a full cache clamps.
   */
  lemma AccountFitsIff(budget: nat)
    requires budget <= U64_MAX
    ensures (forall start: Store, schedule: seq<Step> | OpenedWithin(start, budget) :: KeepsAccount(start, schedule))
       <==> 2 * budget <= U64_MAX
  {
    hide OpenedWithin, Staging, Conserved;
    if 2 * budget <= U64_MAX {
      forall start: Store, schedule: seq<Step> | OpenedWithin(start, budget)
        ensures KeepsAccount(start, schedule)
      {
        OpensRoomy(start, budget);
        EveryRunIsSafe(start, schedule);
      }
    } else {
      var schedule := RefreshClamps(budget);
    }
  }

  /** A refusal is remembered, with the bytes that were missing, until the record is taken. */
  lemma {:induction false} RejectionIsRemembered(s: Store, job: JobId, c: Choice, later: seq<Step>)
    requires job in s.jobs && s.jobs[job].phase.Reserving? && Publish(s, job, c).jobs[job].phase.Refused?
    requires TakeRejected !in later
    ensures Exec(Publish(s, job, c), later).rejected
         >= SaturatingSub(s.jobs[job].phase.temporary, s.jobs[job].phase.replaced)
    decreases |later|
  {
    if later != [] {
      var shorter := later[..|later| - 1];
      assert later[|later| - 1] in later && forall step | step in shorter :: step in later;
      RejectionIsRemembered(s, job, c, shorter);
      RejectedGrows(Exec(Publish(s, job, c), shorter), later[|later| - 1]);
      hide Apply, Publish;
    }
  }

  lemma RejectedGrows(s: Store, step: Step)
    requires step != TakeRejected
    ensures Apply(s, step).rejected >= s.rejected
  {
  }

  // ---------------------------------------------------------------- progress

  predicate Blocked(s: Store, job: JobId)
    requires job in s.jobs
  {
    || (s.jobs[job].phase.Waiting? && s.jobs[job].target in s.targets)
    || (s.jobs[job].phase.Committing? && s.installLock.Some?)
  }

  function Rank(s: Store, job: JobId): nat
    requires job in s.jobs
  {
    match s.jobs[job].phase
    case Waiting => 20
    case Holding => 19
    case Encoded(_) => 18
    case Reserving(_, _, seen) => if seen == s.used then 16 else 17
    case Reserved(_) => 15
    case Staged(_, _) => 14
    case Committing(_, _) => 13
    case Locked(_, _) => 12
    case Sized(_, _, _) => 11
    case Admitted(_, _, previous) => if previous.None? then 10 else 9
    case Removing(_) => 8
    case Releasing(_) => 7
    case Exchanging(_, seen) => if seen == s.used then 5 else 6
    case Refused(_) => 4
    case Finishing => if s.installLock == Some(job) then 3 else 2
    case Done => 0
  }

  /** One publication running alone; its exchanges then fail only for a stale value. */
  function Solo(s: Store, job: JobId, choices: seq<Choice>): (after: Store)
    requires job in s.jobs
    ensures job in after.jobs
    decreases |choices|
  {
    if choices == [] then s
    else
      Solo(Advance(s, job, SoloChoice(s, job, choices[0])), job, choices[1..])
  }

  function SoloChoice(s: Store, job: JobId, c: Choice): Choice
    requires job in s.jobs
  {
    if s.jobs[job].phase.Reserving? || s.jobs[job].phase.Exchanging? then c.(ok := true) else c
  }

  /** Every way out of a publication drops its guard: whatever fails, the target is freed. */
  lemma {:induction false} EveryExitFreesTheTarget(s: Store, job: JobId, choices: seq<Choice>)
    requires job in s.jobs && Unhindered(s, job)
    requires |choices| >= Rank(s, job)
    ensures Solo(s, job, choices).jobs[job].phase.Done?
    ensures Solo(s, job, choices).targets == s.targets - {s.jobs[job].target}
    decreases |choices|
  {
    var c := SoloChoice(s, job, choices[0]);
    var next := Advance(s, job, c);
    SoloStep(s, job, c);
    hide Advance, Rank;
    if next.jobs[job].phase.Done? {
      DoneStays(next, job, choices[1..]);
    } else {
      EveryExitFreesTheTarget(next, job, choices[1..]);
    }
  }

  predicate Unhindered(s: Store, job: JobId)
    requires job in s.jobs
  {
    Holds(s.jobs[job].phase) &&
    (s.installLock == None || (s.installLock == Some(job) && UnderLock(s.jobs[job].phase)))
  }

  /** One step closer to the end, with the target held until the last one. */
  predicate Nears(s: Store, next: Store, job: JobId)
    requires job in s.jobs
  {
    && job in next.jobs && Rank(next, job) < Rank(s, job) && next.jobs[job].target == s.jobs[job].target
    && (next.jobs[job].phase.Done? ==> next.targets == s.targets - {s.jobs[job].target})
    && (!next.jobs[job].phase.Done? ==> Unhindered(next, job) && next.targets == s.targets)
  }

  predicate Settles(phase: Phase) {
    phase.Staged? || phase.Committing? || phase.Locked? || phase.Sized?
  }

  predicate Leaves(phase: Phase) {
    phase.Removing? || phase.Releasing? || phase.Exchanging? || phase.Finishing?
  }

  lemma SoloPublish(s: Store, job: JobId, c: Choice)
    requires job in s.jobs && Unhindered(s, job) && c == SoloChoice(s, job, c)
    requires !Settles(s.jobs[job].phase) && !Leaves(s.jobs[job].phase) && !s.jobs[job].phase.Admitted?
    ensures Nears(s, Publish(s, job, c), job)
  {
  }

  lemma SoloSettle(s: Store, job: JobId, c: Choice)
    requires job in s.jobs && Unhindered(s, job) && Settles(s.jobs[job].phase)
    ensures Nears(s, Settle(s, job, c), job)
  {
  }

  lemma SoloInstall(s: Store, job: JobId, c: Choice)
    requires job in s.jobs && Unhindered(s, job) && s.jobs[job].phase.Admitted?
    ensures Nears(s, Install(s, job, c), job)
  {
  }

  lemma SoloLeave(s: Store, job: JobId, c: Choice)
    requires job in s.jobs && Unhindered(s, job) && c == SoloChoice(s, job, c) && Leaves(s.jobs[job].phase)
    ensures Nears(s, Leave(s, job, c), job)
  {
  }

  lemma SoloStep(s: Store, job: JobId, c: Choice)
    requires job in s.jobs && Unhindered(s, job) && c == SoloChoice(s, job, c)
    ensures Nears(s, Advance(s, job, c), job)
  {
    hide Publish, Settle, Install, Leave, Nears;
    if s.jobs[job].phase.Admitted? {
      SoloInstall(s, job, c);
    } else if Settles(s.jobs[job].phase) {
      SoloSettle(s, job, c);
    } else if Leaves(s.jobs[job].phase) {
      SoloLeave(s, job, c);
    } else {
      SoloPublish(s, job, c);
    }
  }

  lemma {:induction false} DoneStays(s: Store, job: JobId, choices: seq<Choice>)
    requires job in s.jobs && s.jobs[job].phase.Done?
    ensures Solo(s, job, choices) == s
    decreases |choices|
  {
    if choices != [] {
      DoneStays(s, job, choices[1..]);
    }
  }

  // ---------------------------------------------------------------- what a commit achieves

  const ALL_WELL := Choice(true, true, 0)

  /** The commit goes through: no usable artifact makes it superfluous, and the budget check passes. */
  predicate GoesThrough(s: Store, target: Path, overwrites: bool) {
    (overwrites || target !in s.artifacts) && s.used - SizeAt(s.artifacts, target) <= s.budget
  }

  /** Artifacts and counter at the end, if no operation fails from here on. */
  ghost function Settled(s: Store, job: JobId): (map<Path, nat>, int)
    requires job in s.jobs
  {
    var target := s.jobs[job].target;
    match s.jobs[job].phase
    case Staged(staged, overwrites) => Installed(s, target, staged, GoesThrough(s, target, overwrites))
    case Committing(staged, overwrites) => Installed(s, target, staged, GoesThrough(s, target, overwrites))
    case Locked(staged, _) => Installed(s, target, staged, s.used - SizeAt(s.artifacts, target) <= s.budget)
    case Sized(staged, _, _) => Installed(s, target, staged, s.used - SizeAt(s.artifacts, target) <= s.budget)
    case Admitted(staged, _, _) => Installed(s, target, staged, true)
    case phase => (s.artifacts, s.used - Charge(phase))
  }

  function Installed(s: Store, target: Path, staged: nat, through: bool): (map<Path, nat>, int) {
    if through then (s.artifacts[target := staged], s.used - SizeAt(s.artifacts, target)) else (s.artifacts, s.used - staged)
  }

  predicate Settling(phase: Phase) {
    Holds(phase) && !phase.Holding? && !phase.Encoded? && !phase.Reserving? && !phase.Refused? && !phase.Reserved?
  }

  /** What a settling publication knows of the counter and of the artifact it replaces. */
  ghost predicate Informed(s: Store, job: JobId)
    requires job in s.jobs
  {
    && Fresh(s, s.jobs[job]) && Charge(s.jobs[job].phase) <= s.used
    && SizeAt(s.artifacts, s.jobs[job].target) <= s.used
  }

  ghost predicate KeepsGoal(s: Store, next: Store, job: JobId)
    requires job in s.jobs
  {
    && job in next.jobs && Settled(next, job) == Settled(s, job)
    && (Settling(next.jobs[job].phase) || next.jobs[job].phase.Done?)
  }

  lemma SettleKeepsGoal(s: Store, job: JobId)
    requires job in s.jobs && Informed(s, job) && Unhindered(s, job)
    requires Settles(s.jobs[job].phase)
    ensures KeepsGoal(s, Settle(s, job, ALL_WELL), job)
  {
  }

  lemma LeaveKeepsGoal(s: Store, job: JobId)
    requires job in s.jobs && Informed(s, job)
    requires Leaves(s.jobs[job].phase)
    ensures KeepsGoal(s, Leave(s, job, ALL_WELL), job)
  {
  }

  lemma CommitStep(s: Store, job: JobId)
    requires Inv(s) && job in s.jobs && Settling(s.jobs[job].phase) && Unhindered(s, job)
    ensures KeepsGoal(s, Advance(s, job, ALL_WELL), job)
  {
    ChargeCovered(s, job);
    UsedHoldsArtifact(s, s.jobs[job].target);
    assert Informed(s, job);
    hide Inv, KeepsGoal, Settle, Install, Leave, Informed;
    if s.jobs[job].phase.Admitted? {
    } else if Settles(s.jobs[job].phase) {
      SettleKeepsGoal(s, job);
    } else {
      LeaveKeepsGoal(s, job);
    }
  }

  lemma UsedHoldsArtifact(s: Store, target: Path)
    requires Inv(s)
    ensures SizeAt(s.artifacts, target) <= s.used
  {
    if target in s.artifacts {
      SumWithout(s.artifacts, target);
    }
  }

  lemma DoneIsSettled(s: Store, job: JobId)
    requires job in s.jobs && s.jobs[job].phase.Done?
    ensures Settled(s, job) == (s.artifacts, s.used as int)
  {
  }

  /**
   * A commit or release that meets no failure: the staged preview becomes the artifact and the
   * previous file's bytes are given back, or, when it does not go through, its own bytes are.
   */
  lemma {:induction false} CommitSettles(s: Store, job: JobId, choices: seq<Choice>, ceiling: nat)
    requires Safe(s, ceiling) && job in s.jobs && Settling(s.jobs[job].phase) && Unhindered(s, job)
    requires |choices| >= Rank(s, job) && forall i | 0 <= i < |choices| :: choices[i] == ALL_WELL
    ensures Solo(s, job, choices).jobs[job].phase.Done?
    ensures (Solo(s, job, choices).artifacts, Solo(s, job, choices).used) == Settled(s, job)
    decreases |choices|
  {
    var next := Advance(s, job, ALL_WELL);
    assert next == Apply(s, Run(job, ALL_WELL));
    hide Advance, Apply, Rank, Settled, Inv;
    SoloStep(s, job, ALL_WELL);
    CommitStep(s, job);
    ApplySafe(s, Run(job, ALL_WELL), ceiling);
    hide Safe, Unhindered;
    if next.jobs[job].phase.Done? {
      DoneIsSettled(next, job);
      DoneStays(next, job, choices[1..]);
    } else {
      CommitSettles(next, job, choices[1..], ceiling);
    }
  }

  lemma PublishMoves(s: Store, job: JobId)
    requires job in s.jobs && !Blocked(s, job) && !Settles(s.jobs[job].phase) && !Leaves(s.jobs[job].phase)
    requires !s.jobs[job].phase.Admitted? && !s.jobs[job].phase.Done?
    ensures Rank(Publish(s, job, ALL_WELL), job) < Rank(s, job)
  {
  }

  lemma SettleMoves(s: Store, job: JobId)
    requires job in s.jobs && !Blocked(s, job) && Settles(s.jobs[job].phase)
    ensures Rank(Settle(s, job, ALL_WELL), job) < Rank(s, job)
  {
  }

  lemma LeaveMoves(s: Store, job: JobId)
    requires job in s.jobs && Leaves(s.jobs[job].phase)
    ensures Rank(Leave(s, job, ALL_WELL), job) < Rank(s, job)
  {
  }

  lemma InstallMoves(s: Store, job: JobId)
    requires job in s.jobs && s.jobs[job].phase.Admitted? && s.installLock == Some(job)
    ensures Rank(Install(s, job, ALL_WELL), job) < Rank(s, job)
  {
  }

  /** A publication that is not blocked has a step that brings it closer to its end. */
  lemma UnblockedMoves(s: Store, job: JobId)
    requires job in s.jobs && !s.jobs[job].phase.Done? && !Blocked(s, job)
    requires s.jobs[job].phase.Admitted? ==> s.installLock == Some(job)
    ensures Rank(Advance(s, job, ALL_WELL), job) < Rank(s, job)
  {
    hide Publish, Settle, Install, Leave, Rank;
    if s.jobs[job].phase.Admitted? {
      InstallMoves(s, job);
    } else if Settles(s.jobs[job].phase) {
      SettleMoves(s, job);
    } else if Leaves(s.jobs[job].phase) {
      LeaveMoves(s, job);
    } else {
      PublishMoves(s, job);
    }
  }

  /** In every reachable store some publication can come closer to its end unless all are over. */
  lemma NoDeadlock(start: Store, schedule: seq<Step>, job: JobId) returns (runnable: JobId)
    requires Opened(start)
    requires job in Exec(start, schedule).jobs && !Exec(start, schedule).jobs[job].phase.Done?
    ensures runnable in Exec(start, schedule).jobs
    ensures !Exec(start, schedule).jobs[runnable].phase.Done? && !Blocked(Exec(start, schedule), runnable)
    ensures Rank(Advance(Exec(start, schedule), runnable, ALL_WELL), runnable) < Rank(Exec(start, schedule), runnable)
  {
    var s := Exec(start, schedule);
    EveryRunIsSafe(start, schedule);
    runnable := job;
    if Blocked(s, runnable) && s.jobs[runnable].phase.Waiting? {
      runnable := OwnerOf(s, s.jobs[runnable].target);
    }
    if Blocked(s, runnable) {
      runnable := s.installLock.value;
    }
    assert !s.jobs[runnable].phase.Done? && !Blocked(s, runnable);
    assert s.jobs[runnable].phase.Admitted? ==> s.installLock == Some(runnable);
    hide Safe, Inv, Exec, Advance;
    UnblockedMoves(s, runnable);
  }
}
