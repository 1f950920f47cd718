/** What a publication achieves, and what each step does to the files and counters of the store. */
module PreviewCacheOutcomes {
  import opened Options
  import opened PreviewCache
  import opened PreviewCacheProofs
  import opened PreviewCacheRuns

  // ---------------------------------------------------------------- admission

  /**
   * A reservation is refused exactly if the preview does not fit the value it has seen, so a preview
   * that fits never is; it is counted exactly if that value is still the current one.
   */
  lemma RefusedIffTooLarge(s: Store, job: JobId, c: Choice, temporary: nat, replaced: nat, seen: nat)
    requires job in s.jobs && s.jobs[job].phase == Reserving(temporary, replaced, seen)
    ensures var next := Apply(s, Run(job, c));
            && job in next.jobs && next.jobs[job].target == s.jobs[job].target
            && (!Fits(s.budget, seen, temporary, replaced) ==>
                  next.jobs[job].phase == Refused(temporary) && next.used == s.used
                  && next.rejected >= s.rejected && next.rejected >= temporary - replaced
                  && (next.rejected == s.rejected || next.rejected == temporary - replaced))
            && (Fits(s.budget, seen, temporary, replaced) ==> next.rejected == s.rejected)
            && (Fits(s.budget, seen, temporary, replaced) && seen == s.used && c.ok ==>
                  next.jobs[job].phase == Reserved(temporary)
                  && (s.used + temporary <= U64_MAX ==> next.used == s.used + temporary))
            && (Fits(s.budget, seen, temporary, replaced) && !(seen == s.used && c.ok) ==>
                  next.jobs[job].phase == Reserving(temporary, replaced, s.used) && next.used == s.used)
  {
  }

  /** The bytes that the step's exchange adds to the counter, if it is one that succeeds. */
  function Exchanged(s: Store, step: Step): int {
    if !(step.Run? && step.job in s.jobs && step.choice.ok) then 0
    else
      match s.jobs[step.job].phase
      case Reserving(temporary, replaced, seen) =>
        if seen == s.used && Fits(s.budget, seen, temporary, replaced) then temporary else 0
      case Exchanging(bytes, seen) => if seen == s.used then -(bytes as int) else 0
      case _ => 0
  }

  /**
   * The counter changes by exchanges that find the value they have seen, and by nothing else; the
   * record of missing bytes is raised by a refusal, emptied when it is taken and else left alone.
   */
  lemma CountersChangeBy(s: Store, step: Step)
    ensures 0 <= s.used + Exchanged(s, step) <= U64_MAX ==> Apply(s, step).used == s.used + Exchanged(s, step)
    ensures step.TakeRejected? ==> Apply(s, step) == s.(rejected := 0)
    ensures Apply(s, step).rejected != s.rejected ==>
              step.TakeRejected? || (step.Run? && step.job in s.jobs && s.jobs[step.job].phase.Reserving?)
  {
  }

  // ---------------------------------------------------------------- what a step does to the files

  /** The bytes that the step leaves behind: a staged file or a previous artifact that is not deleted. */
  function NotDeleted(s: Store, step: Step): nat {
    if !(step.Run? && step.job in s.jobs) then 0
    else
      match s.jobs[step.job].phase
      case Removing(staged) => if step.choice.ok then 0 else staged
      case Admitted(_, _, Some(previous)) => if step.choice.other then 0 else previous
      case _ => 0
  }

  /** A refused temporary that cannot be deleted, which was never counted. */
  predicate Litters(s: Store, step: Step) {
    step.Run? && step.job in s.jobs && s.jobs[step.job].phase.Refused? && !step.choice.ok
  }

  /** Leftovers grow by a deletion that fails, by its bytes, and by nothing else. */
  lemma LeftoversGrowByFailedDeletions(s: Store, step: Step)
    ensures Leftovers(Apply(s, step)) == Leftovers(s) + NotDeleted(s, step)
    ensures Apply(s, step).litter == s.litter + if Litters(s, step) then s.jobs[step.job].phase.temporary else 0
  {
  }

  function FailedDeletions(s: Store, schedule: seq<Step>): nat {
    if schedule == [] then 0
    else
      var shorter := schedule[..|schedule| - 1];
      FailedDeletions(s, shorter) + NotDeleted(Exec(s, shorter), schedule[|schedule| - 1])
  }

  /** What a run leaks are the bytes of the deletions that failed in it. */
  lemma {:induction false} LeakedIsFailedDeletions(start: Store, schedule: seq<Step>)
    ensures Leaked(start, schedule) == FailedDeletions(start, schedule)
  {
    if schedule != [] {
      var shorter := schedule[..|schedule| - 1];
      LeakedIsFailedDeletions(start, shorter);
      LeftoversGrowByFailedDeletions(Exec(start, shorter), schedule[|schedule| - 1]);
      hide Apply, NotDeleted, Leftovers;
    }
  }

  /** The step installs a staged preview. */
  predicate Installs(s: Store, step: Step) {
    && step.Run? && step.job in s.jobs && s.jobs[step.job].phase.Admitted? && step.choice.ok
    && (s.jobs[step.job].phase.previous.Some? || s.jobs[step.job].target !in s.artifacts)
  }

  /** The step moves the artifact away and cannot move it back. */
  predicate Loses(s: Store, step: Step) {
    && step.Run? && step.job in s.jobs && s.jobs[step.job].phase.Admitted? && s.jobs[step.job].phase.previous.Some?
    && !step.choice.ok && !step.choice.other
  }

  /** An artifact appears or changes when its publication installs it, and goes when a replacement fails halfway. */
  lemma ArtifactsChangeIff(s: Store, step: Step)
    ensures Installs(s, step) ==>
              Apply(s, step).artifacts == s.artifacts[s.jobs[step.job].target := s.jobs[step.job].phase.staged]
    ensures Loses(s, step) ==> Apply(s, step).artifacts == s.artifacts - {s.jobs[step.job].target}
    ensures !Installs(s, step) && !Loses(s, step) ==> Apply(s, step).artifacts == s.artifacts
  {
  }

  /** An artifact that appeared since its size was read is replaced after all, at its own size. */
  lemma LateArtifactIsReplaced(s: Store, job: JobId, first: Choice, second: Choice)
    requires job in s.jobs && s.jobs[job].phase.Admitted? && s.jobs[job].phase.previous.None?
    requires s.jobs[job].target in s.artifacts && second.ok && second.other
    ensures var t := Apply(Apply(s, Run(job, first)), Run(job, second));
            && t.artifacts == s.artifacts[s.jobs[job].target := s.jobs[job].phase.staged]
            && t.jobs[job].phase == Releasing(s.artifacts[s.jobs[job].target]) && t.used == s.used
  {
  }

  // ---------------------------------------------------------------- whole publications

  /** One publication running alone, every choice the same. */
  function Running(s: Store, job: JobId, c: Choice, steps: nat): (after: Store)
    requires job in s.jobs
    ensures job in after.jobs
    decreases steps
  {
    if steps == 0 then s else Running(Advance(s, job, SoloChoice(s, job, c)), job, c, steps - 1)
  }

  /** Bytes of the installed artifact. */
  function Replaced(s: Store, target: Path): nat {
    if target in s.artifacts then s.artifacts[target] else 0
  }

  /** The store with this publication in this phase. */
  function At(s: Store, job: JobId, target: Path, phase: Phase): Store {
    s.(jobs := s.jobs[job := Job(target, phase)])
  }

  function Claimed(s: Store, target: Path): Store {
    s.(targets := s.targets + {target})
  }

  lemma Begins(s: Store, job: JobId, target: Path, c: Choice)
    requires job !in s.jobs && target !in s.targets && c.ok
    ensures Apply(s, Spawn(job, target)) == At(s, job, target, Waiting)
    ensures Advance(At(s, job, target, Waiting), job, c) == At(Claimed(s, target), job, target, Holding)
  {
  }

  lemma Encodes(s: Store, job: JobId, target: Path, c: Choice)
    requires c.ok
    ensures Advance(At(s, job, target, Holding), job, c) == At(s, job, target, Encoded(c.bytes))
    ensures Advance(At(s, job, target, Encoded(c.bytes)), job, c)
         == At(s, job, target, Reserving(c.bytes, Replaced(s, target), s.used))
  {
  }

  lemma Reserves(s: Store, job: JobId, target: Path, c: Choice)
    requires c.ok && s.used + c.bytes <= U64_MAX && Fits(s.budget, s.used, c.bytes, Replaced(s, target))
    ensures Advance(At(s, job, target, Reserving(c.bytes, Replaced(s, target), s.used)), job, c)
         == At(s.(used := s.used + c.bytes), job, target, Reserved(c.bytes))
    ensures Advance(At(s.(used := s.used + c.bytes), job, target, Reserved(c.bytes)), job, c)
         == At(s.(used := s.used + c.bytes), job, target, Staged(c.bytes, c.other || target in s.artifacts))
  {
  }

  function Missed(s: Store, target: Path, bytes: nat): Store {
    var short := if bytes < Replaced(s, target) then 0 else bytes - Replaced(s, target);
    s.(rejected := if s.rejected < short then short else s.rejected)
  }

  lemma Refuses(s: Store, job: JobId, target: Path, c: Choice)
    requires c.ok && !Fits(s.budget, s.used, c.bytes, Replaced(s, target))
    ensures Advance(At(s, job, target, Reserving(c.bytes, Replaced(s, target), s.used)), job, c)
         == At(Missed(s, target, c.bytes), job, target, Refused(c.bytes))
    ensures Advance(At(Missed(s, target, c.bytes), job, target, Refused(c.bytes)), job, c)
         == At(Missed(s, target, c.bytes), job, target, Finishing)
  {
  }

  lemma Frees(s: Store, job: JobId, target: Path, c: Choice)
    requires target !in s.targets && s.installLock != Some(job)
    ensures Advance(At(Claimed(s, target), job, target, Finishing), job, c) == At(s, job, target, Done)
  {
    assert (s.targets + {target}) - {target} == s.targets;
  }

  lemma OneMore(s: Store, job: JobId, target: Path, phase: Phase, c: Choice, steps: nat)
    requires c.ok
    ensures Running(At(s, job, target, phase), job, c, steps + 1)
         == Running(Advance(At(s, job, target, phase), job, c), job, c, steps)
    ensures Running(At(s, job, target, phase), job, c, 0) == At(s, job, target, phase)
  {
    assert c.(ok := true) == c;
    hide Advance;
  }

  /** A new publication whose target is free and whose preview fits is staged, with its bytes counted. */
  lemma FittingPreviewIsStaged(s: Store, job: JobId, target: Path, bytes: nat, force: bool)
    requires job !in s.jobs && target !in s.targets && s.used + bytes <= U64_MAX
    requires Fits(s.budget, s.used, bytes, Replaced(s, target))
    ensures Running(Apply(s, Spawn(job, target)), job, Choice(true, force, bytes), 5)
         == s.(used := s.used + bytes, targets := s.targets + {target},
               jobs := s.jobs[job := Job(target, Staged(bytes, force || target in s.artifacts))])
  {
    hide Advance, Apply, Running;
    var c, claimed := Choice(true, force, bytes), Claimed(s, target);
    var counted := claimed.(used := claimed.used + bytes);
    Begins(s, job, target, c);
    Encodes(claimed, job, target, c);
    Reserves(claimed, job, target, c);
    var staged := Staged(bytes, force || target in s.artifacts);
    assert At(counted, job, target, staged)
        == s.(used := s.used + bytes, targets := s.targets + {target}, jobs := s.jobs[job := Job(target, staged)]);
    hide At, Claimed;
    OneMore(s, job, target, Waiting, c, 4);
    OneMore(claimed, job, target, Holding, c, 3);
    OneMore(claimed, job, target, Encoded(bytes), c, 2);
    OneMore(claimed, job, target, Reserving(bytes, Replaced(claimed, target), claimed.used), c, 1);
    OneMore(counted, job, target, Reserved(bytes), c, 0);
    OneMore(counted, job, target, staged, c, 0);
  }

  /** One that does not fit ends without a trace but for the record of the bytes that were missing. */
  lemma TooLargePreviewIsRefused(s: Store, job: JobId, target: Path, bytes: nat)
    requires job !in s.jobs && target !in s.targets && s.installLock != Some(job)
    requires !Fits(s.budget, s.used, bytes, Replaced(s, target))
    ensures var short := if bytes < Replaced(s, target) then 0 else bytes - Replaced(s, target);
            Running(Apply(s, Spawn(job, target)), job, Choice(true, true, bytes), 6)
            == s.(rejected := if s.rejected < short then short else s.rejected, jobs := s.jobs[job := Job(target, Done)])
  {
    hide Advance, Apply, Running;
    var c, claimed := Choice(true, true, bytes), Claimed(s, target);
    var missed := Missed(claimed, target, bytes);
    Begins(s, job, target, c);
    Encodes(claimed, job, target, c);
    Refuses(claimed, job, target, c);
    Frees(Missed(s, target, bytes), job, target, c);
    assert missed == Claimed(Missed(s, target, bytes), target);
    assert At(Missed(s, target, bytes), job, target, Done)
        == s.(rejected := Missed(s, target, bytes).rejected, jobs := s.jobs[job := Job(target, Done)]);
    hide At, Claimed;
    OneMore(s, job, target, Waiting, c, 5);
    OneMore(claimed, job, target, Holding, c, 4);
    OneMore(claimed, job, target, Encoded(bytes), c, 3);
    OneMore(claimed, job, target, Reserving(bytes, Replaced(claimed, target), claimed.used), c, 2);
    OneMore(missed, job, target, Refused(bytes), c, 1);
    OneMore(missed, job, target, Finishing, c, 0);
    OneMore(Missed(s, target, bytes), job, target, Done, c, 0);
  }

  /** A publication running alone that meets no failure leaves nothing behind. */
  lemma {:induction false} WellRunLeavesNothing(s: Store, job: JobId, choices: seq<Choice>)
    requires job in s.jobs && forall i | 0 <= i < |choices| :: choices[i] == ALL_WELL
    ensures Leftovers(Solo(s, job, choices)) == Leftovers(s)
    decreases |choices|
  {
    if choices != [] {
      var next := Advance(s, job, ALL_WELL);
      assert next == Apply(s, Run(job, ALL_WELL));
      LeftoversGrowByFailedDeletions(s, Run(job, ALL_WELL));
      hide Advance, Apply;
      WellRunLeavesNothing(next, job, choices[1..]);
    }
  }

  lemma DiscardStep(s: Store, job: JobId, c: Choice, ceiling: nat)
    requires Safe(s, ceiling) && job in s.jobs && s.jobs[job].phase.Staged? && Unhindered(s, job) && !c.ok
    ensures var next := Advance(s, job, c);
            && job in next.jobs && next == Apply(s, Run(job, c)) && Unhindered(next, job) && Rank(next, job) <= Rank(s, job)
            && Settling(next.jobs[job].phase)
            && Settled(next, job) == (s.artifacts, s.used - s.jobs[job].phase.staged) && Leftovers(next) == Leftovers(s)
  {
    hide Safe;
  }

  /** A staged preview that is not wanted: its file goes and its bytes are given back. */
  lemma DiscardSettles(s: Store, job: JobId, discard: Choice, choices: seq<Choice>, ceiling: nat)
    requires Safe(s, ceiling) && job in s.jobs && s.jobs[job].phase.Staged? && Unhindered(s, job) && !discard.ok
    requires |choices| >= Rank(s, job) && forall i | 0 <= i < |choices| :: choices[i] == ALL_WELL
    ensures var t := Solo(s, job, [discard] + choices);
            && t.jobs[job].phase.Done? && t.artifacts == s.artifacts && Leftovers(t) == Leftovers(s)
            && t.used + s.jobs[job].phase.staged == s.used
  {
    hide Advance, Apply, Safe, Settled, Rank, Leftovers, Unhindered;
    DiscardStep(s, job, discard, ceiling);
    var next := Advance(s, job, discard);
    assert ([discard] + choices)[1..] == choices;
    assert Solo(s, job, [discard] + choices) == Solo(next, job, choices);
    hide Solo;
    ApplySafe(s, Run(job, discard), ceiling);
    CommitSettles(next, job, choices, ceiling);
    WellRunLeavesNothing(next, job, choices);
  }

  lemma UnusableStep(s: Store, job: JobId, ceiling: nat)
    requires Safe(s, ceiling) && job in s.jobs && s.jobs[job].phase.Committing? && Unhindered(s, job)
    requires s.used <= s.budget + Replaced(s, s.jobs[job].target)
    ensures var next := Advance(s, job, Choice(true, false, 0));
            && job in next.jobs && next == Apply(s, Run(job, Choice(true, false, 0)))
            && Unhindered(next, job) && Rank(next, job) <= Rank(s, job)
            && Settling(next.jobs[job].phase) && Leftovers(next) == Leftovers(s)
            && Settled(next, job) == (s.artifacts[s.jobs[job].target := s.jobs[job].phase.staged],
                                      s.used - Replaced(s, s.jobs[job].target))
  {
    hide Safe;
  }

  /** An artifact that turns out not to be usable does not stop the commit of a preview for it. */
  lemma UnusableIsReplaced(s: Store, job: JobId, choices: seq<Choice>, ceiling: nat)
    requires Safe(s, ceiling) && job in s.jobs && s.jobs[job].phase.Committing? && Unhindered(s, job)
    requires s.used <= s.budget + Replaced(s, s.jobs[job].target)
    requires |choices| >= Rank(s, job) && forall i | 0 <= i < |choices| :: choices[i] == ALL_WELL
    ensures var t := Solo(s, job, [Choice(true, false, 0)] + choices);
            && t.jobs[job].phase.Done? && Leftovers(t) == Leftovers(s)
            && t.artifacts == s.artifacts[s.jobs[job].target := s.jobs[job].phase.staged]
            && t.used + Replaced(s, s.jobs[job].target) == s.used
  {
    hide Advance, Apply, Safe, Settled, Rank, Leftovers, Unhindered;
    var look := Choice(true, false, 0);
    UnusableStep(s, job, ceiling);
    var next := Advance(s, job, look);
    assert ([look] + choices)[1..] == choices;
    assert Solo(s, job, [look] + choices) == Solo(next, job, choices);
    hide Solo;
    ApplySafe(s, Run(job, look), ceiling);
    CommitSettles(next, job, choices, ceiling);
    WellRunLeavesNothing(next, job, choices);
  }
}
