/**
 * The preview cache store (rust/src/adapters/preview_cache.rs) as a machine of publications.
 *
 * A publication is one call of `publish_preview` followed by the `commit` or `discard_staged` of
 * the materialization it returned. Its phase is its program counter together with the locals that
 * survive between shared accesses: every atomic load or exchange, every lock region and every
 * file operation is one step, and the outcome of an input/output operation is a choice.
 */
module PreviewCache {
  import opened Options

  type Path = string
  type JobId = nat

  function SaturatingAdd(left: nat, right: nat): nat {
    if left + right > U64_MAX then U64_MAX else left + right
  }

  function SaturatingSub(left: nat, right: nat): nat {
    if left < right then 0 else left - right
  }

  function Max(left: nat, right: nat): nat {
    if left < right then right else left
  }

  datatype Phase =
    | Waiting                                                      // blocked in acquire_staging_target
    | Holding                                                      // owns the publisher guard
    | Encoded(temporary: nat)                                      // temporary file written, not reserved
    | Reserving(temporary: nat, replaced: nat, seen: nat)          // reserve_staged loop, value loaded
    | Refused(temporary: nat)                                      // reservation refused, file still there
    | Reserved(staged: nat)                                        // bytes reserved, publisher guard
    | Staged(staged: nat, overwrites: bool)                          // owned by the materialization
    | Committing(staged: nat, overwrites: bool)                      // commit entered, completion guard
    | Locked(staged: nat, overwrites: bool)                          // install lock held
    | Sized(staged: nat, overwrites: bool, previous: Option<nat>)    // artifact metadata read
    | Admitted(staged: nat, overwrites: bool, previous: Option<nat>) // commit-time budget check passed
    | Removing(staging: nat)                                       // about to delete the staged file
    | Releasing(bytes: nat)                                        // about to enter the release loop
    | Exchanging(bytes: nat, seen: nat)                            // release loop, value loaded
    | Finishing                                                    // only guards left to drop
    | Done

  datatype Job = Job(target: Path, phase: Phase)

  datatype Store = Store(
    budget: nat,
    used: nat,                        // used_bytes
    rejected: nat,                    // rejected_reservation_bytes
    artifacts: map<Path, nat>,        // sizes of the installed artifacts
    retained: nat,                    // previous files kept because their deletion failed
    stranded: nat,                    // counted files no publication owns any more
    litter: nat,                      // refused temporaries that could not be deleted, never counted
    targets: set<Path>,               // staging_targets
    installLock: Option<JobId>,
    jobs: map<JobId, Job>)

  /** Outcomes that the store does not decide: I/O results, caller decisions, spurious failures. */
  datatype Choice = Choice(ok: bool, other: bool, bytes: nat)

  datatype Step =
    | Spawn(job: JobId, target: Path)
    | Run(job: JobId, choice: Choice)
    | TakeRejected

  function SizeAt(artifacts: map<Path, nat>, path: Path): nat {
    if path in artifacts then artifacts[path] else 0
  }

  function OrZero(size: Option<nat>): nat {
    match size
    case Some(bytes) => bytes
    case None => 0
  }

  /** The settled size that a reservation is admitted against. */
  function SettledBytes(used: nat, staged: nat, replaced: nat): nat {
    SaturatingAdd(SaturatingSub(used, replaced), staged)
  }

  /**
   * A preview fits if its bytes and the used ones, less those of the file it replaces, are within the
   * budget. A budget of all 64-bit numbers admits everything.
   */
  predicate Fits(budget: nat, used: nat, staged: nat, replaced: nat) {
    (if used < replaced then 0 else used - replaced) + staged <= budget || budget >= U64_MAX
  }

  function To(s: Store, job: JobId, phase: Phase): Store
    requires job in s.jobs
  {
    s.(jobs := s.jobs[job := s.jobs[job].(phase := phase)])
  }

  /** acquire_staging_target up to the outcome of reserve_staged. */
  function Publish(s: Store, job: JobId, c: Choice): Store
    requires job in s.jobs
  {
    var target := s.jobs[job].target;
    match s.jobs[job].phase
    case Waiting =>
      if target in s.targets then s else To(s.(targets := s.targets + {target}), job, Holding)
    case Holding =>
      // A reusable artifact or a failed encoding ends the publication; otherwise a file is written.
      if c.ok then To(s, job, Encoded(c.bytes)) else To(s, job, Finishing)
    case Encoded(temporary) =>
      var replaced := if c.ok then SizeAt(s.artifacts, target) else 0;
      To(s, job, Reserving(temporary, replaced, s.used))
    case Reserving(temporary, replaced, seen) =>
      if SettledBytes(seen, temporary, replaced) > s.budget then
        To(s.(rejected := Max(s.rejected, SaturatingSub(temporary, replaced))), job, Refused(temporary))
      else if seen == s.used && c.ok then
        To(s.(used := SaturatingAdd(seen, temporary)), job, Reserved(temporary))
      else
        To(s, job, Reserving(temporary, replaced, s.used))
    case Refused(temporary) =>
      To(if c.ok then s else s.(litter := s.litter + temporary), job, Finishing)
    case Reserved(staged) =>
      // Either the artifact description fails, or the guard passes to the materialization.
      if c.ok then To(s, job, Staged(staged, c.other || target in s.artifacts))
      else To(s, job, Removing(staged))
    case _ => s
  }

  /** discard_staged, and commit up to the installation itself. */
  function Settle(s: Store, job: JobId, c: Choice): Store
    requires job in s.jobs
  {
    var target := s.jobs[job].target;
    match s.jobs[job].phase
    case Staged(staged, overwrites) =>
      if c.ok then To(s, job, Committing(staged, overwrites)) else To(s, job, Removing(staged))
    case Committing(staged, overwrites) =>
      if !overwrites && target in s.artifacts && c.other then To(s, job, Removing(staged))
      else if s.installLock.Some? then s
      else To(s.(installLock := Some(job)), job, Locked(staged, overwrites))
    case Locked(staged, overwrites) =>
      if !c.ok then To(s, job, Removing(staged))
      else
        var previous := if target in s.artifacts then Some(s.artifacts[target]) else None;
        To(s, job, Sized(staged, overwrites, previous))
    case Sized(staged, overwrites, previous) =>
      if SaturatingSub(s.used, OrZero(previous)) > s.budget then To(s, job, Removing(staged))
      else To(s, job, Admitted(staged, overwrites, previous))
    case _ => s
  }

  /** install_new and replace, including the retry and the two ways a replacement can fail. */
  function Install(s: Store, job: JobId, c: Choice): Store
    requires job in s.jobs && s.jobs[job].phase.Admitted?
  {
    var target := s.jobs[job].target;
    var Admitted(staged, overwrites, previous) := s.jobs[job].phase;
    var installed := s.(artifacts := s.artifacts[target := staged]);
    match previous
    case None =>
      if target in s.artifacts then To(s, job, Admitted(staged, overwrites, Some(s.artifacts[target])))
      else if c.ok then To(installed, job, Finishing)
      else To(s, job, Removing(staged))
    case Some(bytes) =>
      if c.ok && c.other then To(installed, job, Releasing(bytes))
      else if c.ok then To(installed.(retained := s.retained + bytes), job, Finishing)
      else if c.other then To(s, job, Removing(staged))
      else // the artifact was moved to its backup and could not be moved back
        To(s.(artifacts := s.artifacts - {target}, retained := s.retained + bytes), job, Removing(staged))
  }

  /** remove_staged_file, release and the two drop guards. */
  function Leave(s: Store, job: JobId, c: Choice): Store
    requires job in s.jobs
  {
    match s.jobs[job].phase
    case Removing(staging) =>
      if c.ok then To(s, job, Releasing(staging))
      else To(s.(stranded := s.stranded + staging), job, Finishing)
    case Releasing(bytes) => To(s, job, Exchanging(bytes, s.used))
    case Exchanging(bytes, seen) =>
      if seen == s.used && c.ok then To(s.(used := SaturatingSub(seen, bytes)), job, Finishing)
      else To(s, job, Exchanging(bytes, s.used))
    case Finishing =>
      if s.installLock == Some(job) then s.(installLock := None)
      else To(s.(targets := s.targets - {s.jobs[job].target}), job, Done)
    case _ => s
  }

  function Advance(s: Store, job: JobId, c: Choice): Store
    requires job in s.jobs
  {
    match s.jobs[job].phase
    case Waiting | Holding | Encoded(_) | Reserving(_, _, _) | Refused(_) | Reserved(_) => Publish(s, job, c)
    case Staged(_, _) | Committing(_, _) | Locked(_, _) | Sized(_, _, _) => Settle(s, job, c)
    case Admitted(_, _, _) => Install(s, job, c)
    case Removing(_) | Releasing(_) | Exchanging(_, _) | Finishing | Done => Leave(s, job, c)
  }

  function Apply(s: Store, step: Step): Store {
    match step
    case Spawn(job, target) => if job in s.jobs then s else s.(jobs := s.jobs[job := Job(target, Waiting)])
    case Run(job, choice) => if job in s.jobs then Advance(s, job, choice) else s
    case TakeRejected => s.(rejected := 0)
  }

  /** Any interleaving: the steps of all threads in the order in which they took effect. */
  function Exec(s: Store, schedule: seq<Step>): Store {
    if schedule == [] then s else Apply(Exec(s, schedule[..|schedule| - 1]), schedule[|schedule| - 1])
  }

  const UNDISTURBED := Choice(true, true, 0)

  /**
   * The machine's step from the same counters: whatever else the store holds, a publication that
   * reserves against the value `base` leaves it as the loop does and goes on accordingly.
   */
  ghost predicate ReservesAs(budget: nat, base: nat, rejected: nat, staged: nat, replaced: nat,
                             admitted: bool, used: nat, rejectedAfter: nat)
  {
    forall s: Store, job: JobId |
      && job in s.jobs && s.jobs[job].phase == Reserving(staged, replaced, base)
      && s.budget == budget && s.used == base && s.rejected == rejected ::
      Apply(s, Run(job, UNDISTURBED))
      == To(s.(used := used, rejected := rejectedAfter), job, if admitted then Reserved(staged) else Refused(staged))
  }

  /** Likewise for a release. */
  ghost predicate ReleasesAs(base: nat, bytes: nat, used: nat) {
    forall s: Store, job: JobId | job in s.jobs && s.jobs[job].phase == Exchanging(bytes, base) && s.used == base ::
      Apply(s, Run(job, UNDISTURBED)) == To(s.(used := used), job, Finishing)
  }

  /**
   * The two compare-and-exchange loops as code. `others[k]` is the value that the other threads
   * leave in `usedBytes` just before attempt `k`; after the last entry they are quiet.
   */
  class LocalPreviewStore {
    const budgetBytes: nat
    var usedBytes: nat
    var rejectedReservationBytes: nat

    constructor (budget: nat, used: nat)
      ensures budgetBytes == budget && usedBytes == used && rejectedReservationBytes == 0
    {
      budgetBytes, usedBytes, rejectedReservationBytes := budget, used, 0;
    }

    /**
     * An admitted reservation adds its bytes to a value for which the admission test holds, and
     * it does so last; a refused one leaves the counter as the other threads left it.
     */
    method ReserveStaged(previewSize: nat, replacedSize: nat, others: seq<nat>) returns (admitted: bool, attempts: nat)
      modifies this
      ensures attempts <= |others| + 1
      ensures var base := ([old(usedBytes)] + others)[if attempts <= |others| then attempts else |others|];
              admitted ==> SettledBytes(base, previewSize, replacedSize) <= budgetBytes
                           && usedBytes == SaturatingAdd(base, previewSize)
                           && rejectedReservationBytes == old(rejectedReservationBytes)
      ensures var base := ([old(usedBytes)] + others)[if attempts <= |others| then attempts else |others|];
              !admitted ==> SettledBytes(base, previewSize, replacedSize) > budgetBytes
                            && usedBytes == base
                            && rejectedReservationBytes
                               == Max(old(rejectedReservationBytes), SaturatingSub(previewSize, replacedSize))
      ensures var base := ([old(usedBytes)] + others)[if attempts <= |others| then attempts else |others|];
              ReservesAs(budgetBytes, base, old(rejectedReservationBytes), previewSize, replacedSize,
                         admitted, usedBytes, rejectedReservationBytes)
      ensures var base := ([old(usedBytes)] + others)[if attempts <= |others| then attempts else |others|];
              && (admitted <==> Fits(budgetBytes, base, previewSize, replacedSize))
              && usedBytes == (if !admitted then base else if base + previewSize <= U64_MAX then base + previewSize else U64_MAX)
    {
      ghost var values := [usedBytes] + others;
      var seen := usedBytes;
      attempts := 0;
      while true
        invariant attempts <= |others|
        invariant seen == usedBytes == values[attempts]
        invariant rejectedReservationBytes == old(rejectedReservationBytes)
        decreases |others| - attempts
      {
        if SettledBytes(seen, previewSize, replacedSize) > budgetBytes {
          rejectedReservationBytes :=
            Max(rejectedReservationBytes, SaturatingSub(previewSize, replacedSize));
          return false, attempts;
        }
        if attempts < |others| {
          usedBytes := others[attempts];
        }
        attempts := attempts + 1;
        if usedBytes == seen {
          usedBytes := SaturatingAdd(seen, previewSize);
          return true, attempts;
        }
        seen := usedBytes;
      }
    }

    /** A release subtracts its bytes from the value that the other threads left last. */
    method Release(previewSize: nat, others: seq<nat>) returns (attempts: nat)
      modifies this`usedBytes
      ensures attempts <= |others| + 1
      ensures usedBytes == SaturatingSub(([old(usedBytes)] + others)[if attempts <= |others| then attempts else |others|],
                                         previewSize)
      ensures ReleasesAs(([old(usedBytes)] + others)[if attempts <= |others| then attempts else |others|],
                         previewSize, usedBytes)
    {
      ghost var values := [usedBytes] + others;
      var seen := usedBytes;
      attempts := 0;
      while true
        invariant attempts <= |others|
        invariant seen == usedBytes == values[attempts]
        decreases |others| - attempts
      {
        if attempts < |others| {
          usedBytes := others[attempts];
        }
        attempts := attempts + 1;
        if usedBytes == seen {
          usedBytes := SaturatingSub(seen, previewSize);
          return;
        }
        seen := usedBytes;
      }
    }
  }
}
