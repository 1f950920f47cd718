/**
 * Interrupting catalog maintenance (`CatalogMaintenanceControl` in rust/src/ports.rs):
 * two flags and a callback behind a mutex, used by any number of threads at once.
 */
module MaintenanceControl {
  import opened Options

  /**
   * How far one thread is with its one operation. `cancel` and `preempt` store a flag, copy the
   * callback under the mutex and call the copy outside it; `install_interrupt` stores its
   * callback, reads both flags and calls it, all under the mutex. The registry of operations
   * owns the user-cancelled flag and stores it once more before it calls `cancel`.
   */
  datatype Thread =
    | StoreShared
    | Signal(user: bool)
    | Copy
    | Call(copied: Option<nat>)
    | Install
    | ReadCancelled
    | ReadPreempted
    | CallInstalled
    | Clear
    | Finished

  /** A callback is named by the thread that installs it; `called` records every invocation. */
  datatype Control = Control(
    userCancelled: bool, preempted: bool, installed: Option<nat>, holder: Option<nat>, threads: seq<Thread>, called: set<nat>)

  predicate Interrupted(s: Control) {
    s.userCancelled || s.preempted
  }

  /** The operation needs the mutex next. */
  predicate NeedsMutex(thread: Thread) {
    thread.Copy? || thread.Install? || thread.Clear?
  }

  /** The operation holds the mutex. */
  predicate HoldsMutex(thread: Thread) {
    thread.ReadCancelled? || thread.ReadPreempted? || thread.CallInstalled?
  }

  predicate Blocked(s: Control, id: nat) {
    id >= |s.threads| || s.threads[id].Finished? || (NeedsMutex(s.threads[id]) && s.holder.Some?)
  }

  /** Where the thread's next step takes it. */
  function Next(s: Control, thread: Thread): Thread {
    match thread
    case StoreShared => Signal(true)
    case Signal(_) => Copy
    case Copy => Call(s.installed)
    case Install => ReadCancelled
    case ReadCancelled => if s.userCancelled then CallInstalled else ReadPreempted
    case ReadPreempted => if s.preempted then CallInstalled else Finished
    case _ => Finished
  }

  /** What the thread's next step does to the shared state. */
  function Shared(s: Control, id: nat, thread: Thread): Control {
    match thread
    case StoreShared => s.(userCancelled := true)
    case Signal(user) => if user then s.(userCancelled := true) else s.(preempted := true)
    case Call(copied) => if copied.Some? then s.(called := s.called + {copied.value}) else s
    case Install => s.(installed := Some(id), holder := Some(id))
    case ReadPreempted => if s.preempted then s else s.(holder := None)
    case CallInstalled => s.(called := s.called + {id}, holder := None)
    case Clear => s.(installed := None)
    case _ => s
  }

  /** One step of one thread; a thread that is finished or blocked changes nothing. */
  function Apply(s: Control, id: nat): Control {
    if Blocked(s, id) then s
    else Shared(s, id, s.threads[id]).(threads := s.threads[id := Next(s, s.threads[id])])
  }

  function Exec(s: Control, schedule: seq<nat>): Control
    decreases |schedule|
  {
    if schedule == [] then s else Exec(Apply(s, schedule[0]), schedule[1..])
  }

  predicate NotStarted(thread: Thread) {
    thread.StoreShared? || thread.Signal? || thread.Install? || thread.Clear?
  }

  /** A new control, over a user-cancelled flag that may have been set before, and its callers. */
  ghost predicate Begun(s: Control) {
    && s.installed.None? && s.holder.None? && s.called == {}
    && forall id | 0 <= id < |s.threads| :: NotStarted(s.threads[id])
  }

  /**
   * The owner's own store is enough: a callback that is installed after it is called, however far the
   * cancellation itself has come.
   */
  lemma StoredFlagIsEnough(s: Control, owner: nat, installer: nat)
    requires owner < |s.threads| && installer < |s.threads| && s.holder.None?
    requires s.threads[owner].StoreShared? && s.threads[installer].Install?
    ensures var t := Apply(Apply(Apply(Apply(s, owner), installer), installer), installer);
            t.userCancelled && installer in t.called && t.installed == Some(installer) && t.holder.None?
  {
  }

  // ---------------------------------------------------------------- what every step keeps

  /** Some thread is still bound to call the callback. */
  predicate WillCall(s: Control, id: nat, callback: nat) {
    id < |s.threads| &&
    match s.threads[id]
    case Signal(_) => true
    case Copy => true
    case Call(copied) => copied == Some(callback)
    case ReadCancelled => id == callback
    case ReadPreempted => id == callback && s.preempted
    case CallInstalled => id == callback
    case _ => false
  }

  ghost predicate NoneLost(s: Control) {
    Interrupted(s) && s.installed.Some? && s.installed.value !in s.called ==>
      exists id: nat :: WillCall(s, id, s.installed.value)
  }

  /** The mutex has at most one holder, and it is the installer of what is installed. */
  ghost predicate Guarded(s: Control) {
    && (s.holder.Some? ==> s.holder.value < |s.threads| && HoldsMutex(s.threads[s.holder.value]) && s.installed == s.holder)
    && (forall id: nat | id < |s.threads| && HoldsMutex(s.threads[id]) :: s.holder == Some(id))
  }

  /** A thread that has signalled or is about to call has a reason to. */
  predicate HasCause(s: Control, thread: Thread) {
    thread.Copy? || thread.Call? || thread.CallInstalled? ==> Interrupted(s)
  }

  ghost predicate Caused(s: Control) {
    && (s.called != {} ==> Interrupted(s))
    && (forall id: nat | id < |s.threads| :: HasCause(s, s.threads[id]))
  }

  ghost predicate Inv(s: Control) {
    NoneLost(s) && Guarded(s) && Caused(s)
  }

  /** What one step leaves alone. */
  lemma Frame(s: Control, id: nat)
    ensures var t := Apply(s, id);
            && |t.threads| == |s.threads|
            && (forall other: nat | other < |s.threads| && other != id :: t.threads[other] == s.threads[other])
            && (s.userCancelled ==> t.userCancelled) && (s.preempted ==> t.preempted)
            && s.called <= t.called
  {
  }

  lemma OthersWillCall(s: Control, id: nat, other: nat, callback: nat)
    requires WillCall(s, other, callback) && other != id
    ensures WillCall(Apply(s, id), other, callback)
  {
    Frame(s, id);
    hide Apply;
  }

  /** What the step of the acting thread does to what is owed. */
  lemma OwnWillCall(s: Control, id: nat)
    requires id < |s.threads| && Guarded(s)
    ensures var t := Apply(s, id);
            && (t.installed.Some? && t.installed != s.installed ==> WillCall(t, id, t.installed.value))
            && (Interrupted(t) && !Interrupted(s) ==> t.threads[id].Copy? || t.threads[id].Signal?)
            && (s.installed.Some? && t.installed == s.installed && Interrupted(s) && WillCall(s, id, s.installed.value) ==>
                  || WillCall(t, id, s.installed.value)
                  || s.installed.value in t.called
                  || (s.userCancelled && !s.preempted && s.threads[id].ReadPreempted?))
  {
  }

  lemma NoneLostStep(s: Control, id: nat)
    requires NoneLost(s) && Guarded(s)
    ensures NoneLost(Apply(s, id))
  {
    var t := Apply(s, id);
    Frame(s, id);
    if id < |s.threads| {
      OwnWillCall(s, id);
      hide Apply, Guarded;
      if Interrupted(t) && t.installed.Some? && t.installed.value !in t.called && !WillCall(t, id, t.installed.value) {
        var callback := t.installed.value;
        assert t.installed == s.installed && Interrupted(s) && callback !in s.called;
        var other: nat :| WillCall(s, other, callback);
        assert other != id;
        OthersWillCall(s, id, other, callback);
      }
    }
  }

  lemma OwnMutex(s: Control, id: nat)
    requires Guarded(s) && id < |s.threads|
    ensures var t := Apply(s, id);
            && |t.threads| == |s.threads|
            && (HoldsMutex(t.threads[id]) ==> t.holder == Some(id) && t.installed == Some(id) && (s.holder.None? || s.holder == Some(id)))
            && (!HoldsMutex(t.threads[id]) ==> t.holder == if s.holder == Some(id) then None else s.holder)
            && (s.holder.Some? ==> t.installed == s.installed)
  {
  }

  lemma GuardedStep(s: Control, id: nat)
    requires Guarded(s)
    ensures Guarded(Apply(s, id))
  {
    Frame(s, id);
    if id < |s.threads| {
      OwnMutex(s, id);
      hide Apply, HoldsMutex;
    }
  }

  lemma CausedStep(s: Control, id: nat)
    requires Caused(s)
    ensures Caused(Apply(s, id))
  {
    var t := Apply(s, id);
    Frame(s, id);
    if id < |s.threads| {
      assert HasCause(s, s.threads[id]);
      assert HasCause(t, t.threads[id]) && (t.called != {} ==> Interrupted(t));
    }
    hide Apply;
  }

  lemma InvStep(s: Control, id: nat)
    requires Inv(s)
    ensures Inv(Apply(s, id))
  {
    hide Apply, NoneLost, Guarded, Caused;
    NoneLostStep(s, id);
    GuardedStep(s, id);
    CausedStep(s, id);
  }

  lemma {:induction false} ExecKeeps(s: Control, schedule: seq<nat>)
    requires Inv(s)
    ensures Inv(Exec(s, schedule))
    decreases |schedule|
  {
    hide Apply, Inv;
    if schedule != [] {
      InvStep(s, schedule[0]);
      ExecKeeps(Apply(s, schedule[0]), schedule[1..]);
    }
  }

  lemma BegunIsSafe(s: Control)
    requires Begun(s)
    ensures Inv(s) && FromInstalls(s, s)
  {
  }

  // ---------------------------------------------------------------- only installed callbacks

  predicate FromInstall(began: Control, callback: nat) {
    callback < |began.threads| && began.threads[callback].Install?
  }

  /** Whatever the thread has to do with a callback, the callback was one to be installed. */
  predicate ActsOnInstalled(began: Control, id: nat, thread: Thread) {
    && (HoldsMutex(thread) || thread.Install? ==> FromInstall(began, id))
    && (thread.Call? && thread.copied.Some? ==> FromInstall(began, thread.copied.value))
  }

  ghost predicate FromInstalls(began: Control, s: Control) {
    && |s.threads| == |began.threads|
    && (forall id: nat | id < |s.threads| :: ActsOnInstalled(began, id, s.threads[id]))
    && (s.installed.Some? ==> FromInstall(began, s.installed.value))
    && (forall callback | callback in s.called :: FromInstall(began, callback))
  }

  lemma OwnInstalled(began: Control, s: Control, id: nat)
    requires id < |s.threads| && ActsOnInstalled(began, id, s.threads[id])
    requires s.installed.Some? ==> FromInstall(began, s.installed.value)
    ensures var t := Apply(s, id);
            && |t.threads| == |s.threads| && ActsOnInstalled(began, id, t.threads[id])
            && (t.installed.Some? ==> FromInstall(began, t.installed.value))
            && (forall callback | callback in t.called :: callback in s.called || FromInstall(began, callback))
  {
  }

  lemma FromInstallsStep(began: Control, s: Control, id: nat)
    requires FromInstalls(began, s)
    ensures FromInstalls(began, Apply(s, id))
  {
    var t := Apply(s, id);
    Frame(s, id);
    if id < |s.threads| {
      assert ActsOnInstalled(began, id, s.threads[id]);
      OwnInstalled(began, s, id);
      hide Apply, ActsOnInstalled, FromInstall;
    }
  }

  lemma {:induction false} InstallersInstall(began: Control, s: Control, schedule: seq<nat>)
    requires FromInstalls(began, s)
    ensures FromInstalls(began, Exec(s, schedule))
    decreases |schedule|
  {
    hide Apply, FromInstalls;
    if schedule != [] {
      FromInstallsStep(began, s, schedule[0]);
      InstallersInstall(began, Apply(s, schedule[0]), schedule[1..]);
    }
  }

  // ---------------------------------------------------------------- every run

  ghost predicate Quiet(s: Control) {
    forall id: nat | id < |s.threads| :: s.threads[id].Finished?
  }

  lemma QuietOwesNothing(s: Control, callback: nat)
    requires Quiet(s)
    ensures forall id: nat :: !WillCall(s, id, callback)
  {
  }

  /**
   * No interrupt is lost: however any number of cancellations, preemptions, installations and
   * clearings interleave, once they have all returned a callback that is still installed has been
   * called if anything was interrupted; and no callback is ever called unless something was.
   */
  lemma NoLostInterrupt(s: Control, schedule: seq<nat>)
    requires Begun(s)
    ensures var t := Exec(s, schedule);
            && (Quiet(t) && Interrupted(t) && t.installed.Some? ==> t.installed.value in t.called)
            && (t.called != {} ==> Interrupted(t))
            && (forall callback | callback in t.called :: callback < |s.threads| && s.threads[callback].Install?)
  {
    var t := Exec(s, schedule);
    BegunIsSafe(s);
    ExecKeeps(s, schedule);
    InstallersInstall(s, s, schedule);
    hide Exec;
    if Quiet(t) && t.installed.Some? {
      QuietOwesNothing(t, t.installed.value);
    }
  }

  // ---------------------------------------------------------------- nobody is stuck

  function Left(thread: Thread): nat {
    match thread
    case Finished => 0
    case Call(_) => 1
    case CallInstalled => 1
    case Clear => 1
    case Copy => 2
    case ReadPreempted => 2
    case Signal(_) => 3
    case StoreShared => 4
    case ReadCancelled => 3
    case Install => 4
  }

  /** Unless everything has returned, some thread has a step that brings it closer to its end. */
  lemma SomeThreadMoves(s: Control, schedule: seq<nat>) returns (id: nat)
    requires Begun(s) && !Quiet(Exec(s, schedule))
    ensures var t := Exec(s, schedule);
            && id < |t.threads| && Left(Apply(t, id).threads[id]) < Left(t.threads[id])
            && forall other: nat | other < |t.threads| && other != id :: Apply(t, id).threads[other] == t.threads[other]
  {
    BegunIsSafe(s);
    ExecKeeps(s, schedule);
    var t := Exec(s, schedule);
    hide Exec;
    if t.holder.Some? {
      id := t.holder.value;
    } else {
      id :| id < |t.threads| && !t.threads[id].Finished?;
    }
  }

  // ---------------------------------------------------------------- the operations themselves

  /** An operation that nothing interrupts takes all its steps in a row. */
  function Alone(s: Control, id: nat): Control {
    Apply(Apply(Apply(Apply(s, id), id), id), id)
  }

  class CatalogMaintenanceControl {
    var userCancelled: bool
    var preempted: bool
    var installed: Option<nat>
    var called: set<nat>

    ghost predicate Shows(s: Control)
      reads this
    {
      && userCancelled == s.userCancelled && preempted == s.preempted
      && installed == s.installed && called == s.called && s.holder.None?
    }

    /** The user-cancelled flag is shared with the owner of the control, who may have set it. */
    constructor (userCancelled: bool)
      ensures this.userCancelled == userCancelled && !preempted && installed.None? && called == {}
    {
      this.userCancelled, preempted, installed, called := userCancelled, false, None, {};
    }

    method Cancel(ghost s: Control, ghost id: nat)
      requires Shows(s) && id < |s.threads| && s.threads[id] == Signal(true)
      modifies this
      ensures Shows(Alone(s, id))
    {
      userCancelled := true;
      Interrupt();
    }

    method Preempt(ghost s: Control, ghost id: nat)
      requires Shows(s) && id < |s.threads| && s.threads[id] == Signal(false)
      modifies this
      ensures Shows(Alone(s, id))
    {
      preempted := true;
      Interrupt();
    }

    method Interrupt()
      modifies this`called
      ensures called == old(called) + (if installed.Some? then {installed.value} else {})
    {
      var copied := installed;
      if copied.Some? {
        called := called + {copied.value};
      }
    }

    method InstallInterrupt(ghost s: Control, id: nat)
      requires Shows(s) && id < |s.threads| && s.threads[id] == Install
      modifies this
      ensures Shows(Alone(s, id))
    {
      installed := Some(id);
      if userCancelled || preempted {
        called := called + {id};
      }
    }

    method ClearInterrupt(ghost s: Control, ghost id: nat)
      requires Shows(s) && id < |s.threads| && s.threads[id] == Clear
      modifies this
      ensures Shows(Alone(s, id))
    {
      installed := None;
    }
  }
}
