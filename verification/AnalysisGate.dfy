/**
 * The admission gate for background analysis
 * (rust/src/application/background_analysis.rs): tickets, a bounded queue and one lease.
 */
module AnalysisGate {
  import opened Options

  const MAX_WAITERS := 8

  datatype Gate = Gate(nextTicket: nat, active: Option<nat>, waiting: seq<nat>)

  /** Where one caller of `acquire` stands; a lease is held until it is dropped. */
  datatype Client = Idle | Waiting(ticket: nat) | Holding(ticket: nat)

  /** The gate, its callers, and the history of tickets granted and withdrawn. */
  datatype System = System(gate: Gate, clients: map<nat, Client>, grants: seq<nat>, withdrawn: set<nat>)

  /** One region under the gate's mutex. The flags are what the caller's cancellation reads. */
  datatype Step =
    | Arrive(client: nat, early: bool, cancelled: bool)
    | Wake(client: nat, cancelled: bool)
    | Drop(client: nat)

  function Without(waiting: seq<nat>, ticket: nat): seq<nat> {
    if waiting == [] then []
    else if waiting[0] == ticket then Without(waiting[1..], ticket)
    else [waiting[0]] + Without(waiting[1..], ticket)
  }

  predicate Refuses(gate: Gate) {
    |gate.waiting| >= MAX_WAITERS || gate.nextTicket >= U64_MAX
  }

  function Enqueue(gate: Gate): Gate {
    gate.(nextTicket := gate.nextTicket + 1, waiting := gate.waiting + [gate.nextTicket + 1])
  }

  predicate Admits(gate: Gate, ticket: nat) {
    gate.active.None? && gate.waiting != [] && gate.waiting[0] == ticket
  }

  function StateOf(s: System, client: nat): Client {
    if client in s.clients then s.clients[client] else Idle
  }

  /** One turn of the waiting loop. */
  function Look(s: System, client: nat, ticket: nat, cancelled: bool): System {
    var gate := s.gate;
    if cancelled then
      s.(gate := gate.(waiting := Without(gate.waiting, ticket)), clients := s.clients[client := Idle],
         withdrawn := s.withdrawn + {ticket})
    else if Admits(gate, ticket) then
      s.(gate := gate.(active := Some(ticket), waiting := gate.waiting[1..]), clients := s.clients[client := Holding(ticket)],
         grants := s.grants + [ticket])
    else s
  }

  function Join(s: System, client: nat): System {
    s.(gate := Enqueue(s.gate), clients := s.clients[client := Waiting(s.gate.nextTicket + 1)])
  }

  function Release(s: System, client: nat, ticket: nat): System {
    s.(gate := if s.gate.active == Some(ticket) then s.gate.(active := None) else s.gate, clients := s.clients[client := Idle])
  }

  function Apply(s: System, step: Step): System {
    var state := StateOf(s, step.client);
    match step
    case Arrive(client, early, cancelled) =>
      if !state.Idle? || early || Refuses(s.gate) then s
      else Look(Join(s, client), client, s.gate.nextTicket + 1, cancelled)
    case Wake(client, cancelled) =>
      if state.Waiting? then Look(s, client, state.ticket, cancelled) else s
    case Drop(client) =>
      if state.Holding? then Release(s, client, state.ticket) else s
  }

  function Exec(s: System, steps: seq<Step>): System
    decreases |steps|
  {
    if steps == [] then s else Exec(Apply(s, steps[0]), steps[1..])
  }

  function Opened(): System {
    System(Gate(0, None, []), map[], [], {})
  }

  // ---------------------------------------------------------------- what every step keeps

  ghost predicate Increasing(tickets: seq<nat>) {
    forall i, j | 0 <= i < j < |tickets| :: tickets[i] < tickets[j]
  }

  /** Every ticket issued so far is in exactly one place. */
  ghost predicate Accounted(s: System) {
    && (forall ticket: nat :: 1 <= ticket <= s.gate.nextTicket <==>
                              ticket in s.gate.waiting || ticket in s.grants || ticket in s.withdrawn)
    && (forall ticket | ticket in s.withdrawn :: ticket !in s.gate.waiting && ticket !in s.grants)
  }

  /** Grants and then the queue: all in the order the tickets were issued. */
  ghost predicate Ordered(s: System) {
    Increasing(s.grants + s.gate.waiting) && |s.gate.waiting| <= MAX_WAITERS
  }

  /** Callers and tickets belong together one to one. */
  ghost predicate Owned(s: System) {
    && (forall client | StateOf(s, client).Waiting? :: StateOf(s, client).ticket in s.gate.waiting)
    && (forall ticket | ticket in s.gate.waiting :: exists client :: StateOf(s, client) == Waiting(ticket))
    && (forall a, b | !StateOf(s, a).Idle? && StateOf(s, a) == StateOf(s, b) :: a == b)
  }

  /** The lease: one holder at most, holding the latest grant. */
  ghost predicate Leased(s: System) {
    && (forall client | StateOf(s, client).Holding? :: s.gate.active == Some(StateOf(s, client).ticket))
    && (s.gate.active.Some? ==>
          && s.grants != [] && s.grants[|s.grants| - 1] == s.gate.active.value
          && exists client :: StateOf(s, client) == Holding(s.gate.active.value))
  }

  ghost predicate Inv(s: System) {
    Accounted(s) && Ordered(s) && Owned(s) && Leased(s)
  }

  lemma {:induction false} WithoutHas(waiting: seq<nat>, ticket: nat, other: nat)
    ensures other in Without(waiting, ticket) <==> other in waiting && other != ticket
  {
    if waiting != [] {
      WithoutHas(waiting[1..], ticket, other);
      assert other in waiting <==> other == waiting[0] || other in waiting[1..];
    }
  }

  lemma {:induction false} WithoutIncreases(waiting: seq<nat>, ticket: nat)
    requires Increasing(waiting)
    ensures Increasing(Without(waiting, ticket))
  {
    if waiting != [] {
      var first, rest := waiting[0], Without(waiting[1..], ticket);
      WithoutIncreases(waiting[1..], ticket);
      if first != ticket {
        forall i | 0 <= i < |rest|
          ensures first < rest[i]
        {
          WithoutHas(waiting[1..], ticket, rest[i]);
        }
        assert Without(waiting, ticket) == [first] + rest;
      }
    }
  }

  lemma {:induction false} WithoutShrinks(waiting: seq<nat>, ticket: nat)
    ensures |Without(waiting, ticket)| <= |waiting|
  {
    if waiting != [] {
      WithoutShrinks(waiting[1..], ticket);
    }
  }

  lemma WithoutIs(waiting: seq<nat>, ticket: nat)
    ensures forall other: nat :: other in Without(waiting, ticket) <==> other in waiting && other != ticket
    ensures |Without(waiting, ticket)| <= |waiting|
    ensures Increasing(waiting) ==> Increasing(Without(waiting, ticket))
  {
    hide Without, Increasing;
    forall other: nat
      ensures other in Without(waiting, ticket) <==> other in waiting && other != ticket
    {
      WithoutHas(waiting, ticket, other);
    }
    WithoutShrinks(waiting, ticket);
    if Increasing(waiting) {
      WithoutIncreases(waiting, ticket);
    }
  }

  lemma {:induction false} WithoutBehind(grants: seq<nat>, waiting: seq<nat>, ticket: nat)
    requires Increasing(grants + waiting)
    ensures Increasing(grants + Without(waiting, ticket))
  {
    WithoutIs(waiting, ticket);
    var kept := Without(waiting, ticket);
    hide Without;
    assert Increasing(waiting) by {
      assert forall i | 0 <= i < |waiting| :: waiting[i] == (grants + waiting)[|grants| + i];
    }
    forall i, j | 0 <= i < j < |grants + kept|
      ensures (grants + kept)[i] < (grants + kept)[j]
    {
      if i < |grants| <= j {
        assert kept[j - |grants|] in kept;
        var k :| 0 <= k < |waiting| && waiting[k] == kept[j - |grants|];
        assert (grants + waiting)[i] < (grants + waiting)[|grants| + k];
      } else if j < |grants| {
        assert (grants + waiting)[i] < (grants + waiting)[j];
      }
    }
  }

  lemma TicketsAreOrdered(s: System)
    requires Inv(s)
    ensures Increasing(s.gate.waiting) && Increasing(s.grants)
    ensures forall g, w | g in s.grants && w in s.gate.waiting :: g < w
    ensures forall ticket | ticket in s.gate.waiting :: ticket <= s.gate.nextTicket
  {
    var all := s.grants + s.gate.waiting;
    assert forall i | 0 <= i < |s.gate.waiting| :: s.gate.waiting[i] == all[|s.grants| + i];
    assert forall i | 0 <= i < |s.grants| :: s.grants[i] == all[i];
  }

  lemma JoinKeeps(s: System, client: nat)
    requires Inv(s) && StateOf(s, client).Idle? && !Refuses(s.gate)
    ensures Inv(Join(s, client))
  {
    var t, ticket := Join(s, client), s.gate.nextTicket + 1;
    assert forall other :: StateOf(t, other) == if other == client then Waiting(ticket) else StateOf(s, other);
    assert forall i | 0 <= i < |s.grants + s.gate.waiting| :: (s.grants + s.gate.waiting)[i] in s.grants + s.gate.waiting;
    assert Ordered(t) by {
      assert t.grants + t.gate.waiting == (s.grants + s.gate.waiting) + [ticket];
    }
    assert Accounted(t);
    assert Leased(t) by {
      if s.gate.active.Some? {
        var holder :| StateOf(s, holder) == Holding(s.gate.active.value);
        assert StateOf(t, holder) == Holding(t.gate.active.value);
      }
    }
    forall other | other in t.gate.waiting
      ensures exists c :: StateOf(t, c) == Waiting(other)
    {
      if other == ticket {
        assert StateOf(t, client) == Waiting(other);
      } else {
        var c :| StateOf(s, c) == Waiting(other);
        assert StateOf(t, c) == Waiting(other);
      }
    }
  }

  lemma CancelKeeps(s: System, client: nat)
    requires Inv(s) && StateOf(s, client).Waiting?
    ensures Inv(Look(s, client, StateOf(s, client).ticket, true))
  {
    var ticket := StateOf(s, client).ticket;
    var t := Look(s, client, ticket, true);
    assert forall other :: StateOf(t, other) == if other == client then Idle else StateOf(s, other);
    TicketsAreOrdered(s);
    WithoutIs(s.gate.waiting, ticket);
    WithoutBehind(s.grants, s.gate.waiting, ticket);
    hide Without, Look;
    assert t.grants == s.grants && t.gate.active == s.gate.active;
    assert Leased(t) by {
      if s.gate.active.Some? {
        var holder :| StateOf(s, holder) == Holding(s.gate.active.value);
        assert StateOf(t, holder) == Holding(t.gate.active.value);
      }
    }
    forall other | other in t.gate.waiting
      ensures exists c :: StateOf(t, c) == Waiting(other)
    {
      var c :| StateOf(s, c) == Waiting(other);
      assert StateOf(t, c) == Waiting(other);
    }
  }

  lemma AdmitKeeps(s: System, client: nat)
    requires Inv(s) && StateOf(s, client).Waiting? && Admits(s.gate, StateOf(s, client).ticket)
    ensures Inv(Look(s, client, StateOf(s, client).ticket, false))
  {
    var ticket := StateOf(s, client).ticket;
    var t := Look(s, client, ticket, false);
    assert forall other :: StateOf(t, other) == if other == client then Holding(ticket) else StateOf(s, other);
    TicketsAreOrdered(s);
    assert s.gate.waiting == [ticket] + t.gate.waiting;
    assert t.grants == s.grants + [ticket] && t.gate.active == Some(ticket);
    assert t.withdrawn == s.withdrawn && t.gate.nextTicket == s.gate.nextTicket;
    assert t.grants + t.gate.waiting == s.grants + s.gate.waiting;
    MovesToGrants(s, t, ticket);
    assert ticket !in t.gate.waiting by {
      assert forall i | 0 <= i < |t.gate.waiting| :: t.gate.waiting[i] == s.gate.waiting[i + 1];
    }
    hide Look, Admits, Accounted;
    assert StateOf(t, client) == Holding(t.gate.active.value);
    forall other | other in t.gate.waiting
      ensures exists c :: StateOf(t, c) == Waiting(other)
    {
      var c :| StateOf(s, c) == Waiting(other);
      assert StateOf(t, c) == Waiting(other);
    }
  }

  lemma MovesToGrants(s: System, t: System, ticket: nat)
    requires Accounted(s) && t.withdrawn == s.withdrawn && t.gate.nextTicket == s.gate.nextTicket
    requires s.gate.waiting == [ticket] + t.gate.waiting && t.grants == s.grants + [ticket]
    ensures Accounted(t)
  {
    assert forall other: nat :: other in s.gate.waiting <==> other == ticket || other in t.gate.waiting;
    assert forall other: nat :: other in t.grants <==> other == ticket || other in s.grants;
    assert ticket in s.gate.waiting && ticket !in s.withdrawn;
    forall other: nat
      ensures 1 <= other <= t.gate.nextTicket <==> other in t.gate.waiting || other in t.grants || other in t.withdrawn
    {
      assert 1 <= other <= s.gate.nextTicket <==> other in s.gate.waiting || other in s.grants || other in s.withdrawn;
    }
  }

  lemma LookKeeps(s: System, client: nat, cancelled: bool)
    requires Inv(s) && StateOf(s, client).Waiting?
    ensures Inv(Look(s, client, StateOf(s, client).ticket, cancelled))
  {
    hide Inv;
    if cancelled {
      CancelKeeps(s, client);
    } else if Admits(s.gate, StateOf(s, client).ticket) {
      AdmitKeeps(s, client);
    }
  }

  lemma ReleaseKeeps(s: System, client: nat)
    requires Inv(s) && StateOf(s, client).Holding?
    ensures Inv(Release(s, client, StateOf(s, client).ticket))
  {
    var t := Release(s, client, StateOf(s, client).ticket);
    assert forall other :: StateOf(t, other) == if other == client then Idle else StateOf(s, other);
    forall ticket | ticket in t.gate.waiting
      ensures exists c :: StateOf(t, c) == Waiting(ticket)
    {
      var c :| StateOf(s, c) == Waiting(ticket);
      assert StateOf(t, c) == Waiting(ticket);
    }
  }

  lemma ApplyKeeps(s: System, step: Step)
    requires Inv(s)
    ensures Inv(Apply(s, step))
  {
    hide Inv, Look, Release;
    var client := step.client;
    match step {
      case Arrive(_, early, cancelled) =>
        if StateOf(s, client).Idle? && !early && !Refuses(s.gate) {
          JoinKeeps(s, client);
          LookKeeps(Join(s, client), client, cancelled);
        }
      case Wake(_, cancelled) =>
        if StateOf(s, client).Waiting? {
          LookKeeps(s, client, cancelled);
        }
      case Drop(_) =>
        if StateOf(s, client).Holding? {
          ReleaseKeeps(s, client);
        }
    }
  }

  lemma {:induction false} ExecKeeps(s: System, steps: seq<Step>)
    requires Inv(s)
    ensures Inv(Exec(s, steps))
    decreases |steps|
  {
    hide Inv, Apply;
    if steps != [] {
      ApplyKeeps(s, steps[0]);
      ExecKeeps(Apply(s, steps[0]), steps[1..]);
    }
  }

  // ---------------------------------------------------------------- every run

  /**
   * In every run: the queue is bounded; leases are granted in ticket order; a granted ticket
   * has no earlier one still waiting; and no two callers hold the lease.
   */
  lemma EveryRunIsFair(steps: seq<Step>)
    ensures var s := Exec(Opened(), steps);
            && |s.gate.waiting| <= MAX_WAITERS
            && Increasing(s.grants) && Increasing(s.gate.waiting)
            && (forall ticket: nat | 1 <= ticket <= s.gate.nextTicket && ticket !in s.grants && ticket !in s.withdrawn ::
                  forall granted | granted in s.grants :: granted < ticket)
            && (forall a, b | StateOf(s, a).Holding? && StateOf(s, b).Holding? :: a == b)
            && (s.gate.active.Some? <==> exists client :: StateOf(s, client).Holding?)
  {
    var s := Exec(Opened(), steps);
    assert Inv(Opened());
    ExecKeeps(Opened(), steps);
    TicketsAreOrdered(s);
    hide Exec;
    if s.gate.active.Some? {
      var holder :| StateOf(s, holder) == Holding(s.gate.active.value);
    }
  }

  /** How many waiting tickets are ahead of one. */
  function Ahead(waiting: seq<nat>, ticket: nat): nat {
    if waiting == [] then 0 else (if waiting[0] < ticket then 1 else 0) + Ahead(waiting[1..], ticket)
  }

  lemma {:induction false} AheadOfJoined(waiting: seq<nat>, last: nat, ticket: nat)
    requires ticket <= last
    ensures Ahead(waiting + [last], ticket) == Ahead(waiting, ticket)
  {
    if waiting != [] {
      assert (waiting + [last])[1..] == waiting[1..] + [last];
      AheadOfJoined(waiting[1..], last, ticket);
    }
  }

  lemma {:induction false} AheadWithout(waiting: seq<nat>, gone: nat, ticket: nat)
    ensures Ahead(Without(waiting, gone), ticket) <= Ahead(waiting, ticket)
  {
    if waiting != [] {
      AheadWithout(waiting[1..], gone, ticket);
      var rest := Without(waiting[1..], gone);
      assert ([waiting[0]] + rest)[1..] == rest;
    }
  }

  lemma {:induction false} AheadIsBounded(waiting: seq<nat>, ticket: nat)
    ensures Ahead(waiting, ticket) <= |waiting|
    ensures ticket in waiting ==> Ahead(waiting, ticket) < |waiting|
  {
    if waiting != [] {
      AheadIsBounded(waiting[1..], ticket);
    }
  }

  lemma LookDoesNotOvertake(s: System, client: nat, cancelled: bool, ticket: nat)
    requires Inv(s) && StateOf(s, client).Waiting?
    ensures var t := Look(s, client, StateOf(s, client).ticket, cancelled);
            ticket in t.gate.waiting ==>
              && ticket in s.gate.waiting
              && Ahead(t.gate.waiting, ticket) + |t.grants| <= Ahead(s.gate.waiting, ticket) + |s.grants|
  {
    var own := StateOf(s, client).ticket;
    TicketsAreOrdered(s);
    WithoutIs(s.gate.waiting, own);
    AheadWithout(s.gate.waiting, own, ticket);
    hide Without;
    if Admits(s.gate, own) {
      assert s.gate.waiting == [own] + s.gate.waiting[1..];
    }
  }

  lemma ArrivalDoesNotOvertake(s: System, client: nat, cancelled: bool, ticket: nat)
    requires Inv(s) && ticket in s.gate.waiting && StateOf(s, client).Idle? && !Refuses(s.gate)
    ensures var t := Look(Join(s, client), client, s.gate.nextTicket + 1, cancelled);
            ticket in t.gate.waiting ==> Ahead(t.gate.waiting, ticket) + |t.grants| <= Ahead(s.gate.waiting, ticket) + |s.grants|
  {
    TicketsAreOrdered(s);
    JoinKeeps(s, client);
    AheadOfJoined(s.gate.waiting, s.gate.nextTicket + 1, ticket);
    var joined := Join(s, client);
    assert joined.gate.waiting == s.gate.waiting + [s.gate.nextTicket + 1] && joined.grants == s.grants;
    assert StateOf(joined, client) == Waiting(s.gate.nextTicket + 1);
    hide Inv, Look, Join, Ahead;
    LookDoesNotOvertake(joined, client, cancelled, ticket);
  }

  lemma StepDoesNotOvertake(s: System, step: Step, ticket: nat)
    requires Inv(s) && ticket in s.gate.waiting
    ensures var t := Apply(s, step);
            ticket in t.gate.waiting ==> Ahead(t.gate.waiting, ticket) + |t.grants| <= Ahead(s.gate.waiting, ticket) + |s.grants|
  {
    hide Inv, Look, Join, Ahead;
    var client := step.client;
    if step.Arrive? && StateOf(s, client).Idle? && !step.early && !Refuses(s.gate) {
      ArrivalDoesNotOvertake(s, client, step.cancelled, ticket);
    } else if step.Wake? && StateOf(s, client).Waiting? {
      LookDoesNotOvertake(s, client, step.cancelled, ticket);
    }
  }

  lemma StaysGone(s: System, step: Step, ticket: nat)
    requires Inv(s) && 1 <= ticket <= s.gate.nextTicket && ticket !in s.gate.waiting
    ensures var t := Apply(s, step); ticket <= t.gate.nextTicket && ticket !in t.gate.waiting
  {
    var client := step.client;
    if step.Arrive? && StateOf(s, client).Idle? && !step.early && !Refuses(s.gate) {
      JoinKeeps(s, client);
      LookDoesNotOvertake(Join(s, client), client, step.cancelled, ticket);
    } else if step.Wake? && StateOf(s, client).Waiting? {
      LookDoesNotOvertake(s, client, step.cancelled, ticket);
    }
    hide Inv, Ahead;
  }

  lemma {:induction false} RunStaysGone(s: System, steps: seq<Step>, ticket: nat)
    requires Inv(s) && 1 <= ticket <= s.gate.nextTicket && ticket !in s.gate.waiting
    ensures ticket !in Exec(s, steps).gate.waiting
    decreases |steps|
  {
    hide Inv, Apply;
    if steps != [] {
      ApplyKeeps(s, steps[0]);
      StaysGone(s, steps[0], ticket);
      RunStaysGone(Apply(s, steps[0]), steps[1..], ticket);
    }
  }

  /** Bounded waiting: while a ticket waits, no more leases are granted than tickets were ahead of it. */
  lemma {:induction false} BoundedWaiting(s: System, steps: seq<Step>, ticket: nat)
    requires Inv(s) && ticket in s.gate.waiting && ticket in Exec(s, steps).gate.waiting
    ensures |Exec(s, steps).grants| - |s.grants| <= Ahead(s.gate.waiting, ticket) < MAX_WAITERS
    decreases |steps|
  {
    AheadIsBounded(s.gate.waiting, ticket);
    if steps != [] {
      var t := Apply(s, steps[0]);
      ApplyKeeps(s, steps[0]);
      StepDoesNotOvertake(s, steps[0], ticket);
      assert 1 <= ticket <= t.gate.nextTicket by {
        StillIssued(s, steps[0], ticket);
      }
      if ticket !in t.gate.waiting {
        RunStaysGone(t, steps[1..], ticket);
      }
      hide Apply, Ahead;
      BoundedWaiting(t, steps[1..], ticket);
    }
  }

  lemma StillIssued(s: System, step: Step, ticket: nat)
    requires Inv(s) && ticket in s.gate.waiting
    ensures 1 <= ticket <= Apply(s, step).gate.nextTicket
  {
    hide Without;
  }

  /**
   * Nobody waits at an idle gate: the caller at the head of the queue exists, and the next time
   * it looks without having been cancelled it gets the lease.
   */
  lemma FrontIsAdmitted(steps: seq<Step>) returns (client: nat)
    requires Exec(Opened(), steps).gate.waiting != []
    ensures var s := Exec(Opened(), steps);
            && StateOf(s, client) == Waiting(s.gate.waiting[0])
            && (s.gate.active.None? ==> StateOf(Apply(s, Wake(client, false)), client) == Holding(s.gate.waiting[0]))
  {
    var s := Exec(Opened(), steps);
    assert Inv(Opened());
    ExecKeeps(Opened(), steps);
    hide Exec;
    assert s.gate.waiting[0] in s.gate.waiting;
    client :| StateOf(s, client) == Waiting(s.gate.waiting[0]);
  }

  /**
   * What becomes of an arrival: unless it was cancelled before, the queue is full or the tickets are
   * exhausted, it takes the next ticket and leaves again if it is cancelled, gets the lease if nobody
   * waits or holds it, and otherwise waits last in the queue. Nobody else is affected.
   */
  lemma ArrivalIsServed(s: System, client: nat, early: bool, cancelled: bool)
    requires Inv(s) && StateOf(s, client).Idle?
    ensures var t := Apply(s, Arrive(client, early, cancelled));
            var ticket := s.gate.nextTicket + 1;
            if early || |s.gate.waiting| >= 8 || s.gate.nextTicket >= U64_MAX then t == s
            else
              && t.gate.nextTicket == ticket
              && (forall other | other != client :: StateOf(t, other) == StateOf(s, other))
              && if cancelled then
                   StateOf(t, client) == Idle && t.gate.waiting == s.gate.waiting && t.gate.active == s.gate.active
                 else if s.gate.waiting == [] && s.gate.active.None? then
                   StateOf(t, client) == Holding(ticket) && t.gate.waiting == [] && t.gate.active == Some(ticket)
                 else
                   StateOf(t, client) == Waiting(ticket) && t.gate.waiting == s.gate.waiting + [ticket]
                   && t.gate.active == s.gate.active
  {
    var ticket := s.gate.nextTicket + 1;
    TicketsAreOrdered(s);
    assert ticket !in s.gate.waiting;
    WithoutLast(s.gate.waiting, ticket);
    hide Without, Inv;
    assert s.gate.waiting == [] ==> (s.gate.waiting + [ticket])[1..] == [];
  }

  lemma {:induction false} WithoutLast(waiting: seq<nat>, ticket: nat)
    requires ticket !in waiting
    ensures Without(waiting + [ticket], ticket) == waiting
  {
    if waiting != [] {
      WithoutLast(waiting[1..], ticket);
      assert (waiting + [ticket])[1..] == waiting[1..] + [ticket];
    }
  }

  /** Cancelling removes the caller's own ticket from the queue and no other, keeping the order. */
  lemma CancelRemovesOwn(steps: seq<Step>, client: nat)
    requires StateOf(Exec(Opened(), steps), client).Waiting?
    ensures var s := Exec(Opened(), steps);
            var t := Apply(s, Wake(client, true));
            exists k: nat :: k < |s.gate.waiting| && s.gate.waiting[k] == StateOf(s, client).ticket
                             && t.gate == s.gate.(waiting := s.gate.waiting[..k] + s.gate.waiting[k + 1..])
  {
    var s := Exec(Opened(), steps);
    assert Inv(Opened());
    ExecKeeps(Opened(), steps);
    hide Exec;
    TicketsAreOrdered(s);
    var ticket := StateOf(s, client).ticket;
    var k :| 0 <= k < |s.gate.waiting| && s.gate.waiting[k] == ticket;
    WithoutOne(s.gate.waiting, k);
  }

  lemma {:induction false} WithoutOne(waiting: seq<nat>, k: nat)
    requires k < |waiting| && Increasing(waiting)
    ensures Without(waiting, waiting[k]) == waiting[..k] + waiting[k + 1..]
  {
    if k == 0 {
      WithoutAbsent(waiting[1..], waiting[0]);
    } else {
      WithoutOne(waiting[1..], k - 1);
      assert waiting[..k] == [waiting[0]] + waiting[1..][..k - 1];
      assert waiting[k + 1..] == waiting[1..][k..];
    }
  }

  lemma {:induction false} WithoutAbsent(waiting: seq<nat>, ticket: nat)
    requires ticket !in waiting
    ensures Without(waiting, ticket) == waiting
  {
    if waiting != [] {
      WithoutAbsent(waiting[1..], ticket);
    }
  }

  // ---------------------------------------------------------------- the regions under the mutex

  datatype AdmissionError = Busy | Unavailable

  class BackgroundAnalysisGate {
    var nextTicket: nat
    var active: Option<nat>
    var waiting: seq<nat>

    ghost function Value(): Gate
      reads this
    {
      Gate(nextTicket, active, waiting)
    }

    constructor ()
      ensures Value() == Opened().gate
    {
      nextTicket := 0;
      active := None;
      waiting := [];
    }

    /** Takes a ticket, or refuses: a full queue is noticed before the tickets run out. */
    method Enter() returns (ticket: Result<nat, AdmissionError>)
      modifies this
      ensures ticket.Err? <==> Refuses(old(Value()))
      ensures ticket == Err(Busy) <==> |old(waiting)| >= MAX_WAITERS
      ensures ticket.Ok? ==> ticket.value == old(nextTicket) + 1 && Value() == Enqueue(old(Value()))
      ensures ticket.Err? ==> Value() == old(Value())
    {
      if |waiting| >= MAX_WAITERS {
        return Err(Busy);
      }
      if nextTicket >= U64_MAX {
        return Err(Unavailable);
      }
      nextTicket := nextTicket + 1;
      waiting := waiting + [nextTicket];
      ticket := Ok(nextTicket);
    }

    /** One turn of the waiting loop: what becomes of the caller, in agreement with the model's turn. */
    method TakeTurn(ghost s: System, client: nat, ticket: nat, cancelled: bool) returns (state: Client)
      requires s.gate == Value() && StateOf(s, client) == Waiting(ticket)
      modifies this
      ensures Value() == Look(s, client, ticket, cancelled).gate
      ensures state == StateOf(Look(s, client, ticket, cancelled), client)
      ensures Value() == Apply(s, Wake(client, cancelled)).gate && state == StateOf(Apply(s, Wake(client, cancelled)), client)
    {
      if cancelled {
        Retain(ticket);
        return Idle;
      }
      if active.None? && |waiting| > 0 && waiting[0] == ticket {
        waiting := waiting[1..];
        active := Some(ticket);
        return Holding(ticket);
      }
      state := Waiting(ticket);
    }

    /** `acquire` up to its first wait, in agreement with the machine's arrival. */
    method Acquire(ghost s: System, client: nat, early: bool, cancelled: bool) returns (state: Client)
      requires s.gate == Value() && StateOf(s, client).Idle?
      modifies this
      ensures Value() == Apply(s, Arrive(client, early, cancelled)).gate
      ensures state == StateOf(Apply(s, Arrive(client, early, cancelled)), client)
    {
      if early {
        return Idle;
      }
      var ticket := Enter();
      if ticket.Err? {
        return Idle;
      }
      state := TakeTurn(Join(s, client), client, ticket.value, cancelled);
    }

    method Retain(ticket: nat)
      modifies this
      ensures Value() == old(Value()).(waiting := Without(old(waiting), ticket))
    {
      var kept := [];
      for i := 0 to |waiting|
        invariant Value() == old(Value())
        invariant kept + Without(waiting[i..], ticket) == Without(waiting, ticket)
      {
        assert waiting[i..][1..] == waiting[i + 1..];
        if waiting[i] != ticket {
          kept := kept + [waiting[i]];
        }
      }
      assert waiting[|waiting|..] == [];
      waiting := kept;
    }

    /** Dropping a lease. */
    method DropLease(ghost s: System, client: nat, ticket: nat)
      requires s.gate == Value() && StateOf(s, client) == Holding(ticket)
      modifies this
      ensures Value() == Release(s, client, ticket).gate == Apply(s, Drop(client)).gate
    {
      if active == Some(ticket) {
        active := None;
      }
    }
  }
}
