/** Admission control of the DNS proxy (src/proxy.rs): one global permit per task, and one per-origin permit
    before a task does any work. */
module Permits {
  import opened Addresses
  import opened Text
  import Fnv

  const MAX_GLOBAL: nat := 10000
  const MAX_PER_IP: nat := 32

  /** Origins the proxy serves: loopback, private, link-local and the managed source range. */
  predicate IsLocal(ip: IpAddr) {
    match ip
    case V4(a) =>
      || a / 0x100_0000 == 127
      || a / 0x100_0000 == 10 || a / 0x10_0000 == 0xAC1 || a / 0x1_0000 == 0xC0A8
      || a / 0x1_0000 == 0xA9FE
      || (a / 0x100_0000 == 198 && (a / 0x1_0000 % 256 == 18 || a / 0x1_0000 % 256 == 19))
    case V6(b) =>
      var top := b / 0x1_0000_0000_0000_0000_0000_0000_0000;
      b == 1 || top / 0x200 == 0x7E || top / 0x40 == 0x3FA
  }

  /** The served ranges in full: 127.0.0.0/8, 10.0.0.0/8, 172.16.0.0/12, 192.168.0.0/16, 169.254.0.0/16 and
      198.18.0.0/15; ::1, fc00::/7 and fe80::/10. Every other origin is dropped. */
  lemma LocalRanges(a: U32, b: U128)
    ensures IsLocal(V4(a)) <==>
      || 0x7F00_0000 <= a < 0x8000_0000 || 0x0A00_0000 <= a < 0x0B00_0000 || 0xAC10_0000 <= a < 0xAC20_0000
      || 0xC0A8_0000 <= a < 0xC0A9_0000 || 0xA9FE_0000 <= a < 0xA9FF_0000 || 0xC612_0000 <= a < 0xC614_0000
    ensures IsLocal(V6(b)) <==>
      || b == 1
      || 0xFC00_0000_0000_0000_0000_0000_0000_0000 <= b < 0xFE00_0000_0000_0000_0000_0000_0000_0000
      || 0xFE80_0000_0000_0000_0000_0000_0000_0000 <= b < 0xFEC0_0000_0000_0000_0000_0000_0000_0000
  {
  }

  /** A spawned task: waiting for its origin's permit, or past it. Either way it holds a global permit. */
  datatype Task = Waiting(ip: IpAddr) | Running(ip: IpAddr)

  /** Free global permits, the origin for which the receive loop holds a permit not yet given to a task, free permits
      of each origin seen, and the live tasks. */
  datatype State = State(free: nat, held: Option<IpAddr>, limits: map<IpAddr, nat>, tasks: seq<Task>)

  const INITIAL := State(MAX_GLOBAL, None, map[], [])

  datatype Step =
    | Receive(ip: IpAddr) // a datagram: dropped, or a global permit is taken for it
    | Spawn               // the loop reaches the origin's semaphore and hands its permit to a new task
    | Acquire(index: nat)
    | Exit(index: nat)   // every way out of a task: upstream error, or after the response was sent
    | Cancel(index: nat) // a task dropped while it still waits

  function Limit(limits: map<IpAddr, nat>, ip: IpAddr): nat {
    if ip in limits then limits[ip] else MAX_PER_IP
  }

  predicate Admits(s: State, ip: IpAddr) {
    IsLocal(ip) && s.free > 0
  }

  predicate Enabled(s: State, step: Step) {
    match step
    case Receive(_) => s.held.None?
    case Spawn => s.held.Some?
    case Acquire(i) => i < |s.tasks| && s.tasks[i].Waiting? && Limit(s.limits, s.tasks[i].ip) > 0
    case Exit(i) => i < |s.tasks| && s.tasks[i].Running?
    case Cancel(i) => i < |s.tasks| && s.tasks[i].Waiting?
  }

  function Without(tasks: seq<Task>, i: nat): seq<Task>
    requires i < |tasks|
  {
    tasks[..i] + tasks[i + 1..]
  }

  function Next(s: State, step: Step): State
    requires Enabled(s, step)
  {
    match step
    case Receive(ip) =>
      if Admits(s, ip) then s.(free := s.free - 1, held := Some(ip)) else s
    case Spawn =>
      var ip := s.held.value;
      s.(held := None, limits := s.limits[ip := Limit(s.limits, ip)], tasks := s.tasks + [Waiting(ip)])
    case Acquire(i) =>
      var ip := s.tasks[i].ip;
      s.(limits := s.limits[ip := Limit(s.limits, ip) - 1], tasks := s.tasks[i := Running(ip)])
    case Exit(i) =>
      var ip := s.tasks[i].ip;
      s.(free := s.free + 1, limits := s.limits[ip := Limit(s.limits, ip) + 1], tasks := Without(s.tasks, i))
    case Cancel(i) => s.(free := s.free + 1, tasks := Without(s.tasks, i))
  }

  class Proxy {
    var free: nat
    var held: Option<IpAddr>
    var limits: map<IpAddr, nat>
    var tasks: seq<Task>

    function Now(): State
      reads this
    {
      State(free, held, limits, tasks)
    }

    constructor ()
      ensures Now() == INITIAL
    {
      free, held, limits, tasks := MAX_GLOBAL, None, map[], [];
    }

    /** The first half of a turn of the receive loop: drop foreign origins, take a global permit or drop. */
    method ReceiveRequest(ip: IpAddr) returns (admitted: bool)
      requires held.None?
      modifies this
      ensures admitted == Admits(old(Now()), ip)
      ensures Now() == Next(old(Now()), Receive(ip))
    {
      admitted := false;
      if !IsLocal(ip) {
        return;
      }
      if free == 0 {
        return;
      }
      free, held, admitted := free - 1, Some(ip), true;
    }

    /** The second half: find or create the origin's semaphore, and spawn the task. */
    method SpawnTask()
      requires held.Some?
      modifies this
      ensures Now() == Next(old(Now()), Spawn)
    {
      var ip := held.value;
      if ip !in limits {
        limits := limits[ip := MAX_PER_IP];
      }
      assert limits == old(limits)[ip := Limit(old(limits), ip)];
      held, tasks := None, tasks + [Waiting(ip)];
    }

    /** A task gets its origin's permit. */
    method AcquirePermit(i: nat)
      requires Enabled(Now(), Acquire(i))
      modifies this
      ensures Now() == Next(old(Now()), Acquire(i))
    {
      var ip := tasks[i].ip;
      limits := limits[ip := Limit(limits, ip) - 1];
      tasks := tasks[i := Running(ip)];
    }

    /** A task ends and both its permits are returned. */
    method ExitTask(i: nat)
      requires Enabled(Now(), Exit(i))
      modifies this
      ensures Now() == Next(old(Now()), Exit(i))
    {
      var ip := tasks[i].ip;
      limits := limits[ip := Limit(limits, ip) + 1];
      free := free + 1;
      tasks := tasks[..i] + tasks[i + 1..];
    }
  }

  // ---------- conservation ----------

  function RunningOf(s: State, ip: IpAddr): nat {
    multiset(s.tasks)[Running(ip)]
  }

  function InHand(s: State): nat {
    if s.held.Some? then 1 else 0
  }

  /** Every permit is free, in the receive loop's hand, or held by exactly one live task. */
  ghost predicate Conserved(s: State) {
    && |s.tasks| + InHand(s) + s.free == MAX_GLOBAL
    && forall ip :: RunningOf(s, ip) + Limit(s.limits, ip) == MAX_PER_IP
  }

  lemma RemoveOne(tasks: seq<Task>, i: nat)
    requires i < |tasks|
    ensures multiset(tasks) == multiset(Without(tasks, i)) + multiset{tasks[i]}
  {
    assert tasks == tasks[..i] + [tasks[i]] + tasks[i + 1..];
  }

  lemma Replaced(tasks: seq<Task>, i: nat, task: Task)
    requires i < |tasks|
    ensures multiset(tasks[i := task]) + multiset{tasks[i]} == multiset(tasks) + multiset{task}
  {
    var rest, replaced := Without(tasks, i), tasks[i := task];
    RemoveOne(tasks, i);
    RemoveOne(replaced, i);
    assert Without(replaced, i) == rest;
  }

  lemma AcquireConserves(s: State, i: nat, ip: IpAddr)
    requires Conserved(s) && Enabled(s, Acquire(i))
    ensures var s' := Next(s, Acquire(i)); RunningOf(s', ip) + Limit(s'.limits, ip) == MAX_PER_IP
  {
    Replaced(s.tasks, i, Running(s.tasks[i].ip));
    assert RunningOf(s, ip) + Limit(s.limits, ip) == MAX_PER_IP;
  }

  lemma ExitConserves(s: State, i: nat, ip: IpAddr)
    requires Conserved(s) && Enabled(s, Exit(i))
    ensures var s' := Next(s, Exit(i)); RunningOf(s', ip) + Limit(s'.limits, ip) == MAX_PER_IP
  {
    RemoveOne(s.tasks, i);
    assert RunningOf(s, ip) + Limit(s.limits, ip) == MAX_PER_IP;
  }

  lemma SpawnConserves(s: State, ip: IpAddr)
    requires Conserved(s) && Enabled(s, Spawn)
    ensures var s' := Next(s, Spawn); RunningOf(s', ip) + Limit(s'.limits, ip) == MAX_PER_IP
  {
    var task := Waiting(s.held.value);
    assert multiset(s.tasks + [task]) == multiset(s.tasks) + multiset{task};
    assert RunningOf(s, ip) + Limit(s.limits, ip) == MAX_PER_IP;
  }

  lemma CancelConserves(s: State, i: nat, ip: IpAddr)
    requires Conserved(s) && Enabled(s, Cancel(i))
    ensures var s' := Next(s, Cancel(i)); RunningOf(s', ip) + Limit(s'.limits, ip) == MAX_PER_IP
  {
    RemoveOne(s.tasks, i);
    assert RunningOf(s, ip) + Limit(s.limits, ip) == MAX_PER_IP;
  }

  lemma ReceiveConserves(s: State, from: IpAddr, ip: IpAddr)
    requires Conserved(s) && Enabled(s, Receive(from))
    ensures var s' := Next(s, Receive(from)); RunningOf(s', ip) + Limit(s'.limits, ip) == MAX_PER_IP
  {
    assert RunningOf(s, ip) + Limit(s.limits, ip) == MAX_PER_IP;
  }

  lemma OriginConserved(s: State, step: Step, ip: IpAddr)
    requires Conserved(s) && Enabled(s, step)
    ensures RunningOf(Next(s, step), ip) + Limit(Next(s, step).limits, ip) == MAX_PER_IP
  {
    match step
    case Receive(from) => ReceiveConserves(s, from, ip);
    case Spawn => SpawnConserves(s, ip);
    case Acquire(i) => AcquireConserves(s, i, ip);
    case Exit(i) => ExitConserves(s, i, ip);
    case Cancel(i) => CancelConserves(s, i, ip);
  }

  lemma StepConserves(s: State, step: Step)
    requires Conserved(s) && Enabled(s, step)
    ensures Conserved(Next(s, step))
  {
    forall ip ensures RunningOf(Next(s, step), ip) + Limit(Next(s, step).limits, ip) == MAX_PER_IP {
      OriginConserved(s, step, ip);
    }
  }

  ghost predicate Run(states: seq<State>, steps: seq<Step>) {
    && |states| == |steps| + 1 && states[0] == INITIAL
    && forall i :: 0 <= i < |steps| ==> Follows(states[i], steps[i], states[i + 1])
  }

  predicate Follows(s: State, step: Step, s': State) {
    Enabled(s, step) && s' == Next(s, step)
  }

  /** In every run: live tasks, the permit in hand and free global permits add up to 10000, running tasks and free
      permits of every origin to 32; so at most 32 tasks of one origin are past the per-origin acquire, and once no
      task is left and none is being spawned every permit is free again. */
  lemma {:induction false} PermitsConserved(states: seq<State>, steps: seq<Step>)
    requires Run(states, steps)
    ensures var s := states[|steps|];
      && Conserved(s) && |s.tasks| + InHand(s) + s.free == 10000
      && (forall ip :: RunningOf(s, ip) + Limit(s.limits, ip) == 32)
      && (s.tasks == [] && s.held.None? ==> s.free == 10000 && forall ip :: Limit(s.limits, ip) == 32)
    decreases |steps|
  {
    if steps != [] {
      var n := |steps| - 1;
      PermitsConserved(states[..n + 1], steps[..n]);
      assert Follows(states[n], steps[n], states[n + 1]);
      StepConserves(states[n], steps[n]);
    }
  }

  /** Who gets in: in every run, between two turns of the loop, a request of any origin is served exactly when the
      origin is local and fewer than 10000 tasks are live, whoever they belong to. */
  lemma AdmissionIff(states: seq<State>, steps: seq<Step>, ip: IpAddr)
    requires Run(states, steps) && states[|steps|].held.None?
    ensures Admits(states[|steps|], ip) <==> IsLocal(ip) && |states[|steps|].tasks| < 10000
  {
    PermitsConserved(states, steps);
  }

  /** And who goes on: a waiting task can pass exactly when fewer than 32 tasks of its origin have. */
  lemma AcquireIff(states: seq<State>, steps: seq<Step>, i: nat)
    requires Run(states, steps) && i < |states[|steps|].tasks| && states[|steps|].tasks[i].Waiting?
    ensures var s := states[|steps|]; Enabled(s, Acquire(i)) <==> RunningOf(s, s.tasks[i].ip) < 32
  {
    PermitsConserved(states, steps);
    var s := states[|steps|];
    assert RunningOf(s, s.tasks[i].ip) + Limit(s.limits, s.tasks[i].ip) == MAX_PER_IP;
  }

  lemma ExtendRun(states: seq<State>, steps: seq<Step>, step: Step)
    requires Run(states, steps) && Enabled(states[|steps|], step)
    ensures Run(states + [Next(states[|steps|], step)], steps + [step])
  {
    var states', steps' := states + [Next(states[|steps|], step)], steps + [step];
    forall i | 0 <= i < |steps'| ensures Follows(states'[i], steps'[i], states'[i + 1]) {
      if i < |steps| {
        assert Follows(states[i], steps[i], states[i + 1]);
      }
    }
  }

  /** One origin sends `n` requests before any of its tasks gets further. */
  lemma {:induction false} Flood(a: IpAddr, n: nat) returns (states: seq<State>, steps: seq<Step>)
    requires IsLocal(a) && n <= MAX_GLOBAL
    ensures Run(states, steps)
    ensures var s := states[|steps|];
      && s.held.None? && |s.tasks| == n && s.free == MAX_GLOBAL - n
      && forall i :: 0 <= i < n ==> s.tasks[i] == Waiting(a)
  {
    if n == 0 {
      states, steps := [INITIAL], [];
    } else {
      states, steps := Flood(a, n - 1);
      var received := Next(states[|steps|], Receive(a));
      ExtendRun(states, steps, Receive(a));
      states, steps := states + [received], steps + [Receive(a)];
      ExtendRun(states, steps, Spawn);
      states, steps := states + [Next(received, Spawn)], steps + [Spawn];
    }
  }

  /** The global permit is taken before the per-origin wait, so the per-origin limit does not keep one origin from
      using up all global permits: every local origin has a run after which requests of all others are dropped. */
  lemma OneOriginStarvesOthers(a: IpAddr) returns (states: seq<State>, steps: seq<Step>)
    requires IsLocal(a)
    ensures Run(states, steps)
    ensures var s := states[|steps|];
      (forall i :: 0 <= i < |s.tasks| ==> s.tasks[i].ip == a) && forall b :: !Admits(s, b)
  {
    states, steps := Flood(a, MAX_GLOBAL);
  }

  /** Sources handed to rootless policies and addresses of Docker networks are origins the proxy serves. */
  lemma ManagedOriginsAreLocal(a: U32)
    requires Fnv.IsManaged(a) || 0xAC1E_0000 <= a < 0xAC1F_0000
    ensures IsLocal(V4(a))
  {
  }
}
