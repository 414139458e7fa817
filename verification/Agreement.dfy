/** When do the kernel's sets agree with the daemon's state? Writes happen after the lock is released, so they
    may overtake each other; these lemmas say exactly what that costs (src/state.rs, src/proxy.rs). */
module Agreement {
  import opened Text
  import opened Addresses
  import opened AllowSet
  import opened Ipset
  import opened AllowRun
  import Control

  // ---------- a write always carries a value the state held ----------

  predicate Holds(s: State, name: string, ips: set<IpAddr>) {
    name in s.policies && s.policies[name].ips == ips
  }

  ghost predicate Held(states: seq<State>, name: string, ips: set<IpAddr>) {
    exists i :: 0 <= i < |states| && Holds(states[i], name, ips)
  }

  ghost predicate AllHeld(states: seq<State>, s: State) {
    forall i :: 0 <= i < |s.pending| ==> Held(states, s.pending[i].name, ToSet(s.pending[i].listing))
  }

  lemma HeldExtends(states: seq<State>, s: State, name: string, ips: set<IpAddr>)
    requires Held(states, name, ips)
    ensures Held(states + [s], name, ips)
  {
    var i :| 0 <= i < |states| && Holds(states[i], name, ips);
    assert (states + [s])[i] == states[i];
  }

  lemma PendingWasHeld(states: seq<State>, s: State, step: Step, s': State, i: nat)
    requires states != [] && s == states[|states| - 1] && AllHeld(states, s) && Follows(s, step, s')
    requires i < |s'.pending|
    ensures Held(states + [s'], s'.pending[i].name, ToSet(s'.pending[i].listing))
  {
    if step.Resolve? && i >= |s.pending| {
      var j := ResolveAppends(s, step, s', i);
      var p := step.snapshots[j];
      var after, grown := ApplyMessage(s.policies, step.message), ChangedBy(s.policies, step.message);
      assert TakenFrom(after, grown, s.tickets, p, j);
      assert (states + [s'])[|states|] == s' && Holds(s', p.name, ToSet(p.listing));
    } else {
      var j := OldIndex(s, step, s', i);
      HeldExtends(states, s', s.pending[j].name, ToSet(s.pending[j].listing));
    }
  }

  lemma {:induction false} PendingHeldInRuns(states: seq<State>, steps: seq<Step>)
    requires Run(states, steps)
    ensures AllHeld(states, states[|steps|])
    decreases |steps|
  {
    if |steps| > 0 {
      var n := |steps| - 1;
      var earlier := states[..n + 1];
      assert Run(earlier, steps[..n]);
      PendingHeldInRuns(earlier, steps[..n]);
      assert Follows(states[n], steps[n], states[n + 1]);
      assert states == earlier + [states[n + 1]];
      var pending := states[n + 1].pending;
      forall i | 0 <= i < |pending| ensures Held(states, pending[i].name, ToSet(pending[i].listing)) {
        PendingWasHeld(earlier, states[n], steps[n], states[n + 1], i);
      }
    }
  }

  /** In every run, a completed write leaves the policy's pair of kernel sets equal to the two parts of a value
      the state held for that policy at some moment. */
  lemma WriteLeavesHeldValue(states: seq<State>, steps: seq<Step>, index: nat)
    requires Run(states, steps) && Enabled(states[|steps|], Write(index))
    requires HasPair(states[|steps|].kernel, states[|steps|].pending[index].name)
    ensures var s := states[|steps|];
      var p := s.pending[index];
      var after := Next(s, Write(index)).kernel;
      && HasPair(after, p.name) && PairOf(after, p.name) == Pair(ToSet(p.listing))
      && Held(states, p.name, ToSet(p.listing))
  {
    var p := states[|steps|].pending[index];
    PendingHeldInRuns(states, steps);
    RestoreFillsPair(states[|steps|].kernel, p.name, p.listing);
  }

  // ---------- one epoch: from a CREATE to the next ----------

  /** What an observer of one policy notes: the pair of kernel sets and the writes still under way when the epoch
      began, the snapshots taken since, by ticket, the newest of those, and the tickets whose writes completed, in
      that order, or were lost. */
  datatype Track = Track(
    base: (KernelSet, KernelSet), older: map<nat, set<IpAddr>>, snaps: map<nat, set<IpAddr>>,
    newest: Option<nat>, written: seq<nat>, lost: set<nat>)

  function FindSnapshot(snapshots: seq<Pending>, name: string): (p: Option<Pending>)
    ensures p.Some? ==> p.value in snapshots && p.value.name == name
    ensures p.None? ==> forall i :: 0 <= i < |snapshots| ==> snapshots[i].name != name
  {
    if snapshots == [] then None
    else if snapshots[0].name == name then Some(snapshots[0])
    else FindSnapshot(snapshots[1..], name)
  }

  function Observe(t: Track, s: State, step: Step, name: string): Track {
    match step
    case Resolve(_, snapshots) =>
      (match FindSnapshot(snapshots, name)
       case Some(p) => t.(snaps := t.snaps[p.ticket := ToSet(p.listing)], newest := Some(p.ticket))
       case None => t)
    case Write(i) =>
      if i < |s.pending| && s.pending[i].name == name then t.(written := t.written + [s.pending[i].ticket]) else t
    case Abort(i) =>
      if i < |s.pending| && s.pending[i].name == name then t.(lost := t.lost + {s.pending[i].ticket}) else t
    case _ => t
  }

  /** Two policies share no kernel set. */
  predicate Separate(a: string, b: string) {
    a != b && a != Ipv6Name(b) && Ipv6Name(a) != b
  }

  /** A step within the epoch of a policy: no CREATE, REMOVE or set creation for it, and no line of a write on its
      sets on its own: each of its writes is done as a whole or lost. */
  predicate Calm(s: State, step: Step, name: string) {
    match step
    case Control(request) => !Resets(request, name)
    case MakeSets(n, _, _) => Separate(n, name)
    case Line(i) => i < |s.pending| ==> Separate(s.pending[i].name, name)
    case Write(i) => i < |s.pending| ==> s.pending[i].name == name || Separate(s.pending[i].name, name)
    case _ => true
  }

  /** The addresses a write carries. */
  function Content(t: Track, ticket: nat): set<IpAddr> {
    if ticket in t.snaps then t.snaps[ticket] else if ticket in t.older then t.older[ticket] else {}
  }

  /** What the kernel was last told. */
  function LastPair(t: Track): (KernelSet, KernelSet) {
    if t.written == [] then t.base else Pair(Content(t, t.written[|t.written| - 1]))
  }

  predicate Growing(t: Track) {
    && (forall k :: k in t.snaps ==> t.snaps[k] != {})
    && (forall j, k :: j in t.snaps && k in t.snaps && j < k ==> t.snaps[j] < t.snaps[k])
    && (t.newest.None? ==> t.snaps == map[])
    && (t.newest.Some? ==> t.newest.value in t.snaps && forall k :: k in t.snaps ==> k <= t.newest.value)
    && (forall i :: 0 <= i < |t.written| ==> t.written[i] in t.snaps || t.written[i] in t.older)
    && (forall j, k :: j in t.older && k in t.snaps ==> j < k)
  }

  predicate PendingTracked(s: State, name: string, t: Track) {
    forall i :: 0 <= i < |s.pending| && s.pending[i].name == name ==>
      && (s.pending[i].ticket in t.snaps || s.pending[i].ticket in t.older)
      && ToSet(s.pending[i].listing) == Content(t, s.pending[i].ticket)
  }

  ghost predicate AllAccounted(s: State, name: string, t: Track) {
    forall k :: k in t.snaps ==> k in t.written || k in t.lost || Waits(s, name, k)
  }

  /** The write with this ticket is still to come. */
  ghost predicate Waits(s: State, name: string, ticket: nat) {
    exists i :: 0 <= i < |s.pending| && s.pending[i].name == name && s.pending[i].ticket == ticket
  }

  function Current(t: Track): set<IpAddr> {
    if t.newest.Some? && t.newest.value in t.snaps then t.snaps[t.newest.value] else {}
  }

  ghost predicate Tracked(s: State, name: string, t: Track) {
    && name in s.policies && s.policies[name].ips == Current(t)
    && Growing(t) && (forall k :: k in t.snaps || k in t.older ==> k < s.tickets)
    && PendingTracked(s, name, t) && AllAccounted(s, name, t)
    && HasPair(s.kernel, name) && PairOf(s.kernel, name) == LastPair(t)
  }

  /** Tickets identify writes. */
  predicate Ticketed(s: State) {
    && (forall i :: 0 <= i < |s.pending| ==> s.pending[i].ticket < s.tickets)
    && (forall i, j :: 0 <= i < j < |s.pending| ==> s.pending[i].ticket != s.pending[j].ticket)
  }

  /** The state in which an epoch begins: the policy just created and its sets there, whatever they hold and whatever
      writes of earlier epochs are under way. */
  predicate Begins(s: State, name: string) {
    && name in s.policies && s.policies[name].ips == {}
    && HasPair(s.kernel, name) && Ticketed(s)
  }

  function StartTrack(s: State, name: string): Track
    requires Begins(s, name)
  {
    var older := map i | 0 <= i < |s.pending| && s.pending[i].name == name ::
      s.pending[i].ticket := ToSet(s.pending[i].listing);
    Track(PairOf(s.kernel, name), older, map[], None, [], {})
  }

  lemma StartTracked(s: State, name: string)
    requires Begins(s, name)
    ensures Tracked(s, name, StartTrack(s, name))
  {
  }

  /** Tickets identify writes in every run. */
  lemma {:induction false} TicketsInRuns(states: seq<State>, steps: seq<Step>)
    requires Run(states, steps)
    ensures Ticketed(states[|steps|])
    decreases |steps|
  {
    if steps != [] {
      var n := |steps| - 1;
      TicketsInRuns(states[..n + 1], steps[..n]);
      assert Follows(states[n], steps[n], states[n + 1]);
      TicketsStep(states[n], steps[n], states[n + 1]);
    }
  }

  lemma TicketsStep(s: State, step: Step, s': State)
    requires Ticketed(s) && Follows(s, step, s')
    ensures Ticketed(s')
  {
    if step.Resolve? {
      forall j | 0 <= j < |step.snapshots| ensures step.snapshots[j].ticket == s.tickets + j {
        var after, grown := ApplyMessage(s.policies, step.message), ChangedBy(s.policies, step.message);
        assert TakenFrom(after, grown, s.tickets, step.snapshots[j], j);
      }
      TicketsAppend(s, s', step.snapshots);
    } else if |s'.pending| < |s.pending| {
      TicketsWithout(s, s', step.index);
    }
  }

  lemma TicketsAppend(s: State, s': State, more: seq<Pending>)
    requires Ticketed(s) && s'.pending == s.pending + more && s'.tickets == s.tickets + |more|
    requires forall j :: 0 <= j < |more| ==> more[j].ticket == s.tickets + j
    ensures Ticketed(s')
  {
  }

  lemma TicketsWithout(s: State, s': State, i: nat)
    requires Ticketed(s) && i < |s.pending| && s'.pending == AllowRun.Without(s.pending, i) && s'.tickets == s.tickets
    ensures Ticketed(s')
  {
  }

  /** So in every run each CREATE of a policy whose sets exist begins an epoch, the first as well as every later. */
  lemma CreateBegins(states: seq<State>, steps: seq<Step>, name: string, subnet: string, patterns: seq<string>)
    requires Run(states, steps) && HasPair(states[|steps|].kernel, name)
    ensures Begins(Next(states[|steps|], Control(Control.Create(name, subnet, patterns))), name)
  {
    TicketsInRuns(states, steps);
  }

  // ---------- steps that do not concern the policy ----------

  predicate HasEntry(s: State, p: Pending) {
    exists i :: 0 <= i < |s.pending| && s.pending[i] == p
  }

  /** Both states have the same entries for the policy. */
  ghost predicate SamePendingFor(s: State, s': State, name: string) {
    forall p: Pending :: p.name == name ==> (HasEntry(s, p) <==> HasEntry(s', p))
  }

  predicate SameKernelFor(s: State, s': State, name: string) {
    && (name in s.kernel <==> name in s'.kernel) && (name in s.kernel ==> s.kernel[name] == s'.kernel[name])
    && (Ipv6Name(name) in s.kernel <==> Ipv6Name(name) in s'.kernel)
    && (Ipv6Name(name) in s.kernel ==> s.kernel[Ipv6Name(name)] == s'.kernel[Ipv6Name(name)])
  }

  lemma AloneStaysTracked(s: State, s': State, name: string, t: Track)
    requires Tracked(s, name, t) && SamePendingFor(s, s', name) && SameKernelFor(s, s', name)
    requires name in s'.policies && s'.policies[name] == s.policies[name] && s'.tickets == s.tickets
    ensures Tracked(s', name, t)
  {
    forall i | 0 <= i < |s'.pending| && s'.pending[i].name == name
      ensures (s'.pending[i].ticket in t.snaps || s'.pending[i].ticket in t.older)
        && ToSet(s'.pending[i].listing) == Content(t, s'.pending[i].ticket)
    {
      assert HasEntry(s', s'.pending[i]);
      assert HasEntry(s, s'.pending[i]);
    }
    forall k | Waits(s, name, k) ensures Waits(s', name, k) {
      var i :| 0 <= i < |s.pending| && s.pending[i].name == name && s.pending[i].ticket == k;
      assert HasEntry(s, s.pending[i]);
      assert HasEntry(s', s.pending[i]);
    }
  }

  /** Entries of other names may be dropped or changed freely. */
  lemma DroppingKeeps(s: State, s': State, i: nat, name: string)
    requires i < |s.pending| && s.pending[i].name != name && s'.pending == AllowRun.Without(s.pending, i)
    ensures SamePendingFor(s, s', name)
  {
    forall p: Pending | p.name == name ensures HasEntry(s, p) <==> HasEntry(s', p) {
      if HasEntry(s, p) {
        var j :| 0 <= j < |s.pending| && s.pending[j] == p;
        assert s'.pending[if j < i then j else j - 1] == p;
      }
      if HasEntry(s', p) {
        var j :| 0 <= j < |s'.pending| && s'.pending[j] == p;
        assert s.pending[if j < i then j else j + 1] == p;
      }
    }
  }

  lemma AdvancingKeeps(s: State, s': State, i: nat, p': Pending, name: string)
    requires i < |s.pending| && s.pending[i].name != name && p'.name != name && s'.pending == s.pending[i := p']
    ensures SamePendingFor(s, s', name)
  {
    forall p: Pending | p.name == name ensures HasEntry(s, p) <==> HasEntry(s', p) {
      if HasEntry(s, p) {
        var j :| 0 <= j < |s.pending| && s.pending[j] == p;
        assert s'.pending[j] == p;
      }
      if HasEntry(s', p) {
        var j :| 0 <= j < |s'.pending| && s'.pending[j] == p;
        assert s.pending[j] == p;
      }
    }
  }

  lemma {:induction false} RestoreElsewhere(k: Kernel, lines: seq<Command>, x: string)
    requires forall i :: 0 <= i < |lines| ==> lines[i].name != x
    ensures var after := Restore(k, lines).0; (x in after <==> x in k) && (x in k ==> after[x] == k[x])
  {
    if lines != [] {
      RestoreElsewhere(k, lines[..|lines| - 1], x);
    }
  }

  lemma WriteElsewhere(k: Kernel, p: Pending, name: string)
    requires Separate(p.name, name)
    ensures forall i :: 0 <= i < |Lines(p)| ==> Lines(p)[i].name != name && Lines(p)[i].name != Ipv6Name(name)
    ensures var after := Restore(k, Lines(p)).0;
      && (name in after <==> name in k) && (name in k ==> after[name] == k[name])
      && (Ipv6Name(name) in after <==> Ipv6Name(name) in k)
      && (Ipv6Name(name) in k ==> after[Ipv6Name(name)] == k[Ipv6Name(name)])
  {
    Ipv6NameInjective(p.name, name);
    forall i | 0 <= i < |Lines(p)| ensures Lines(p)[i].name != name && Lines(p)[i].name != Ipv6Name(name) {
      LineNames(p.name, p.listing, i);
    }
    RestoreElsewhere(k, Lines(p), name);
    RestoreElsewhere(k, Lines(p), Ipv6Name(name));
  }

  lemma LineElsewhere(s: State, i: nat, name: string)
    requires i < |s.pending| && Separate(s.pending[i].name, name)
    ensures SamePendingFor(s, RunLine(s, i), name) && SameKernelFor(s, RunLine(s, i), name)
  {
    var p, s' := s.pending[i], RunLine(s, i);
    WriteElsewhere(s.kernel, p, name);
    if s'.pending == AllowRun.Without(s.pending, i) {
      DroppingKeeps(s, s', i, name);
    } else {
      AdvancingKeeps(s, s', i, p.(done := p.done + 1), name);
    }
  }

  lemma OtherStep(s: State, step: Step, name: string, t: Track)
    requires Tracked(s, name, t) && Enabled(s, step) && Calm(s, step, name)
    requires !step.Resolve? && !((step.Write? || step.Abort?) && s.pending[step.index].name == name)
    ensures Tracked(Next(s, step), name, t)
  {
    var s' := Next(s, step);
    match step {
      case Line(i) => LineElsewhere(s, i, name);
      case Abort(i) => DroppingKeeps(s, s', i, name);
      case Write(i) =>
        DroppingKeeps(s, s', i, name);
        WriteElsewhere(s.kernel, s.pending[i], name);
      case MakeSets(n, _, _) => Ipv6NameInjective(n, name);
      case _ =>
    }
    AloneStaysTracked(s, s', name, t);
  }

  // ---------- writes of the policy ----------

  lemma DroppedTracked(s: State, s': State, i: nat, name: string, t: Track)
    requires PendingTracked(s, name, t) && i < |s.pending| && s'.pending == AllowRun.Without(s.pending, i)
    ensures PendingTracked(s', name, t)
  {
    forall j | 0 <= j < |s'.pending| && s'.pending[j].name == name
      ensures (s'.pending[j].ticket in t.snaps || s'.pending[j].ticket in t.older)
        && ToSet(s'.pending[j].listing) == Content(t, s'.pending[j].ticket)
    {
      assert s'.pending[j] == s.pending[if j < i then j else j + 1];
    }
  }

  lemma DroppedAccounted(s: State, s': State, i: nat, name: string, t: Track, t': Track)
    requires AllAccounted(s, name, t) && i < |s.pending| && s'.pending == AllowRun.Without(s.pending, i)
    requires t'.snaps == t.snaps && t.lost <= t'.lost && forall k :: k in t.written ==> k in t'.written
    requires s.pending[i].ticket in t'.written || s.pending[i].ticket in t'.lost
    ensures AllAccounted(s', name, t')
  {
    forall k | k in t'.snaps && k !in t'.written && k !in t'.lost ensures Waits(s', name, k) {
      assert Waits(s, name, k);
      var j :| 0 <= j < |s.pending| && s.pending[j].name == name && s.pending[j].ticket == k;
      assert s'.pending[if j < i then j else j - 1] == s.pending[j];
    }
  }

  lemma OwnWrite(s: State, i: nat, name: string, t: Track)
    requires Tracked(s, name, t) && Enabled(s, Write(i)) && s.pending[i].name == name
    ensures Tracked(Next(s, Write(i)), name, Observe(t, s, Write(i), name))
  {
    var p, s', t' := s.pending[i], Next(s, Write(i)), Observe(t, s, Write(i), name);
    RestoreFillsPair(s.kernel, name, p.listing);
    assert LastPair(t') == Pair(ToSet(p.listing));
    DroppedTracked(s, s', i, name, t);
    assert t'.written[|t.written|] == p.ticket;
    assert forall k :: k in t.written ==> k in t'.written;
    DroppedAccounted(s, s', i, name, t, t');
  }

  lemma OwnAbort(s: State, i: nat, name: string, t: Track)
    requires Tracked(s, name, t) && i < |s.pending| && s.pending[i].name == name
    ensures Tracked(Next(s, Abort(i)), name, Observe(t, s, Abort(i), name))
  {
    var s', t' := Next(s, Abort(i)), Observe(t, s, Abort(i), name);
    DroppedTracked(s, s', i, name, t);
    DroppedAccounted(s, s', i, name, t, t');
  }

  // ---------- answers for the policy ----------

  lemma TrackGrows(t: Track, tickets: nat, ticket: nat, ips: set<IpAddr>)
    requires Growing(t) && Current(t) < ips && ticket >= tickets
    requires forall k :: k in t.snaps ==> k < tickets
    requires forall k :: k in t.older ==> k < tickets
    ensures Growing(t.(snaps := t.snaps[ticket := ips], newest := Some(ticket)))
    ensures LastPair(t.(snaps := t.snaps[ticket := ips], newest := Some(ticket))) == LastPair(t)
  {
    forall k | k in t.snaps ensures t.snaps[k] < ips {
      assert t.newest.Some? && k <= t.newest.value;
      assert t.snaps[k] <= t.snaps[t.newest.value];
    }
  }

  /** A policy that grew is in exactly one of the snapshots, with its new set. */
  lemma SnapshotOf(s: State, step: Step, name: string) returns (j: nat)
    requires step.Resolve? && TakesSnapshots(s, step) && name in s.policies
    requires FindSnapshot(step.snapshots, name).Some?
    ensures j < |step.snapshots| && FindSnapshot(step.snapshots, name) == Some(step.snapshots[j])
    ensures step.snapshots[j].name == name && step.snapshots[j].done == 0 && step.snapshots[j].ticket == s.tickets + j
    ensures ToSet(step.snapshots[j].listing) == ApplyMessage(s.policies, step.message)[name].ips
    ensures s.policies[name].ips < ApplyMessage(s.policies, step.message)[name].ips
    ensures forall i :: 0 <= i < |step.snapshots| && step.snapshots[i].name == name ==> i == j
  {
    var p := FindSnapshot(step.snapshots, name).value;
    j :| 0 <= j < |step.snapshots| && step.snapshots[j] == p;
    assert TakenFrom(ApplyMessage(s.policies, step.message), ChangedBy(s.policies, step.message), s.tickets, p, j);
    ApplyGrowsByAnswers(s.policies, QueryNames(step.message), ResolvedIps(step.message.answers), name);
  }

  lemma UnchangedWithoutSnapshot(s: State, step: Step, name: string)
    requires step.Resolve? && TakesSnapshots(s, step) && name in s.policies
    requires FindSnapshot(step.snapshots, name).None?
    ensures ApplyMessage(s.policies, step.message)[name].ips == s.policies[name].ips
  {
    assert name !in ChangedBy(s.policies, step.message);
  }

  lemma OwnAnswers(s: State, step: Step, name: string, t: Track)
    requires Tracked(s, name, t) && step.Resolve? && TakesSnapshots(s, step)
    requires FindSnapshot(step.snapshots, name).Some?
    ensures Tracked(Next(s, step), name, Observe(t, s, step, name))
  {
    var j := SnapshotOf(s, step, name);
    var p, s', t' := step.snapshots[j], Next(s, step), Observe(t, s, step, name);
    TrackGrows(t, s.tickets, p.ticket, ToSet(p.listing));
    assert s'.pending == s.pending + step.snapshots;
    AppendedTracked(s, s', step.snapshots, j, name, t, t');
    AppendedAccounted(s, s', step.snapshots, j, name, t, t');
  }

  lemma AppendedTracked(s: State, s': State, more: seq<Pending>, j: nat, name: string, t: Track, t': Track)
    requires PendingTracked(s, name, t) && j < |more| && s'.pending == s.pending + more
    requires forall i :: 0 <= i < |more| && more[i].name == name ==> i == j
    requires more[j].ticket !in t.snaps && more[j].ticket !in t.older && t'.older == t.older
    requires t'.snaps == t.snaps[more[j].ticket := ToSet(more[j].listing)]
    ensures PendingTracked(s', name, t')
  {
    forall i | 0 <= i < |s'.pending| && s'.pending[i].name == name
      ensures (s'.pending[i].ticket in t'.snaps || s'.pending[i].ticket in t'.older)
        && ToSet(s'.pending[i].listing) == Content(t', s'.pending[i].ticket)
    {
      if i >= |s.pending| {
        assert s'.pending[i] == more[i - |s.pending|] == more[j];
      } else {
        assert s'.pending[i] == s.pending[i];
      }
    }
  }

  lemma AppendedAccounted(s: State, s': State, more: seq<Pending>, j: nat, name: string, t: Track, t': Track)
    requires AllAccounted(s, name, t) && j < |more| && more[j].name == name && s'.pending == s.pending + more
    requires t'.written == t.written && t'.lost == t.lost
    requires t'.snaps == t.snaps[more[j].ticket := ToSet(more[j].listing)]
    ensures AllAccounted(s', name, t')
  {
    forall k | k in t'.snaps && k !in t'.written && k !in t'.lost ensures Waits(s', name, k) {
      if k == more[j].ticket {
        assert s'.pending[|s.pending| + j] == more[j];
      } else {
        assert Waits(s, name, k);
        var i :| 0 <= i < |s.pending| && s.pending[i].name == name && s.pending[i].ticket == k;
        assert s'.pending[i] == s.pending[i];
      }
    }
  }

  lemma OtherAnswers(s: State, step: Step, name: string, t: Track)
    requires Tracked(s, name, t) && step.Resolve? && TakesSnapshots(s, step)
    requires FindSnapshot(step.snapshots, name).None?
    ensures Tracked(Next(s, step), name, t)
  {
    var s' := Next(s, step);
    UnchangedWithoutSnapshot(s, step, name);
    assert s'.pending == s.pending + step.snapshots;
    forall k | Waits(s, name, k) ensures Waits(s', name, k) {
      var i :| 0 <= i < |s.pending| && s.pending[i].name == name && s.pending[i].ticket == k;
      assert s'.pending[i] == s.pending[i];
    }
  }

  // ---------- the whole epoch ----------

  /** A stretch of steps within the epoch, starting anywhere. */
  ghost predicate Epoch(states: seq<State>, steps: seq<Step>, name: string) {
    && |states| == |steps| + 1 && Begins(states[0], name)
    && forall i :: 0 <= i < |steps| ==> Follows(states[i], steps[i], states[i + 1]) && Calm(states[i], steps[i], name)
  }

  function TrackOf(states: seq<State>, steps: seq<Step>, name: string): Track
    requires |states| == |steps| + 1 && Begins(states[0], name)
    decreases |steps|
  {
    if steps == [] then StartTrack(states[0], name)
    else
      var n := |steps| - 1;
      Observe(TrackOf(states[..n + 1], steps[..n], name), states[n], steps[n], name)
  }

  lemma TrackedStep(s: State, step: Step, name: string, t: Track)
    requires Tracked(s, name, t) && Enabled(s, step) && Calm(s, step, name)
    ensures Tracked(Next(s, step), name, Observe(t, s, step, name))
  {
    if step.Resolve? {
      if FindSnapshot(step.snapshots, name).Some? {
        OwnAnswers(s, step, name, t);
      } else {
        OtherAnswers(s, step, name, t);
      }
    } else if step.Write? && s.pending[step.index].name == name {
      OwnWrite(s, step.index, name, t);
    } else if step.Abort? && s.pending[step.index].name == name {
      OwnAbort(s, step.index, name, t);
    } else {
      OtherStep(s, step, name, t);
    }
  }

  /** Throughout an epoch, under every interleaving: snapshots only grow, strictly, in the order taken; the state
      holds the newest one; and the kernel's pair holds what the write that completed last carried, be it of this epoch
      or an earlier one, or what it held at the start if there was none. */
  lemma {:induction false} EpochTracked(states: seq<State>, steps: seq<Step>, name: string)
    requires Epoch(states, steps, name)
    ensures Tracked(states[|steps|], name, TrackOf(states, steps, name))
    decreases |steps|
  {
    if steps == [] {
      StartTracked(states[0], name);
    } else {
      var n := |steps| - 1;
      EpochTracked(states[..n + 1], steps[..n], name);
      assert Follows(states[n], steps[n], states[n + 1]) && Calm(states[n], steps[n], name);
      TrackedStep(states[n], steps[n], name, TrackOf(states[..n + 1], steps[..n], name));
    }
  }

  /** The write that completed last is the newest of this epoch; or it stems from an earlier epoch and happens to carry
      the same addresses; or there was none and the sets held those addresses from the start. */
  predicate UpToDate(t: Track) {
    if t.written == [] then t.base == Pair(Current(t))
    else
      var last := t.written[|t.written| - 1];
      if last in t.snaps then t.newest == Some(last) else Content(t, last) == Current(t)
  }

  /** Kernel and state agree exactly when the kernel is up to date in this sense. In particular, while nothing has been
      learnt and written, they agree exactly when the sets were empty at the start. */
  lemma AgreementIff(states: seq<State>, steps: seq<Step>, name: string)
    requires Epoch(states, steps, name)
    ensures var s, t := states[|steps|], TrackOf(states, steps, name);
      && name in s.policies && HasPair(s.kernel, name)
      && (PairOf(s.kernel, name) == Pair(s.policies[name].ips) <==> UpToDate(t))
      && (t.newest.None? && t.written == [] ==>
            (UpToDate(t) <==> PairOf(states[0].kernel, name) == Pair({})))
  {
    var t := TrackOf(states, steps, name);
    EpochTracked(states, steps, name);
    BaseKept(states, steps, name);
    UpToDateMeaning(t);
  }

  lemma {:induction false} BaseKept(states: seq<State>, steps: seq<Step>, name: string)
    requires |states| == |steps| + 1 && Begins(states[0], name)
    ensures TrackOf(states, steps, name).base == PairOf(states[0].kernel, name)
    decreases |steps|
  {
    if steps != [] {
      BaseKept(states[..|steps|], steps[..|steps| - 1], name);
    }
  }

  /** Snapshots grow strictly, so no older one of the epoch equals the newest. */
  lemma UpToDateMeaning(t: Track)
    requires Growing(t)
    ensures LastPair(t) == Pair(Current(t)) <==> UpToDate(t)
  {
    if t.written != [] {
      var last := t.written[|t.written| - 1];
      if LastPair(t) == Pair(Current(t)) {
        PairInjective(Content(t, last), Current(t));
      }
      if last in t.snaps {
        assert last <= t.newest.value;
      }
    }
  }

  /** In particular they agree once something was learnt, none of the policy's writes is left or was lost, and all
      completed in the order their snapshots were taken. */
  lemma InOrderWritesAgree(states: seq<State>, steps: seq<Step>, name: string)
    requires Epoch(states, steps, name)
    requires var t := TrackOf(states, steps, name);
      && t.newest.Some? && t.newest.value !in t.lost
      && forall i, j :: 0 <= i < j < |t.written| ==> t.written[i] < t.written[j]
    requires var s := states[|steps|]; forall i :: 0 <= i < |s.pending| ==> s.pending[i].name != name
    ensures var s := states[|steps|];
      name in s.policies && HasPair(s.kernel, name) && PairOf(s.kernel, name) == Pair(s.policies[name].ips)
  {
    AgreementIff(states, steps, name);
    EpochTracked(states, steps, name);
    NewestComesLast(TrackOf(states, steps, name));
  }

  lemma NewestComesLast(t: Track)
    requires Growing(t) && t.newest.Some? && t.newest.value in t.written
    requires forall i, j :: 0 <= i < j < |t.written| ==> t.written[i] < t.written[j]
    ensures UpToDate(t)
  {
    var i :| 0 <= i < |t.written| && t.written[i] == t.newest.value;
    var last := t.written[|t.written| - 1];
    assert last in t.snaps || last in t.older;
  }

  /** A policy created again over sets that could not be destroyed, or with no set creation at all: the state starts
      empty, the kernel keeps its members, and they agree exactly if there were none. */
  lemma ReCreateKeepsMembers(s: State, name: string, subnet: string, patterns: seq<string>)
    requires HasPair(s.kernel, name)
    ensures var s' := Next(Next(s, MakeSets(name, true, true)), Control(Control.Create(name, subnet, patterns)));
      && s'.kernel == s.kernel && name in s'.policies && s'.policies[name].ips == {}
      && (PairOf(s'.kernel, name) == Pair(s'.policies[name].ips) <==> PairOf(s.kernel, name) == Pair({}))
  {
    Ipv6NameInjective(name, name);
    assert Next(s, MakeSets(name, true, true)).kernel == s.kernel;
  }
}
