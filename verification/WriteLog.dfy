/** Kernel writes line by line: what the sets hold after any interleaving of restore processes, and exactly when a
    write leaves them as its snapshot was (src/ipset.rs, src/proxy.rs). */
module WriteLog {
  import opened Text
  import opened Addresses
  import opened AllowSet
  import opened Ipset
  import opened AllowRun
  import opened Agreement

  /** The lines a step gets the kernel to execute. */
  function Executed(s: State, step: Step): seq<Command> {
    match step
    case Line(i) =>
      if i < |s.pending| && s.pending[i].done < |Lines(s.pending[i])|
         && Exec(s.kernel, Lines(s.pending[i])[s.pending[i].done]).Some?
      then [Lines(s.pending[i])[s.pending[i].done]] else []
    case Write(i) => if i < |s.pending| then Lines(s.pending[i]) else []
    case _ => []
  }

  function Log(states: seq<State>, steps: seq<Step>): seq<Command>
    requires |states| == |steps| + 1
    decreases |steps|
  {
    if steps == [] then []
    else Log(states[..|steps|], steps[..|steps| - 1]) + Executed(states[|steps| - 1], steps[|steps| - 1])
  }

  predicate Leaves(step: Step, x: string) {
    step.MakeSets? ==> step.name != x && Ipv6Name(step.name) != x
  }

  /** Consecutive steps, starting anywhere, none of which makes the set anew. */
  ghost predicate Stretch(states: seq<State>, steps: seq<Step>, x: string) {
    && |states| == |steps| + 1
    && forall i :: 0 <= i < |steps| ==> Follows(states[i], steps[i], states[i + 1]) && Leaves(steps[i], x)
  }

  lemma ShorterStretch(states: seq<State>, steps: seq<Step>, x: string)
    requires Stretch(states, steps, x) && steps != []
    ensures Stretch(states[..|steps|], steps[..|steps| - 1], x)
  {
  }

  // ---------- what a log leaves in a set ----------

  function Contents(base: set<IpAddr>, log: seq<Command>, x: string): set<IpAddr> {
    if log == [] then base
    else
      var before, last := Contents(base, log[..|log| - 1], x), log[|log| - 1];
      if last.name != x then before
      else match last
        case Flush(_) => {}
        case Add(_, ip) => before + {ip}
  }

  predicate NoFlushFrom(log: seq<Command>, from: nat, x: string) {
    forall k :: from <= k < |log| ==> log[k] != Flush(x)
  }

  predicate AddedAt(log: seq<Command>, j: nat, x: string, ip: IpAddr) {
    j < |log| && log[j] == Add(x, ip)
  }

  /** The address was added to the set, which was not flushed afterwards. */
  ghost predicate Survives(log: seq<Command>, x: string, ip: IpAddr) {
    exists j: nat :: AddedAt(log, j, x, ip) && NoFlushFrom(log, j + 1, x)
  }

  lemma SurvivesAppend(log: seq<Command>, c: Command, x: string, ip: IpAddr)
    ensures Survives(log + [c], x, ip) <==> c == Add(x, ip) || (c != Flush(x) && Survives(log, x, ip))
  {
    var all := log + [c];
    if c == Add(x, ip) {
      assert AddedAt(all, |log|, x, ip);
    } else {
      if Survives(log, x, ip) && c != Flush(x) {
        var j: nat :| AddedAt(log, j, x, ip) && NoFlushFrom(log, j + 1, x);
        assert AddedAt(all, j, x, ip);
      }
      if Survives(all, x, ip) {
        var j: nat :| AddedAt(all, j, x, ip) && NoFlushFrom(all, j + 1, x);
        assert all[|log|] == c;
        forall k | j + 1 <= k < |log| ensures log[k] != Flush(x) {
          assert all[k] == log[k];
        }
        assert AddedAt(log, j, x, ip);
      }
    }
  }

  lemma {:induction false} ContentsSurvive(base: set<IpAddr>, log: seq<Command>, x: string, ip: IpAddr)
    ensures ip in Contents(base, log, x) <==> Survives(log, x, ip) || (ip in base && NoFlushFrom(log, 0, x))
  {
    if log != [] {
      var earlier, c := log[..|log| - 1], log[|log| - 1];
      assert log == earlier + [c];
      ContentsSurvive(base, earlier, x, ip);
      SurvivesAppend(earlier, c, x, ip);
      assert NoFlushFrom(log, 0, x) <==> NoFlushFrom(earlier, 0, x) && c != Flush(x) by {
        assert forall k :: 0 <= k < |earlier| ==> earlier[k] == log[k];
      }
    }
  }

  lemma {:induction false} ContentsAppend(base: set<IpAddr>, a: seq<Command>, b: seq<Command>, x: string)
    ensures Contents(base, a + b, x) == Contents(Contents(base, a, x), b, x)
  {
    if b == [] {
      assert a + b == a;
    } else {
      assert (a + b)[..|a + b| - 1] == a + b[..|b| - 1];
      ContentsAppend(base, a, b[..|b| - 1], x);
    }
  }

  lemma {:induction false} ContentsElsewhere(base: set<IpAddr>, log: seq<Command>, x: string)
    requires forall i :: 0 <= i < |log| ==> log[i].name != x
    ensures Contents(base, log, x) == base
  {
    if log != [] {
      ContentsElsewhere(base, log[..|log| - 1], x);
    }
  }

  lemma {:induction false} RestoreContents(k: Kernel, lines: seq<Command>, x: string)
    requires x in k && Restore(k, lines).1
    ensures var after := Restore(k, lines).0;
      x in after && after[x] == KernelSet(k[x].family, Contents(k[x].members, lines, x))
  {
    if lines != [] {
      RestoreContents(k, lines[..|lines| - 1], x);
    }
  }

  lemma StepContents(s: State, step: Step, x: string)
    requires Enabled(s, step) && Leaves(step, x) && x in s.kernel
    ensures var k := Next(s, step).kernel;
      x in k && k[x] == KernelSet(s.kernel[x].family, Contents(s.kernel[x].members, Executed(s, step), x))
  {
    match step
    case Write(i) => RestoreContents(s.kernel, Lines(s.pending[i]), x);
    case Line(i) =>
      var log := Executed(s, step);
      if log != [] {
        assert log[..|log| - 1] == [];
      }
    case _ =>
  }

  lemma {:induction false} KernelIsLog(states: seq<State>, steps: seq<Step>, x: string)
    requires Stretch(states, steps, x) && x in states[0].kernel
    ensures var k, before := states[|steps|].kernel, states[0].kernel[x];
      x in k && k[x] == KernelSet(before.family, Contents(before.members, Log(states, steps), x))
    decreases |steps|
  {
    if steps != [] {
      var n := |steps| - 1;
      ShorterStretch(states, steps, x);
      KernelIsLog(states[..n + 1], steps[..n], x);
      assert Follows(states[n], steps[n], states[n + 1]) && Leaves(steps[n], x);
      StepContents(states[n], steps[n], x);
      ContentsAppend(states[0].kernel[x].members, Log(states[..n + 1], steps[..n]), Executed(states[n], steps[n]), x);
    }
  }

  /** Under every interleaving of lines, whole writes and lost ones, a set holds exactly the addresses added since it
      was last flushed, and what it held at the start if it never was. */
  lemma KernelHoldsSurvivors(states: seq<State>, steps: seq<Step>, x: string, ip: IpAddr)
    requires Stretch(states, steps, x) && x in states[0].kernel
    ensures x in states[|steps|].kernel
    ensures var log := Log(states, steps);
      ip in states[|steps|].kernel[x].members <==>
        Survives(log, x, ip) || (ip in states[0].kernel[x].members && NoFlushFrom(log, 0, x))
  {
    KernelIsLog(states, steps, x);
    ContentsSurvive(states[0].kernel[x].members, Log(states, steps), x, ip);
  }

  // ---------- one write among others ----------

  /** A stretch that leaves both sets of a policy in place. */
  ghost predicate PairStretch(states: seq<State>, steps: seq<Step>, name: string) {
    Stretch(states, steps, name) && Stretch(states, steps, Ipv6Name(name))
  }

  /** The restore process with this ticket, wherever it stands in the list, and how far it is. */
  ghost predicate IsUnderWay(s: State, p: Pending) {
    exists i :: 0 <= i < |s.pending| && s.pending[i] == p
  }

  ghost predicate NotStarted(s: State, ticket: nat) {
    forall i :: 0 <= i < |s.pending| && s.pending[i].ticket == ticket ==> s.pending[i].done == 0
  }

  /** How an entry came about: it was just taken, stood there before, or has just executed its next line. */
  lemma EntryBefore(s: State, step: Step, s': State, i: nat) returns (old_: Option<Pending>)
    requires Follows(s, step, s') && i < |s'.pending|
    ensures var p' := s'.pending[i];
      match old_
      case None => p'.done == 0 && p'.ticket >= s.tickets
      case Some(p) =>
        && IsUnderWay(s, p) && p' == p.(done := p'.done)
        && (p'.done == p.done ||
             (p'.done == p.done + 1 && p.done < |Lines(p)| && Executed(s, step) == [Lines(p)[p.done]]
              && step.Line? && step.index < |s.pending| && s.pending[step.index] == p))
  {
    if step.Resolve? && i >= |s.pending| {
      var j := ResolveAppends(s, step, s', i);
      var after, grown := ApplyMessage(s.policies, step.message), ChangedBy(s.policies, step.message);
      assert TakenFrom(after, grown, s.tickets, step.snapshots[j], j);
      old_ := None;
    } else if step.Line? && |s'.pending| == |s.pending| {
      assert s'.pending == s.pending[step.index := s.pending[step.index].(done := s.pending[step.index].done + 1)];
      old_ := Some(s.pending[i]);
    } else {
      var j := OldIndex(s, step, s', i);
      old_ := Some(s.pending[j]);
    }
  }

  predicate EntryLogged(p: Pending, log: seq<Command>) {
    forall k :: 0 <= k < p.done && k < |Lines(p)| ==> Lines(p)[k] in log
  }

  /** What the process has executed is in the log. */
  ghost predicate Logged(s: State, ticket: nat, log: seq<Command>) {
    forall p :: IsUnderWay(s, p) && p.ticket == ticket ==> EntryLogged(p, log)
  }

  lemma LoggedStep(s: State, step: Step, s': State, ticket: nat, log: seq<Command>)
    requires Follows(s, step, s') && Logged(s, ticket, log)
    ensures Logged(s', ticket, log + Executed(s, step))
  {
    forall p' | IsUnderWay(s', p') && p'.ticket == ticket ensures EntryLogged(p', log + Executed(s, step)) {
      var before := WriteBefore(s, step, s', p');
      if before.Some? {
        assert EntryLogged(before.value, log);
        EntryMovesOn(before.value, p', log, Executed(s, step));
      }
    }
  }

  lemma EntryMovesOn(p: Pending, p': Pending, log: seq<Command>, more: seq<Command>)
    requires EntryLogged(p, log) && Lines(p') == Lines(p)
    requires p'.done == p.done || (p'.done == p.done + 1 && p.done < |Lines(p)| && more == [Lines(p)[p.done]])
    ensures EntryLogged(p', log + more)
  {
    forall k | 0 <= k < p'.done && k < |Lines(p')| ensures Lines(p')[k] in log + more {
      InEither(Lines(p)[k], log, more);
    }
  }

  lemma {:induction false} LinesAreLogged(states: seq<State>, steps: seq<Step>, x: string, ticket: nat)
    requires Stretch(states, steps, x) && NotStarted(states[0], ticket)
    ensures Logged(states[|steps|], ticket, Log(states, steps))
    decreases |steps|
  {
    if steps != [] {
      var n := |steps| - 1;
      ShorterStretch(states, steps, x);
      LinesAreLogged(states[..n + 1], steps[..n], x, ticket);
      assert Follows(states[n], steps[n], states[n + 1]);
      LoggedStep(states[n], steps[n], states[n + 1], ticket, Log(states[..n + 1], steps[..n]));
    }
  }

  lemma InEither(c: Command, log: seq<Command>, more: seq<Command>)
    requires c in log || c in more
    ensures c in log + more
  {
  }

  /** The same for the entry itself. */
  lemma WriteBefore(s: State, step: Step, s': State, p': Pending) returns (old_: Option<Pending>)
    requires Follows(s, step, s') && IsUnderWay(s', p')
    ensures match old_
      case None => p'.done == 0 && p'.ticket >= s.tickets
      case Some(p) =>
        && IsUnderWay(s, p) && p' == p.(done := p'.done) && Lines(p') == Lines(p)
        && (p'.done == p.done ||
             (p'.done == p.done + 1 && p.done < |Lines(p)| && Executed(s, step) == [Lines(p)[p.done]]
              && step.Line? && step.index < |s.pending| && s.pending[step.index] == p))
  {
    var i :| 0 <= i < |s'.pending| && s'.pending[i] == p';
    old_ := EntryBefore(s, step, s', i);
  }

  /** A write that has executed all its lines leaves the policy's sets equal to the two parts of its snapshot exactly
      when, among all lines executed since before it began, those additions to either set that were not flushed away
      afterwards are the additions of the snapshot: nobody else's addition is left, and none of its own is lost. */
  lemma CompletedWriteIff(states: seq<State>, steps: seq<Step>, p: Pending)
    requires PairStretch(states, steps, p.name) && HasPair(states[0].kernel, p.name)
    requires NotStarted(states[0], p.ticket)
    requires IsUnderWay(states[|steps|], p) && p.done == |Lines(p)|
    ensures var k, log := states[|steps|].kernel, Log(states, steps);
      && HasPair(k, p.name)
      && (PairOf(k, p.name) == Pair(ToSet(p.listing)) <==>
            && (forall ip :: Survives(log, p.name, ip) <==> ip in p.listing && ip.V4?)
            && (forall ip :: Survives(log, Ipv6Name(p.name), ip) <==> ip in p.listing && ip.V6?))
  {
    var k, log, six := states[|steps|].kernel, Log(states, steps), Ipv6Name(p.name);
    LinesAreLogged(states, steps, p.name, p.ticket);
    assert EntryLogged(p, log);
    assert Lines(p)[0] in log && Lines(p)[1] in log;
    FlushedContents(states, steps, p.name);
    FlushedContents(states, steps, six);
    assert PairOf(k, p.name) == Pair(ToSet(p.listing)) <==>
      k[p.name].members == OfFamily(ToSet(p.listing), Inet) && k[six].members == OfFamily(ToSet(p.listing), Inet6);
  }

  lemma FlushedContents(states: seq<State>, steps: seq<Step>, x: string)
    requires Stretch(states, steps, x) && x in states[0].kernel && Flush(x) in Log(states, steps)
    ensures var k := states[|steps|].kernel;
      && x in k && k[x].family == states[0].kernel[x].family
      && forall ip :: ip in k[x].members <==> Survives(Log(states, steps), x, ip)
  {
    KernelIsLog(states, steps, x);
    forall ip ensures ip in states[|steps|].kernel[x].members <==> Survives(Log(states, steps), x, ip) {
      KernelHoldsSurvivors(states, steps, x, ip);
    }
  }

  // ---------- a write nobody disturbs ----------

  /** Only the write itself executes lines on the policy's sets. */
  predicate Alone(s: State, step: Step, name: string, ticket: nat) {
    forall i :: 0 <= i < |Executed(s, step)| && Executed(s, step)[i].name in {name, Ipv6Name(name)} ==>
      step.Line? && step.index < |s.pending| && s.pending[step.index].ticket == ticket
  }

  ghost predicate Undisturbed(states: seq<State>, steps: seq<Step>, name: string, ticket: nat) {
    |states| == |steps| + 1 && forall i :: 0 <= i < |steps| ==> Alone(states[i], steps[i], name, ticket)
  }

  lemma {:induction false} StretchTicketed(states: seq<State>, steps: seq<Step>, x: string)
    requires Stretch(states, steps, x) && Ticketed(states[0])
    ensures Ticketed(states[|steps|]) && states[0].tickets <= states[|steps|].tickets
    decreases |steps|
  {
    if steps != [] {
      ShorterStretch(states, steps, x);
      StretchTicketed(states[..|steps|], steps[..|steps| - 1], x);
      assert Follows(states[|steps| - 1], steps[|steps| - 1], states[|steps|]);
      TicketsStep(states[|steps| - 1], steps[|steps| - 1], states[|steps|]);
    }
  }

  lemma SameTicketSameWrite(s: State, p: Pending, q: Pending)
    requires Ticketed(s) && IsUnderWay(s, p) && IsUnderWay(s, q) && p.ticket == q.ticket
    ensures p == q
  {
  }

  /** A line that was executed moves its process on. */
  lemma LineMovesOn(s: State, i: nat, x: string)
    requires Executed(s, Line(i)) != []
    ensures i < |s.pending| && IsUnderWay(Next(s, Line(i)), s.pending[i].(done := s.pending[i].done + 1))
  {
    var s' := Next(s, Line(i));
    assert s'.pending[i] == s.pending[i].(done := s.pending[i].done + 1);
  }

  /** While a process does not move on, an undisturbed stretch executes nothing on its sets. */
  lemma NothingExecuted(s: State, step: Step, s': State, p: Pending, x: string)
    requires Follows(s, step, s') && Ticketed(s') && Ticketed(s) && Alone(s, step, p.name, p.ticket)
    requires IsUnderWay(s, p) && IsUnderWay(s', p) && (x == p.name || x == Ipv6Name(p.name))
    ensures forall i :: 0 <= i < |Executed(s, step)| ==> Executed(s, step)[i].name != x
  {
    var log := Executed(s, step);
    if i :| 0 <= i < |log| && log[i].name == x {
      assert Executed(s, step)[i].name in {p.name, Ipv6Name(p.name)};
      SameTicketSameWrite(s, s.pending[step.index], p) by {
        assert IsUnderWay(s, s.pending[step.index]);
      }
      LineMovesOn(s, step.index, x);
      SameTicketSameWrite(s', p, p.(done := p.done + 1));
      assert false;
    }
  }

  /** One step of an undisturbed stretch adds to the log what it adds to the process, as far as its sets go. */
  lemma UndisturbedStep(
    s: State, step: Step, s': State, p: Pending, p': Pending, x: string, base: set<IpAddr>, log: seq<Command>)
    requires Follows(s, step, s') && Ticketed(s) && Ticketed(s') && Alone(s, step, p.name, p.ticket)
    requires IsUnderWay(s, p) && IsUnderWay(s', p') && p' == p.(done := p'.done) && p'.done <= |Lines(p)|
    requires p'.done == p.done || (p'.done == p.done + 1 && Executed(s, step) == [Lines(p)[p.done]])
    requires (x == p.name || x == Ipv6Name(p.name)) && Contents(base, log, x) == Contents(base, Lines(p)[..p.done], x)
    ensures Contents(base, log + Executed(s, step), x) == Contents(base, Lines(p)[..p'.done], x)
  {
    ContentsAppend(base, log, Executed(s, step), x);
    if p'.done == p.done {
      NothingExecuted(s, step, s', p, x);
      ContentsElsewhere(Contents(base, log, x), Executed(s, step), x);
    } else {
      OneMoreLine(base, Lines(p), p.done, x);
    }
  }

  lemma OneMoreLine(base: set<IpAddr>, lines: seq<Command>, done: nat, x: string)
    requires done < |lines|
    ensures Contents(base, lines[..done + 1], x) == Contents(Contents(base, lines[..done], x), [lines[done]], x)
  {
    assert lines[..done + 1] == lines[..done] + [lines[done]];
    ContentsAppend(base, lines[..done], [lines[done]], x);
  }

  lemma {:induction false} UndisturbedContents(
    states: seq<State>, steps: seq<Step>, p: Pending, x: string, base: set<IpAddr>)
    requires Stretch(states, steps, x) && Ticketed(states[0]) && p.ticket < states[0].tickets
    requires Undisturbed(states, steps, p.name, p.ticket) && NotStarted(states[0], p.ticket)
    requires IsUnderWay(states[|steps|], p) && p.done <= |Lines(p)| && (x == p.name || x == Ipv6Name(p.name))
    ensures Contents(base, Log(states, steps), x) == Contents(base, Lines(p)[..p.done], x)
    decreases |steps|
  {
    if steps == [] {
      assert Lines(p)[..p.done] == [];
    } else {
      var n := |steps| - 1;
      ShorterStretch(states, steps, x);
      StretchTicketed(states[..n + 1], steps[..n], x);
      assert Follows(states[n], steps[n], states[n + 1]) && Alone(states[n], steps[n], p.name, p.ticket);
      TicketsStep(states[n], steps[n], states[n + 1]);
      var before := WriteBefore(states[n], steps[n], states[n + 1], p);
      UndisturbedContents(states[..n + 1], steps[..n], before.value, x, base);
      UndisturbedStep(states[n], steps[n], states[n + 1], before.value, p, x, base, Log(states[..n + 1], steps[..n]));
    }
  }

  /** So in every run a write that executes all its lines while nobody else executes one on the policy's sets leaves
      them equal to the two parts of a value the state held for the policy. */
  lemma UndisturbedWriteLeavesHeldValue(states: seq<State>, steps: seq<Step>, start: nat, p: Pending)
    requires Run(states, steps) && start <= |steps| && HasPair(states[start].kernel, p.name)
    requires PairStretch(states[start..], steps[start..], p.name)
    requires Undisturbed(states[start..], steps[start..], p.name, p.ticket)
    requires IsUnderWay(states[start], p.(done := 0)) && IsUnderWay(states[|steps|], p) && p.done == |Lines(p)|
    ensures var k := states[|steps|].kernel;
      && HasPair(k, p.name) && PairOf(k, p.name) == Pair(ToSet(p.listing))
      && Held(states, p.name, ToSet(p.listing))
  {
    var part, rest := states[start..], steps[start..];
    var k := part[0].kernel;
    TicketsInRuns(states[..start + 1], steps[..start]);
    forall i | 0 <= i < |part[0].pending| && part[0].pending[i].ticket == p.ticket
      ensures part[0].pending[i].done == 0
    {
      SameTicketSameWrite(part[0], part[0].pending[i], p.(done := 0));
    }
    RestoreFillsPair(k, p.name, p.listing);
    UndisturbedSet(part, rest, p, p.name);
    UndisturbedSet(part, rest, p, Ipv6Name(p.name));
    PendingHeldInRuns(states, steps);
  }

  /** Each of its sets ends as if the write had been done in one go. */
  lemma UndisturbedSet(states: seq<State>, steps: seq<Step>, p: Pending, x: string)
    requires Stretch(states, steps, x) && Ticketed(states[0]) && p.ticket < states[0].tickets
    requires Undisturbed(states, steps, p.name, p.ticket) && NotStarted(states[0], p.ticket)
    requires IsUnderWay(states[|steps|], p) && p.done == |Lines(p)| && (x == p.name || x == Ipv6Name(p.name))
    requires x in states[0].kernel && Restore(states[0].kernel, Lines(p)).1
    ensures x in states[|steps|].kernel && x in Restore(states[0].kernel, Lines(p)).0
    ensures states[|steps|].kernel[x] == Restore(states[0].kernel, Lines(p)).0[x]
  {
    var base := states[0].kernel[x].members;
    KernelIsLog(states, steps, x);
    UndisturbedContents(states, steps, p, x, base);
    assert Lines(p)[..p.done] == Lines(p);
    RestoreContents(states[0].kernel, Lines(p), x);
  }
}
