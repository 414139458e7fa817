/** Resolve statistics: an evicting counter map, and the event log it stands for (src/stats.rs). */
module Stats {
  import opened Text
  import opened Addresses

  const MAX_ENTRIES: nat := 1_000_000

  /** Domain and origin. */
  type Key = (string, IpAddr)

  datatype Entry = Entry(count: nat, lastSeen: nat, network: Option<nat>, accepted: Option<bool>)

  type Entries = map<Key, Entry>

  datatype Event = Event(key: Key, now: nat, network: Option<nat>, accepted: Option<bool>)

  /** `duration_since`, zero when the clock went backwards. */
  function Age(now: nat, lastSeen: nat): nat {
    if now >= lastSeen then now - lastSeen else 0
  }

  function Retained(entries: Entries, now: nat, ttl: nat): Entries {
    map k | k in entries && Age(now, entries[k].lastSeen) < ttl :: entries[k]
  }

  function Counted(kept: Entries, e: Event): Entries {
    var before := if e.key in kept then kept[e.key].count else 0;
    kept[e.key := Entry(before + 1, e.now, e.network, e.accepted)]
  }

  predicate HasRoom(kept: Entries, key: Key) {
    key in kept || |kept| < MAX_ENTRIES
  }

  function Recorded(entries: Entries, e: Event, ttl: nat): Entries {
    var kept := Retained(entries, e.now, ttl);
    if HasRoom(kept, e.key) then Counted(kept, e) else kept
  }

  class Store {
    var entries: Entries

    constructor ()
      ensures entries == map[]
    {
      entries := map[];
    }

    method RecordResolve(e: Event, ttl: nat)
      modifies this
      ensures entries == Recorded(old(entries), e, ttl)
    {
      entries := map k | k in entries && Age(e.now, entries[k].lastSeen) < ttl :: entries[k];
      if e.key !in entries && |entries| >= MAX_ENTRIES {
        return;
      }
      var entry := if e.key in entries then entries[e.key] else Entry(0, e.now, e.network, e.accepted);
      entries := entries[e.key := Entry(entry.count + 1, e.now, e.network, e.accepted)];
    }
  }

  // ---------- one record ----------

  /** Too old is what was last seen ttl or more before now; with a clock that went back nothing is, unless ttl is 0. */
  predicate StillFresh(entry: Entry, now: nat, ttl: nat) {
    ttl > 0 && now < entry.lastSeen + ttl
  }

  /** The effect on every other key: it stays as it was or is evicted, by its own age alone. */
  lemma OtherKeysAfterRecord(entries: Entries, e: Event, ttl: nat, key: Key)
    requires key != e.key
    ensures key in Recorded(entries, e, ttl) <==> key in entries && StillFresh(entries[key], e.now, ttl)
    ensures key in Recorded(entries, e, ttl) ==> Recorded(entries, e, ttl)[key] == entries[key]
  {
  }

  /** The fresh keys of a map. */
  function FreshKeys(entries: Entries, now: nat, ttl: nat): set<Key> {
    set k | k in entries && StillFresh(entries[k], now, ttl)
  }

  lemma RetainedAreFresh(entries: Entries, now: nat, ttl: nat)
    ensures Retained(entries, now, ttl).Keys == FreshKeys(entries, now, ttl)
    ensures |Retained(entries, now, ttl)| == |FreshKeys(entries, now, ttl)|
  {
    assert Retained(entries, now, ttl).Keys == FreshKeys(entries, now, ttl);
    assert |Retained(entries, now, ttl)| == |Retained(entries, now, ttl).Keys|;
  }

  /** The effect on the recorded key: one more than before, or one if it was absent or evicted, with the data of the
      event. Only at the cap of 1,000,000 fresh entries is a key that is not among them left out. */
  lemma RecordedKey(entries: Entries, e: Event, ttl: nat)
    ensures var fresh_, after := FreshKeys(entries, e.now, ttl), Recorded(entries, e, ttl);
      && (e.key !in after <==> e.key !in fresh_ && |fresh_| >= 1_000_000)
      && (e.key in fresh_ ==> after[e.key] == Entry(entries[e.key].count + 1, e.now, e.network, e.accepted))
      && (e.key !in fresh_ && |fresh_| < 1_000_000 ==> after[e.key] == Entry(1, e.now, e.network, e.accepted))
      && (e.key !in fresh_ ==> (after == Retained(entries, e.now, ttl) <==> |fresh_| >= 1_000_000))
  {
    RetainedAreFresh(entries, e.now, ttl);
  }

  // ---------- the log ----------

  function AfterLog(log: seq<Event>, ttl: nat): Entries {
    if log == [] then map[] else Recorded(AfterLog(log[..|log| - 1], ttl), log[|log| - 1], ttl)
  }

  /** The events of one key. */
  function Of(log: seq<Event>, key: Key): seq<Event> {
    if log == [] then []
    else
      var earlier, last := Of(log[..|log| - 1], key), log[|log| - 1];
      if last.key == key then earlier + [last] else earlier
  }

  /** Consecutive events are less than ttl apart. */
  predicate Dense(events: seq<Event>, ttl: nat) {
    forall i :: 0 < i < |events| ==> events[i].now - events[i - 1].now < ttl
  }

  /** How many events at the end form a run without a gap of ttl or more. */
  function RunLength(events: seq<Event>, ttl: nat): (n: nat)
    ensures n <= |events| && (events != [] ==> n >= 1)
  {
    if |events| <= 1 then |events|
    else if events[|events| - 1].now - events[|events| - 2].now < ttl then 1 + RunLength(events[..|events| - 1], ttl)
    else 1
  }

  function LastEvents(events: seq<Event>, n: nat): seq<Event>
    requires n <= |events|
  {
    events[|events| - n..]
  }

  /** That is the length of the longest dense suffix. */
  lemma {:induction false} RunLengthIsLongest(events: seq<Event>, ttl: nat, n: nat)
    requires n <= |events|
    ensures Dense(LastEvents(events, n), ttl) <==> n <= RunLength(events, ttl) || n <= 1
  {
    if |events| > 1 && n > 1 {
      var front := events[..|events| - 1];
      RunLengthIsLongest(front, ttl, n - 1);
      DenseLast(events, n, ttl);
    }
  }

  lemma DenseLast(events: seq<Event>, n: nat, ttl: nat)
    requires 1 < n <= |events|
    ensures Dense(LastEvents(events, n), ttl) <==>
      Dense(LastEvents(events[..|events| - 1], n - 1), ttl) && events[|events| - 1].now - events[|events| - 2].now < ttl
  {
    var front, all := LastEvents(events[..|events| - 1], n - 1), LastEvents(events, n);
    assert front == all[..n - 1];
    assert all[n - 1] == events[|events| - 1] && all[n - 2] == events[|events| - 2];
    DenseAppend(front, all, ttl);
  }

  lemma DenseAppend(front: seq<Event>, all: seq<Event>, ttl: nat)
    requires |all| >= 2 && front == all[..|all| - 1]
    ensures Dense(all, ttl) <==> Dense(front, ttl) && all[|all| - 1].now - all[|all| - 2].now < ttl
  {
    assert forall i :: 0 <= i < |front| ==> front[i] == all[i];
  }

  predicate Nondecreasing(log: seq<Event>) {
    forall i, j :: 0 <= i <= j < |log| ==> log[i].now <= log[j].now
  }

  /** Every new key found room. */
  predicate CapNeverReached(log: seq<Event>, ttl: nat) {
    forall i :: 0 <= i < |log| ==> HasRoom(Retained(AfterLog(log[..i], ttl), log[i].now, ttl), log[i].key)
  }

  /** The entry of a key is still there: it was the last one recorded, or its last event is less than ttl old. */
  predicate Alive(log: seq<Event>, key: Key, ttl: nat) {
    var events := Of(log, key);
    events != [] && (log[|log| - 1].key == key || log[|log| - 1].now - events[|events| - 1].now < ttl)
  }

  function Summary(events: seq<Event>, ttl: nat): Entry
    requires events != []
  {
    var last := events[|events| - 1];
    Entry(RunLength(events, ttl), last.now, last.network, last.accepted)
  }

  /** The map holds exactly the live keys, each with the summary of its events. */
  ghost predicate Refines(entries: Entries, log: seq<Event>, ttl: nat) {
    forall key :: KeyRefines(entries, log, key, ttl)
  }

  predicate KeyRefines(entries: Entries, log: seq<Event>, key: Key, ttl: nat) {
    && (key in entries <==> log != [] && Alive(log, key, ttl))
    && (key in entries ==> Of(log, key) != [] && entries[key] == Summary(Of(log, key), ttl))
  }

  lemma {:induction false} OfIsMember(log: seq<Event>, key: Key)
    ensures forall i :: 0 <= i < |Of(log, key)| ==> Of(log, key)[i] in log && Of(log, key)[i].key == key
    ensures log != [] && log[|log| - 1].key == key ==>
      Of(log, key) != [] && Of(log, key)[|Of(log, key)| - 1] == log[|log| - 1]
  {
    if log != [] {
      OfIsMember(log[..|log| - 1], key);
    }
  }

  /** Eviction at a later event keeps exactly the keys seen less than ttl before it. */
  lemma KeptIffRecent(log: seq<Event>, e: Event, key: Key, ttl: nat, before: Entries)
    requires Nondecreasing(log + [e]) && Refines(before, log, ttl)
    ensures var events := Of(log, key);
      && (key in Retained(before, e.now, ttl) <==> events != [] && e.now - events[|events| - 1].now < ttl)
      && (key in Retained(before, e.now, ttl) ==> Retained(before, e.now, ttl)[key] == Summary(events, ttl))
  {
    var events := Of(log, key);
    assert KeyRefines(before, log, key, ttl);
    OfIsMember(log, key);
    if events != [] {
      LastIsNotLater(log, e, events[|events| - 1]);
    }
  }

  lemma OfAppend(log: seq<Event>, e: Event, key: Key)
    ensures Of(log + [e], key) == if e.key == key then Of(log, key) + [e] else Of(log, key)
  {
    assert (log + [e])[..|log|] == log;
  }

  lemma SummaryAppend(events: seq<Event>, e: Event, ttl: nat)
    ensures Summary(events + [e], ttl) ==
      Entry(if events != [] && e.now - events[|events| - 1].now < ttl then RunLength(events, ttl) + 1 else 1,
            e.now, e.network, e.accepted)
  {
    assert (events + [e])[..|events|] == events;
  }

  /** The effect of the last event on one key. */
  lemma KeyAfterEvent(log: seq<Event>, e: Event, key: Key, ttl: nat, before: Entries)
    requires Nondecreasing(log + [e]) && Refines(before, log, ttl)
    requires HasRoom(Retained(before, e.now, ttl), e.key)
    ensures KeyRefines(Recorded(before, e, ttl), log + [e], key, ttl)
  {
    KeptIffRecent(log, e, key, ttl, before);
    CountedSummary(Retained(before, e.now, ttl), Of(log, key), e, key, ttl);
    OfAppend(log, e, key);
    AliveAppend(log, e, key, ttl);
  }

  lemma AliveAppend(log: seq<Event>, e: Event, key: Key, ttl: nat)
    ensures var events := Of(log, key);
      Alive(log + [e], key, ttl) <==> e.key == key || (events != [] && e.now - events[|events| - 1].now < ttl)
  {
    OfAppend(log, e, key);
    assert (log + [e])[|log|] == e;
  }

  lemma CountedSummary(kept: Entries, events: seq<Event>, e: Event, key: Key, ttl: nat)
    requires key in kept <==> events != [] && e.now - events[|events| - 1].now < ttl
    requires key in kept ==> kept[key] == Summary(events, ttl)
    ensures e.key == key ==> key in Counted(kept, e) && Counted(kept, e)[key] == Summary(events + [e], ttl)
    ensures e.key != key ==> (key in Counted(kept, e) <==> key in kept)
    ensures e.key != key && key in kept ==> Counted(kept, e)[key] == kept[key]
  {
    SummaryAppend(events, e, ttl);
  }

  lemma LastIsNotLater(log: seq<Event>, e: Event, x: Event)
    requires Nondecreasing(log + [e]) && x in log
    ensures x.now <= log[|log| - 1].now <= e.now
  {
    var all := log + [e];
    var i :| 0 <= i < |log| && log[i] == x;
    assert all[i] == x && all[|log| - 1] == log[|log| - 1] && all[|log|] == e;
  }

  /** The statistics map refines the event log: with a nondecreasing clock and room for every new key, the count of a
      key is the length of the longest run of its latest events with gaps below ttl, whatever evictions other keys
      trigger, and exactly the keys seen within ttl of the last event remain. */
  lemma {:induction false} StatsRefineLog(log: seq<Event>, ttl: nat)
    requires Nondecreasing(log) && CapNeverReached(log, ttl)
    ensures Refines(AfterLog(log, ttl), log, ttl)
  {
    if log != [] {
      var earlier, e := log[..|log| - 1], log[|log| - 1];
      assert log == earlier + [e];
      PrefixHypotheses(log, ttl);
      StatsRefineLog(earlier, ttl);
      EventKeepsRefinement(earlier, e, ttl, AfterLog(earlier, ttl));
    }
  }

  lemma EventKeepsRefinement(log: seq<Event>, e: Event, ttl: nat, before: Entries)
    requires Nondecreasing(log + [e]) && Refines(before, log, ttl)
    requires HasRoom(Retained(before, e.now, ttl), e.key)
    ensures Refines(Recorded(before, e, ttl), log + [e], ttl)
  {
    forall key ensures KeyRefines(Recorded(before, e, ttl), log + [e], key, ttl) {
      KeyAfterEvent(log, e, key, ttl, before);
    }
  }

  lemma PrefixHypotheses(log: seq<Event>, ttl: nat)
    requires log != [] && Nondecreasing(log) && CapNeverReached(log, ttl)
    ensures Nondecreasing(log[..|log| - 1]) && CapNeverReached(log[..|log| - 1], ttl)
    ensures HasRoom(Retained(AfterLog(log[..|log| - 1], ttl), log[|log| - 1].now, ttl), log[|log| - 1].key)
  {
    var earlier := log[..|log| - 1];
    forall i | 0 <= i < |earlier|
      ensures HasRoom(Retained(AfterLog(earlier[..i], ttl), earlier[i].now, ttl), earlier[i].key)
    {
      assert earlier[..i] == log[..i] && earlier[i] == log[i];
    }
  }

  // ---------- logs that stay below the cap ----------

  function KeysOf(log: seq<Event>): set<Key> {
    set i | 0 <= i < |log| :: log[i].key
  }

  lemma {:induction false} RecordedKeysOccur(log: seq<Event>, ttl: nat)
    ensures AfterLog(log, ttl).Keys <= KeysOf(log)
  {
    if log != [] {
      var n := |log| - 1;
      RecordedKeysOccur(log[..n], ttl);
      KeysGrow(log, n);
      assert log[n].key in KeysOf(log);
    }
  }

  lemma KeysGrow(log: seq<Event>, n: nat)
    requires n <= |log|
    ensures KeysOf(log[..n]) <= KeysOf(log)
  {
    forall k | k in KeysOf(log[..n]) ensures k in KeysOf(log) {
      var i :| 0 <= i < n && log[..n][i].key == k;
      assert log[i].key == k;
    }
  }

  lemma {:induction false} SubsetOfKeys(a: set<Key>, b: set<Key>)
    requires a <= b
    ensures |a| <= |b|
  {
    if a != {} {
      var x :| x in a;
      SubsetOfKeys(a - {x}, b - {x});
    }
  }

  /** A log with at most 1,000,000 different keys never reaches the cap. */
  lemma FewKeysFit(log: seq<Event>, ttl: nat)
    requires |KeysOf(log)| <= 1_000_000
    ensures CapNeverReached(log, ttl)
  {
    forall i | 0 <= i < |log|
      ensures HasRoom(Retained(AfterLog(log[..i], ttl), log[i].now, ttl), log[i].key)
    {
      var kept := Retained(AfterLog(log[..i], ttl), log[i].now, ttl);
      if log[i].key !in kept {
        RecordedKeysOccur(log[..i], ttl);
        KeysGrow(log, i);
        assert log[i].key in KeysOf(log);
        assert kept.Keys <= KeysOf(log) - {log[i].key};
        SubsetOfKeys(kept.Keys, KeysOf(log) - {log[i].key});
        assert |kept| == |kept.Keys|;
      }
    }
  }

  /** So for every log with at most 1,000,000 different keys and a nondecreasing clock the map is the summary of the
      log. */
  lemma StatsRefineSmallLog(log: seq<Event>, ttl: nat)
    requires Nondecreasing(log) && |KeysOf(log)| <= 1_000_000
    ensures Refines(AfterLog(log, ttl), log, ttl)
  {
    FewKeysFit(log, ttl);
    StatsRefineLog(log, ttl);
  }

  /** The headline for one key: a record leaves as its count the length of the longest suffix of its events whose
      consecutive gaps are all below ttl. */
  lemma JustRecordedCount(log: seq<Event>, ttl: nat)
    requires log != [] && Nondecreasing(log) && |KeysOf(log)| <= 1_000_000
    ensures var key := log[|log| - 1].key;
      var events := Of(log, key);
      && key in AfterLog(log, ttl) && 1 <= AfterLog(log, ttl)[key].count <= |events|
      && forall n :: 1 <= n <= |events| ==>
           (Dense(LastEvents(events, n), ttl) <==> n <= AfterLog(log, ttl)[key].count)
  {
    StatsRefineSmallLog(log, ttl);
    assert KeyRefines(AfterLog(log, ttl), log, log[|log| - 1].key, ttl);
    OfIsMember(log, log[|log| - 1].key);
    assert Alive(log, log[|log| - 1].key, ttl);
    var events := Of(log, log[|log| - 1].key);
    forall n | 1 <= n <= |events| ensures Dense(LastEvents(events, n), ttl) <==> n <= RunLength(events, ttl) {
      RunLengthIsLongest(events, ttl, n);
    }
  }
}
