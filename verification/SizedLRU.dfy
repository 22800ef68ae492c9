/** A cache bounded by the total size of its entries, which evicts the least recently used ones. */
module SizedLRUs {
  import opened Entries
  import opened Ids

  // ---------- Entries, oldest first ----------

  function Without<K(==), V>(entries: seq<Entry<K, V>>, key: K): seq<Entry<K, V>> {
    var i := IndexOf(entries, key);
    if i < |entries| then entries[..i] + entries[i + 1..] else entries
  }

  /** The entries with one replaced, or added, as the newest. */
  function Renewed<K(==), V>(entries: seq<Entry<K, V>>, entry: Entry<K, V>): seq<Entry<K, V>> {
    Without(entries, entry.key) + [entry]
  }

  function Weight<K, V>(size: (K, V) -> nat, entries: seq<Entry<K, V>>): nat {
    if entries == [] then 0 else size(entries[0].key, entries[0].value) + Weight(size, entries[1..])
  }

  lemma {:induction false} WeightConcat<K, V>(size: (K, V) -> nat, a: seq<Entry<K, V>>, b: seq<Entry<K, V>>)
    ensures Weight(size, a + b) == Weight(size, a) + Weight(size, b)
  {
    if a == [] {
      assert a + b == b;
    } else {
      assert (a + b)[1..] == a[1..] + b;
      WeightConcat(size, a[1..], b);
    }
  }

  lemma WeightSplit<K, V>(size: (K, V) -> nat, entries: seq<Entry<K, V>>, n: nat)
    requires n <= |entries|
    ensures Weight(size, entries) == Weight(size, entries[..n]) + Weight(size, entries[n..])
  {
    assert entries == entries[..n] + entries[n..];
    WeightConcat(size, entries[..n], entries[n..]);
  }

  lemma WeightWithout<K, V>(size: (K, V) -> nat, entries: seq<Entry<K, V>>, key: K)
    ensures Weight(size, Without(entries, key)) ==
            Weight(size, entries) - OldWeight(size, entries, key)
  {
    var i := IndexOf(entries, key);
    if i < |entries| {
      WeightSplit(size, entries, i);
      assert entries[i..][1..] == entries[i + 1..];
      WeightConcat(size, entries[..i], entries[i + 1..]);
    }
  }

  /** The size of the entry held for a key. */
  function OldWeight<K(==), V>(size: (K, V) -> nat, entries: seq<Entry<K, V>>, key: K): nat {
    var i := IndexOf(entries, key);
    if i < |entries| then size(key, entries[i].value) else 0
  }

  /** How many of the oldest entries go before `current` is at most `limit`. */
  function Dropped<K, V>(size: (K, V) -> nat, entries: seq<Entry<K, V>>, current: int, limit: int): (n: nat)
    ensures n <= |entries|
  {
    if current <= limit || entries == [] then 0
    else 1 + Dropped(size, entries[1..], current - size(entries[0].key, entries[0].value), limit)
  }

  // ---------- The operations ----------

  datatype Cache<K, V> = Cache(entries: seq<Entry<K, V>>, current: int) {
    /** How many entries make way for a new one. */
    ghost function Drops(size: (K, V) -> nat, max: int, key: K, value: V): (n: nat)
      ensures n <= |entries|
    {
      Dropped(size, entries, current - OldWeight(size, entries, key), max - size(key, value))
    }

    ghost function Put(size: (K, V) -> nat, max: int, key: K, value: V): Cache<K, V> {
      if size(key, value) > max then Cache([], 0)
      else
        var n := Drops(size, max, key, value);
        Cache(Renewed(entries[n..], Entry(key, value)),
              current - OldWeight(size, entries, key) - Weight(size, entries[..n]) + size(key, value))
    }

    ghost function Get(key: K): Cache<K, V> {
      var i := IndexOf(entries, key);
      if i < |entries| then Cache(Renewed(entries, entries[i]), current) else this
    }

    ghost function Found(key: K): Option<V> {
      var i := IndexOf(entries, key);
      if i < |entries| then Some(entries[i].value) else None
    }

    ghost function Evict(size: (K, V) -> nat, key: K): Cache<K, V> {
      Cache(Without(entries, key), current - OldWeight(size, entries, key))
    }

    /** By how much the entries outweigh the recorded size. */
    ghost function Slack(size: (K, V) -> nat): int {
      Weight(size, entries) - current
    }

    /** The eviction loop reaches the entry being replaced: the entries newer than it leave no room for
        the new one. */
    ghost predicate EvictsReplaced(size: (K, V) -> nat, max: int, key: K, value: V) {
      var i := IndexOf(entries, key);
      && size(key, value) <= max
      && i < |entries|
      && current - OldWeight(size, entries, key) - Weight(size, entries[..i]) > max - size(key, value)
    }
  }

  lemma {:induction false} DroppedReaches<K, V>(size: (K, V) -> nat, entries: seq<Entry<K, V>>, current: int, limit: int, i: nat)
    requires i < |entries|
    ensures Dropped(size, entries, current, limit) > i <==> current - Weight(size, entries[..i]) > limit
  {
    if current <= limit {
    } else if i > 0 {
      DroppedReaches(size, entries[1..], current - size(entries[0].key, entries[0].value), limit, i - 1);
      assert entries[..i][1..] == entries[1..][..i - 1];
    }
  }

  /** After the loop the rest fits, as long as the entries weigh at least what is recorded. */
  lemma {:induction false} DroppedFits<K, V>(size: (K, V) -> nat, entries: seq<Entry<K, V>>, current: int, limit: int)
    requires current <= Weight(size, entries) && limit >= 0
    ensures current - Weight(size, entries[..Dropped(size, entries, current, limit)]) <= limit
  {
    var n := Dropped(size, entries, current, limit);
    if n > 0 {
      DroppedFits(size, entries[1..], current - size(entries[0].key, entries[0].value), limit);
      assert entries[..n][1..] == entries[1..][..n - 1];
    }
  }

  lemma {:induction false} IndexOfSuffix<K, V>(entries: seq<Entry<K, V>>, key: K, n: nat)
    requires DistinctKeys(entries) && n <= |entries|
    ensures var i := IndexOf(entries, key);
            IndexOf(entries[n..], key) == if n <= i then i - n else |entries| - n
  {
    var i, j := IndexOf(entries, key), IndexOf(entries[n..], key);
    if j < |entries| - n {
      assert entries[n..][j] == entries[n + j];
    }
    if n <= i < |entries| {
      assert entries[n..][i - n].key == key;
    }
  }

  lemma OldWeightSuffix<K, V>(size: (K, V) -> nat, entries: seq<Entry<K, V>>, key: K, n: nat)
    requires DistinctKeys(entries) && n <= |entries|
    ensures OldWeight(size, entries[n..], key) == if n <= IndexOf(entries, key) then OldWeight(size, entries, key) else 0
  {
    var i := IndexOf(entries, key);
    IndexOfSuffix(entries, key, n);
    assert n <= i < |entries| ==> entries[n..][i - n] == entries[i];
  }

  /** A put either empties the cache, or changes the slack only by counting a replaced entry twice. */
  lemma PutSlack<K, V>(c: Cache<K, V>, size: (K, V) -> nat, max: int, key: K, value: V)
    requires DistinctKeys(c.entries)
    ensures c.Put(size, max, key, value).Slack(size) ==
            if size(key, value) > max then 0
            else c.Slack(size) + if c.EvictsReplaced(size, max, key, value) then OldWeight(size, c.entries, key) else 0
  {
    if size(key, value) <= max {
      var n, i := c.Drops(size, max, key, value), IndexOf(c.entries, key);
      OldWeightSuffix(size, c.entries, key, n);
      RenewedWeight(size, c.entries[n..], Entry(key, value));
      WeightSplit(size, c.entries, n);
      if i < |c.entries| {
        DroppedReaches(size, c.entries, c.current - OldWeight(size, c.entries, key), max - size(key, value), i);
      }
    }
  }

  // ---------- What every operation keeps ----------

  lemma WithoutKeeps<K, V>(entries: seq<Entry<K, V>>, key: K)
    requires DistinctKeys(entries)
    ensures DistinctKeys(Without(entries, key)) && IndexOf(Without(entries, key), key) == |Without(entries, key)|
    ensures forall e | e in Without(entries, key) :: e in entries && e.key != key
  {
    var rest, i := Without(entries, key), IndexOf(entries, key);
    forall j | 0 <= j < |rest|
      ensures rest[j].key != key && rest[j] in entries
    {
      assert rest[j] == entries[if j < i then j else j + 1];
    }
  }

  /** A negative maximum keeps the cache empty. */
  ghost function Bound(max: int): nat {
    if max < 0 then 0 else max
  }

  /** The recorded size never exceeds what the entries weigh, nor the bound. */
  ghost predicate Bounded<K, V>(c: Cache<K, V>, size: (K, V) -> nat, max: int) {
    DistinctKeys(c.entries) && c.Slack(size) >= 0 && c.current <= Bound(max)
  }

  lemma PutDistinct<K, V>(c: Cache<K, V>, size: (K, V) -> nat, max: int, key: K, value: V)
    requires DistinctKeys(c.entries)
    ensures DistinctKeys(c.Put(size, max, key, value).entries)
  {
    if size(key, value) <= max {
      RenewedDistinct(c.entries[c.Drops(size, max, key, value)..], Entry(key, value));
    }
  }

  lemma RenewedDistinct<K, V>(entries: seq<Entry<K, V>>, entry: Entry<K, V>)
    requires DistinctKeys(entries)
    ensures DistinctKeys(Renewed(entries, entry))
  {
    WithoutKeeps(entries, entry.key);
  }

  lemma PutWithinBound<K, V>(c: Cache<K, V>, size: (K, V) -> nat, max: int, key: K, value: V)
    requires c.Slack(size) >= 0
    ensures c.Put(size, max, key, value).current <= Bound(max)
  {
    if size(key, value) <= max {
      DroppedFits(size, c.entries, c.current - OldWeight(size, c.entries, key), max - size(key, value));
    }
  }

  lemma PutBounded<K, V>(c: Cache<K, V>, size: (K, V) -> nat, max: int, key: K, value: V)
    requires Bounded(c, size, max)
    ensures Bounded(c.Put(size, max, key, value), size, max)
  {
    PutDistinct(c, size, max, key, value);
    PutWithinBound(c, size, max, key, value);
    PutSlack(c, size, max, key, value);
  }

  lemma GetBounded<K, V>(c: Cache<K, V>, size: (K, V) -> nat, max: int, key: K)
    requires Bounded(c, size, max)
    ensures Bounded(c.Get(key), size, max) && c.Get(key).Slack(size) == c.Slack(size)
  {
    var i := IndexOf(c.entries, key);
    if i < |c.entries| {
      RenewedDistinct(c.entries, c.entries[i]);
      RenewedWeight(size, c.entries, c.entries[i]);
    }
  }

  lemma RenewedWeight<K, V>(size: (K, V) -> nat, entries: seq<Entry<K, V>>, entry: Entry<K, V>)
    ensures Weight(size, Renewed(entries, entry)) ==
            Weight(size, entries) - OldWeight(size, entries, entry.key) + size(entry.key, entry.value)
  {
    WeightWithout(size, entries, entry.key);
    WeightConcat(size, Without(entries, entry.key), [entry]);
    assert [entry][1..] == [];
  }

  lemma EvictBounded<K, V>(c: Cache<K, V>, size: (K, V) -> nat, max: int, key: K)
    requires Bounded(c, size, max)
    ensures Bounded(c.Evict(size, key), size, max) && c.Evict(size, key).Slack(size) == c.Slack(size)
  {
    WithoutKeeps(c.entries, key);
    WeightWithout(size, c.entries, key);
  }

  /** From an exact state a put stays exact unless it replaces an entry of some size whose newer neighbours
      leave no room for the new one. */
  ghost predicate Miscounts<K, V>(c: Cache<K, V>, size: (K, V) -> nat, max: int, key: K, value: V) {
    var i := IndexOf(c.entries, key);
    && i < |c.entries|
    && size(key, c.entries[i].value) > 0
    && size(key, value) <= max < Weight(size, c.entries[i + 1..]) + size(key, value)
  }

  lemma PutExact<K, V>(c: Cache<K, V>, size: (K, V) -> nat, max: int, key: K, value: V)
    requires DistinctKeys(c.entries) && c.Slack(size) == 0
    ensures c.Put(size, max, key, value).Slack(size) == 0 <==> !Miscounts(c, size, max, key, value)
  {
    PutSlack(c, size, max, key, value);
    var i := IndexOf(c.entries, key);
    if i < |c.entries| {
      WeightSplit(size, c.entries, i);
      assert c.entries[i..][1..] == c.entries[i + 1..];
    }
  }

  /** Replacing an entry by one no larger never miscounts. */
  lemma NoLargerIsExact<K, V>(c: Cache<K, V>, size: (K, V) -> nat, max: int, key: K, value: V)
    requires Bounded(c, size, max) && c.Slack(size) == 0
    requires IndexOf(c.entries, key) < |c.entries| ==> size(key, value) <= OldWeight(size, c.entries, key)
    ensures !Miscounts(c, size, max, key, value)
  {
    var i := IndexOf(c.entries, key);
    if i < |c.entries| {
      WeightSplit(size, c.entries, i);
      assert c.entries[i..][1..] == c.entries[i + 1..];
    }
  }

  // ---------- Runs ----------

  datatype Event<K, V> = Put(key: K, value: V) | Get(key: K) | Evict(key: K) | Flush

  ghost function Step<K, V>(c: Cache<K, V>, size: (K, V) -> nat, max: int, event: Event<K, V>): Cache<K, V> {
    match event
    case Put(key, value) => c.Put(size, max, key, value)
    case Get(key) => c.Get(key)
    case Evict(key) => c.Evict(size, key)
    case Flush => Cache([], 0)
  }

  /** The states of a cache that starts empty. */
  ghost predicate IsRun<K, V>(size: (K, V) -> nat, max: int, events: seq<Event<K, V>>, states: seq<Cache<K, V>>) {
    && |states| == |events| + 1 && states[0] == Cache([], 0)
    && forall m | 0 <= m < |events| :: states[m + 1] == Step(states[m], size, max, events[m])
  }

  ghost predicate PutMiscounts<K, V>(c: Cache<K, V>, size: (K, V) -> nat, max: int, event: Event<K, V>) {
    event.Put? && Miscounts(c, size, max, event.key, event.value)
  }

  ghost predicate PutGrows<K, V>(c: Cache<K, V>, size: (K, V) -> nat, event: Event<K, V>) {
    && event.Put?
    && IndexOf(c.entries, event.key) < |c.entries|
    && size(event.key, event.value) > OldWeight(size, c.entries, event.key)
  }

  lemma StepBounded<K, V>(c: Cache<K, V>, size: (K, V) -> nat, max: int, event: Event<K, V>)
    requires Bounded(c, size, max)
    ensures Bounded(Step(c, size, max, event), size, max)
    ensures c.Slack(size) == 0 ==> (Step(c, size, max, event).Slack(size) == 0 <==> !PutMiscounts(c, size, max, event))
  {
    match event
    case Put(key, value) =>
      PutBounded(c, size, max, key, value);
      if c.Slack(size) == 0 {
        PutExact(c, size, max, key, value);
      }
    case Get(key) => GetBounded(c, size, max, key);
    case Evict(key) => EvictBounded(c, size, max, key);
    case Flush =>
  }

  /** Over every run the keys are distinct and the recorded size is within the bound and the weight. */
  lemma {:induction false} RunBounded<K, V>(size: (K, V) -> nat, max: int, events: seq<Event<K, V>>,
                                            states: seq<Cache<K, V>>, n: nat)
    requires IsRun(size, max, events, states) && n < |states|
    ensures Bounded(states[n], size, max)
  {
    if n > 0 {
      RunBounded(size, max, events, states, n - 1);
      StepBounded(states[n - 1], size, max, events[n - 1]);
    }
  }

  lemma RunStepExact<K, V>(size: (K, V) -> nat, max: int, events: seq<Event<K, V>>, states: seq<Cache<K, V>>, n: nat)
    requires IsRun(size, max, events, states) && n < |events|
    ensures states[n].Slack(size) == 0 ==>
              (states[n + 1].Slack(size) == 0 <==> !PutMiscounts(states[n], size, max, events[n]))
  {
    RunBounded(size, max, events, states, n);
    StepBounded(states[n], size, max, events[n]);
  }

  lemma {:induction false} ExactWithoutMiscounts<K, V>(size: (K, V) -> nat, max: int, events: seq<Event<K, V>>,
                                                       states: seq<Cache<K, V>>, n: nat)
    requires IsRun(size, max, events, states) && n <= |events|
    requires forall m | 0 <= m < n :: !PutMiscounts(states[m], size, max, events[m])
    ensures states[n].Slack(size) == 0
  {
    if n > 0 {
      ExactWithoutMiscounts(size, max, events, states, n - 1);
      RunStepExact(size, max, events, states, n - 1);
    }
  }

  /** The recorded size is the weight of the entries all along a run exactly when no put of it miscounts. */
  lemma RunExact<K, V>(size: (K, V) -> nat, max: int, events: seq<Event<K, V>>, states: seq<Cache<K, V>>, n: nat)
    requires IsRun(size, max, events, states) && n <= |events|
    ensures (forall m | 0 <= m <= n :: states[m].Slack(size) == 0) <==>
            (forall m | 0 <= m < n :: !PutMiscounts(states[m], size, max, events[m]))
  {
    if forall m | 0 <= m <= n :: states[m].Slack(size) == 0 {
      forall m | 0 <= m < n
        ensures !PutMiscounts(states[m], size, max, events[m])
      {
        assert states[m].Slack(size) == 0 && states[m + 1].Slack(size) == 0;
        RunStepExact(size, max, events, states, m);
      }
    }
    if forall m | 0 <= m < n :: !PutMiscounts(states[m], size, max, events[m]) {
      forall m | 0 <= m <= n
        ensures states[m].Slack(size) == 0
      {
        ExactWithoutMiscounts(size, max, events, states, m);
      }
    }
  }

  /** When no put replaces an entry by a larger one, the recorded size is the weight, and so the weight is
      within the bound. */
  lemma {:induction false} RunWithoutGrowth<K, V>(size: (K, V) -> nat, max: int, events: seq<Event<K, V>>,
                                                  states: seq<Cache<K, V>>, n: nat)
    requires IsRun(size, max, events, states) && n < |states|
    requires forall m | 0 <= m < n :: !PutGrows(states[m], size, events[m])
    ensures states[n].current == Weight(size, states[n].entries) <= Bound(max)
  {
    RunBounded(size, max, events, states, n);
    if n > 0 {
      RunWithoutGrowth(size, max, events, states, n - 1);
      RunBounded(size, max, events, states, n - 1);
      StepWithoutGrowth(states[n - 1], size, max, events[n - 1]);
    }
  }

  lemma StepWithoutGrowth<K, V>(c: Cache<K, V>, size: (K, V) -> nat, max: int, event: Event<K, V>)
    requires Bounded(c, size, max) && c.Slack(size) == 0 && !PutGrows(c, size, event)
    ensures Step(c, size, max, event).Slack(size) == 0
  {
    StepBounded(c, size, max, event);
    if event.Put? {
      NoLargerIsExact(c, size, max, event.key, event.value);
    }
  }

  // ---------- What a run leaves behind ----------

  ghost predicate Touches<K, V>(event: Event<K, V>, key: K) {
    (event.Put? || event.Get?) && event.key == key
  }

  /** When a key was last put or asked for, counting events from 1. */
  ghost function LastTouch<K, V>(events: seq<Event<K, V>>, n: nat, key: K): (t: nat)
    requires n <= |events|
    ensures t <= n
  {
    if n == 0 then 0 else if Touches(events[n - 1], key) then n else LastTouch(events, n - 1, key)
  }

  /** The value last put for a key. */
  ghost function LastPut<K, V>(events: seq<Event<K, V>>, n: nat, key: K): Option<V>
    requires n <= |events|
  {
    if n == 0 then None
    else if events[n - 1].Put? && events[n - 1].key == key then Some(events[n - 1].value)
    else LastPut(events, n - 1, key)
  }

  /** Each entry holds the value last put for its key, and the entries stand in the order of their last use. */
  ghost predicate Recorded<K, V>(events: seq<Event<K, V>>, n: nat, entries: seq<Entry<K, V>>)
    requires n <= |events|
  {
    && (forall i | 0 <= i < |entries| :: LastPut(events, n, entries[i].key) == Some(entries[i].value))
    && (forall i, j | 0 <= i < j < |entries| ::
          LastTouch(events, n, entries[i].key) < LastTouch(events, n, entries[j].key))
  }

  lemma RecordedSuffix<K, V>(events: seq<Event<K, V>>, n: nat, entries: seq<Entry<K, V>>, m: nat)
    requires n <= |events| && m <= |entries| && Recorded(events, n, entries)
    ensures Recorded(events, n, entries[m..])
  {
  }

  lemma RecordedWithout<K, V>(events: seq<Event<K, V>>, n: nat, entries: seq<Entry<K, V>>, key: K)
    requires n <= |events| && Recorded(events, n, entries)
    ensures Recorded(events, n, Without(entries, key))
  {
  }

  lemma RecordedStep<K, V>(events: seq<Event<K, V>>, n: nat, entries: seq<Entry<K, V>>)
    requires n < |events| && Recorded(events, n, entries)
    requires forall e | e in entries :: !Touches(events[n], e.key)
    ensures Recorded(events, n + 1, entries)
  {
    forall i | 0 <= i < |entries|
      ensures LastPut(events, n + 1, entries[i].key) == LastPut(events, n, entries[i].key)
      ensures LastTouch(events, n + 1, entries[i].key) == LastTouch(events, n, entries[i].key)
    {
      assert !Touches(events[n], entries[i].key);
    }
  }

  lemma RecordedAppend<K, V>(events: seq<Event<K, V>>, n: nat, entries: seq<Entry<K, V>>, entry: Entry<K, V>)
    requires n < |events| && Recorded(events, n, entries)
    requires forall e | e in entries :: e.key != entry.key
    requires Touches(events[n], entry.key) && LastPut(events, n + 1, entry.key) == Some(entry.value)
    ensures Recorded(events, n + 1, entries + [entry])
  {
    RecordedStep(events, n, entries);
    forall i | 0 <= i < |entries|
      ensures LastTouch(events, n + 1, entries[i].key) <= n
    {
      assert entries[i] in entries;
    }
  }

  lemma PutRecorded<K, V>(size: (K, V) -> nat, max: int, events: seq<Event<K, V>>, n: nat, c: Cache<K, V>)
    requires n < |events| && events[n].Put? && DistinctKeys(c.entries) && Recorded(events, n, c.entries)
    ensures Recorded(events, n + 1, c.Put(size, max, events[n].key, events[n].value).entries)
  {
    var key, value := events[n].key, events[n].value;
    if size(key, value) <= max {
      var kept := c.entries[c.Drops(size, max, key, value)..];
      RecordedSuffix(events, n, c.entries, c.Drops(size, max, key, value));
      RenewedRecorded(events, n, kept, Entry(key, value));
    }
  }

  lemma GetRecorded<K, V>(events: seq<Event<K, V>>, n: nat, c: Cache<K, V>)
    requires n < |events| && events[n].Get? && DistinctKeys(c.entries) && Recorded(events, n, c.entries)
    ensures Recorded(events, n + 1, c.Get(events[n].key).entries)
  {
    var i := IndexOf(c.entries, events[n].key);
    if i < |c.entries| {
      RenewedRecorded(events, n, c.entries, c.entries[i]);
    } else {
      RecordedStep(events, n, c.entries);
    }
  }

  lemma StepRecorded<K, V>(size: (K, V) -> nat, max: int, events: seq<Event<K, V>>, n: nat, c: Cache<K, V>)
    requires n < |events| && DistinctKeys(c.entries) && Recorded(events, n, c.entries)
    ensures Recorded(events, n + 1, Step(c, size, max, events[n]).entries)
  {
    match events[n]
    case Put(_, _) =>
      PutRecorded(size, max, events, n, c);
    case Get(_) =>
      GetRecorded(events, n, c);
    case Evict(key) =>
      RecordedWithout(events, n, c.entries, key);
      RecordedStep(events, n, Without(c.entries, key));
    case Flush =>
  }

  lemma RenewedRecorded<K, V>(events: seq<Event<K, V>>, n: nat, entries: seq<Entry<K, V>>, entry: Entry<K, V>)
    requires n < |events| && DistinctKeys(entries) && Recorded(events, n, entries)
    requires Touches(events[n], entry.key) && LastPut(events, n + 1, entry.key) == Some(entry.value)
    ensures Recorded(events, n + 1, Renewed(entries, entry))
  {
    RecordedWithout(events, n, entries, entry.key);
    WithoutKeeps(entries, entry.key);
    RecordedAppend(events, n, Without(entries, entry.key), entry);
  }

  /** Over every run a hit returns the value last put for the key, and the oldest entries, which go first,
      are the least recently used. */
  lemma {:induction false} RunRecorded<K, V>(size: (K, V) -> nat, max: int, events: seq<Event<K, V>>,
                                             states: seq<Cache<K, V>>, n: nat)
    requires IsRun(size, max, events, states) && n < |states|
    ensures Recorded(events, n, states[n].entries)
    ensures forall key: K :: states[n].Found(key).Some? ==> states[n].Found(key) == LastPut(events, n, key)
  {
    if n > 0 {
      RunRecorded(size, max, events, states, n - 1);
      RunBounded(size, max, events, states, n - 1);
      StepRecorded(size, max, events, n - 1, states[n - 1]);
    }
  }

  // ---------- What each operation does to the entries ----------

  /** A key hits exactly if an entry for it is held, and the hit is that entry's value. */
  lemma FoundExactly<K, V>(c: Cache<K, V>, key: K, value: V)
    requires DistinctKeys(c.entries)
    ensures c.Found(key) == Some(value) <==> Entry(key, value) in c.entries
    ensures c.Found(key).None? <==> forall i | 0 <= i < |c.entries| :: c.entries[i].key != key
  {
    var i := IndexOf(c.entries, key);
    if Entry(key, value) in c.entries {
      var j :| 0 <= j < |c.entries| && c.entries[j] == Entry(key, value);
      assert i == j;
    }
  }

  lemma WithoutKeepsOther<K, V>(entries: seq<Entry<K, V>>, key: K, j: nat)
    requires j < |entries| && entries[j].key != key
    ensures entries[j] in Without(entries, key)
  {
    var i, rest := IndexOf(entries, key), Without(entries, key);
    if j < i {
      assert rest[j] == entries[j];
    } else {
      assert rest[j - 1] == entries[j];
    }
  }

  lemma WithoutExactly<K, V>(entries: seq<Entry<K, V>>, key: K, e: Entry<K, V>)
    requires DistinctKeys(entries)
    ensures e in Without(entries, key) <==> e in entries && e.key != key
  {
    WithoutKeeps(entries, key);
    if e in entries && e.key != key {
      var j :| 0 <= j < |entries| && entries[j] == e;
      WithoutKeepsOther(entries, key, j);
    }
  }

  /** Asking for a key changes no entry; a held one becomes the newest. */
  lemma GetEffect<K, V>(c: Cache<K, V>, key: K, e: Entry<K, V>)
    requires DistinctKeys(c.entries)
    ensures var t := c.Get(key);
            && (e in t.entries <==> e in c.entries) && t.current == c.current
            && (c.Found(key).Some? ==> t.entries != [] && t.entries[|t.entries| - 1] == Entry(key, c.Found(key).value))
            && (c.Found(key).None? ==> t == c)
  {
    WithoutExactly(c.entries, key, e);
    if e in c.entries && e.key == key {
      FoundExactly(c, key, e.value);
    }
  }

  /** Afterwards the key is gone, and every other entry remains. */
  lemma EvictEffect<K, V>(c: Cache<K, V>, size: (K, V) -> nat, key: K, e: Entry<K, V>)
    requires DistinctKeys(c.entries)
    ensures var t := c.Evict(size, key);
            && (e in t.entries <==> e in c.entries && e.key != key)
            && t.Found(key).None?
            && t.current == c.current - (if c.Found(key).Some? then size(key, c.Found(key).value) else 0)
  {
    WithoutExactly(c.entries, key, e);
    WithoutKeeps(c.entries, key);
  }

  /** A put within the bound is the newest entry, and brings back no other.  A put above the bound empties the cache. */
  lemma PutEffect<K, V>(c: Cache<K, V>, size: (K, V) -> nat, max: int, key: K, value: V)
    requires DistinctKeys(c.entries)
    ensures var t := c.Put(size, max, key, value);
            if size(key, value) > max then t == Cache([], 0)
            else
              && t.entries != [] && t.entries[|t.entries| - 1] == Entry(key, value) && t.Found(key) == Some(value)
              && forall e | e in t.entries && e.key != key :: e in c.entries
  {
    if size(key, value) <= max {
      var t, kept := c.Put(size, max, key, value), c.entries[c.Drops(size, max, key, value)..];
      PutDistinct(c, size, max, key, value);
      assert t.entries == Without(kept, key) + [Entry(key, value)];
      FoundExactly(t, key, value);
      WithoutKeeps(kept, key);
    }
  }

  /** Another entry remains exactly if what is recorded of the entries from it on leaves room for the new one. */
  lemma PutKeepsExactly<K, V>(c: Cache<K, V>, size: (K, V) -> nat, max: int, key: K, value: V, i: nat)
    requires DistinctKeys(c.entries) && i < |c.entries| && c.entries[i].key != key && size(key, value) <= max
    ensures c.entries[i] in c.Put(size, max, key, value).entries <==>
            c.current - OldWeight(size, c.entries, key) - Weight(size, c.entries[..i]) <= max - size(key, value)
  {
    var n, t := c.Drops(size, max, key, value), c.Put(size, max, key, value);
    DroppedReaches(size, c.entries, c.current - OldWeight(size, c.entries, key), max - size(key, value), i);
    WithoutExactly(c.entries[n..], key, c.entries[i]);
    KeptExactly(c.entries, n, i);
    assert t.entries == Without(c.entries[n..], key) + [Entry(key, value)];
  }

  lemma KeptExactly<K, V>(entries: seq<Entry<K, V>>, n: nat, i: nat)
    requires DistinctKeys(entries) && n <= |entries| && i < |entries|
    ensures entries[i] in entries[n..] <==> n <= i
  {
    if n <= i {
      assert entries[n..][i - n] == entries[i];
    }
  }

  // ---------- An entry stays while there is room ----------

  /** The entry is held, and what is newer weighs at most `used`. */
  ghost predicate HeldAt<K, V>(size: (K, V) -> nat, entries: seq<Entry<K, V>>, entry: Entry<K, V>, used: nat, i: nat) {
    i < |entries| && entries[i] == entry && Weight(size, entries[i + 1..]) <= used
  }

  lemma WithoutHeld<K, V>(size: (K, V) -> nat, entries: seq<Entry<K, V>>, entry: Entry<K, V>, used: nat, i: nat, key: K)
    returns (j: nat)
    requires HeldAt(size, entries, entry, used, i) && key != entry.key
    ensures HeldAt(size, Without(entries, key), entry, used, j)
  {
    var k, newer := IndexOf(entries, key), entries[i + 1..];
    var rest := Without(entries, key);
    if k == |entries| {
      j := i;
    } else if k < i {
      j := i - 1;
      assert rest[j + 1..] == newer;
    } else {
      j := i;
      var m := k - (i + 1);
      assert rest[j + 1..] == newer[..m] + newer[m + 1..];
      WeightConcat(size, newer[..m], newer[m + 1..]);
      WeightSplit(size, newer, m);
      assert newer[m..][1..] == newer[m + 1..];
    }
  }

  lemma RenewedHeld<K, V>(size: (K, V) -> nat, entries: seq<Entry<K, V>>, entry: Entry<K, V>, used: nat, i: nat, newest: Entry<K, V>)
    returns (j: nat)
    requires HeldAt(size, entries, entry, used, i) && newest.key != entry.key
    ensures HeldAt(size, Renewed(entries, newest), entry, used + size(newest.key, newest.value), j)
  {
    j := WithoutHeld(size, entries, entry, used, i, newest.key);
    var rest := Without(entries, newest.key);
    assert Renewed(entries, newest)[j + 1..] == rest[j + 1..] + [newest];
    WeightConcat(size, rest[j + 1..], [newest]);
    assert [newest][1..] == [];
  }

  lemma SuffixHeld<K, V>(size: (K, V) -> nat, entries: seq<Entry<K, V>>, entry: Entry<K, V>, used: nat, i: nat, n: nat)
    requires HeldAt(size, entries, entry, used, i) && n <= i
    ensures HeldAt(size, entries[n..], entry, used, i - n)
  {
    assert entries[n..][i - n + 1..] == entries[i + 1..];
  }

  /** What an event makes newer than the entry of `key`. */
  ghost function Uses<K, V>(size: (K, V) -> nat, c: Cache<K, V>, event: Event<K, V>, key: K): nat {
    match event
    case Put(k, v) => size(k, v)
    case Get(k) => if k == key then 0 else OldWeight(size, c.entries, k)
    case _ => 0
  }

  /** The events that neither replace the entry of `key` nor take it out on purpose. */
  ghost predicate Spares<K, V>(event: Event<K, V>, key: K) {
    match event
    case Put(k, _) => k != key
    case Evict(k) => k != key
    case Get(_) => true
    case Flush => false
  }

  lemma PutHeld<K, V>(c: Cache<K, V>, size: (K, V) -> nat, max: int, entry: Entry<K, V>, used: nat, i: nat, newest: Entry<K, V>)
    returns (j: nat)
    requires Bounded(c, size, max) && HeldAt(size, c.entries, entry, used, i) && newest.key != entry.key
    requires size(entry.key, entry.value) + used + size(newest.key, newest.value) <= max
    ensures HeldAt(size, c.Put(size, max, newest.key, newest.value).entries, entry, used + size(newest.key, newest.value), j)
  {
    var n := c.Drops(size, max, newest.key, newest.value);
    DroppedReaches(size, c.entries, c.current - OldWeight(size, c.entries, newest.key), max - size(newest.key, newest.value), i);
    WeightSplit(size, c.entries, i);
    assert c.entries[i..][1..] == c.entries[i + 1..];
    SuffixHeld(size, c.entries, entry, used, i, n);
    j := RenewedHeld(size, c.entries[n..], entry, used, i - n, newest);
  }

  lemma NewestHeld<K, V>(c: Cache<K, V>, size: (K, V) -> nat, max: int, entry: Entry<K, V>) returns (j: nat)
    requires size(entry.key, entry.value) <= max
    ensures HeldAt(size, c.Put(size, max, entry.key, entry.value).entries, entry, 0, j)
  {
    var entries := c.Put(size, max, entry.key, entry.value).entries;
    j := |entries| - 1;
    assert entries[j + 1..] == [];
  }

  lemma StepHeld<K, V>(c: Cache<K, V>, size: (K, V) -> nat, max: int, entry: Entry<K, V>, used: nat, i: nat, event: Event<K, V>)
    returns (j: nat)
    requires Bounded(c, size, max) && HeldAt(size, c.entries, entry, used, i) && Spares(event, entry.key)
    requires size(entry.key, entry.value) + used + Uses(size, c, event, entry.key) <= max
    ensures HeldAt(size, Step(c, size, max, event).entries, entry, used + Uses(size, c, event, entry.key), j)
  {
    match event
    case Put(k, v) => j := PutHeld(c, size, max, entry, used, i, Entry(k, v));
    case Evict(k) => j := WithoutHeld(size, c.entries, entry, used, i, k);
    case Get(k) =>
      var at := IndexOf(c.entries, k);
      if k == entry.key {
        assert at == i;
        j := |Without(c.entries, k)|;
        assert Renewed(c.entries, entry)[j + 1..] == [];
      } else if at < |c.entries| {
        j := RenewedHeld(size, c.entries, entry, used, i, c.entries[at]);
      } else {
        j := i;
      }
  }

  /** What the events from `m` to `n` of a run make newer than the entry of `key`. */
  ghost function Used<K, V>(size: (K, V) -> nat, events: seq<Event<K, V>>, states: seq<Cache<K, V>>, m: nat, n: nat, key: K): nat
    requires m <= n <= |events| && n <= |states|
    decreases n
  {
    if m == n then 0 else Used(size, events, states, m, n - 1, key) + Uses(size, states[n - 1], events[n - 1], key)
  }

  lemma {:induction false} RunHeld<K, V>(size: (K, V) -> nat, max: int, events: seq<Event<K, V>>, states: seq<Cache<K, V>>,
                                         m: nat, n: nat, entry: Entry<K, V>)
    returns (j: nat)
    requires IsRun(size, max, events, states) && m < n < |states|
    requires events[m] == Event.Put(entry.key, entry.value)
    requires forall k | m < k < n :: Spares(events[k], entry.key)
    requires size(entry.key, entry.value) + Used(size, events, states, m + 1, n, entry.key) <= max
    ensures HeldAt(size, states[n].entries, entry, Used(size, events, states, m + 1, n, entry.key), j)
    decreases n
  {
    RunBounded(size, max, events, states, n - 1);
    if n == m + 1 {
      j := NewestHeld(states[m], size, max, entry);
    } else {
      var i := RunHeld(size, max, events, states, m, n - 1, entry);
      j := StepHeld(states[n - 1], size, max, entry, Used(size, events, states, m + 1, n - 1, entry.key), i, events[n - 1]);
    }
  }

  /** What was put hits, as long as it was not replaced, evicted or flushed, and what was put or asked for since leaves
      room for it. */
  lemma PutThenHit<K, V>(size: (K, V) -> nat, max: int, events: seq<Event<K, V>>, states: seq<Cache<K, V>>,
                         m: nat, n: nat, key: K, value: V)
    requires IsRun(size, max, events, states) && m < n < |states| && events[m] == Event.Put(key, value)
    requires forall k | m < k < n :: Spares(events[k], key)
    requires size(key, value) + Used(size, events, states, m + 1, n, key) <= max
    ensures states[n].Found(key) == Some(value)
  {
    var j := RunHeld(size, max, events, states, m, n, Entry(key, value));
    RunBounded(size, max, events, states, n);
    assert states[n].entries[j] in states[n].entries;
    FoundExactly(states[n], key, value);
  }

  function ValueSize(key: int, value: int): nat {
    if value < 0 then 0 else value
  }

  lemma PutFirst()
    ensures Cache([], 0).Put(ValueSize, 10, 0, 5) == Cache([Entry(0, 5)], 5)
  {
  }

  lemma PutSecond()
    ensures Cache([Entry(0, 5)], 5).Put(ValueSize, 10, 1, 5) == Cache([Entry(0, 5), Entry(1, 5)], 10)
    ensures Weight(ValueSize, [Entry(0, 5), Entry(1, 5)]) == 10
  {
    var full: seq<Entry<int, int>> := [Entry(0, 5), Entry(1, 5)];
    assert full[1..] == [Entry(1, 5)];
  }

  lemma PutLarger()
    ensures Cache([Entry(0, 5), Entry(1, 5)], 10).Put(ValueSize, 10, 0, 6) == Cache([Entry(1, 5), Entry(0, 6)], 6)
    ensures Weight(ValueSize, [Entry(1, 5), Entry(0, 6)]) == 11
  {
    var full: seq<Entry<int, int>>, after: seq<Entry<int, int>> := [Entry(0, 5), Entry(1, 5)], [Entry(1, 5), Entry(0, 6)];
    assert after[1..] == [Entry(0, 6)];
    assert full[1..] == [Entry(1, 5)] && full[..1] == [Entry(0, 5)];
    assert OldWeight(ValueSize, full, 0) == 5 && Dropped(ValueSize, full, 5, 4) == 1;
    assert Weight(ValueSize, full[..1]) == 5;
    assert Without(full[1..], 0) == [Entry(1, 5)];
    var put := Cache(full, 10).Put(ValueSize, 10, 0, 6);
    assert put.entries == Without(full[1..], 0) + [Entry(0, 6)] == after;
  }

  /** Two entries of size 5 within a bound of 10; replacing the older by one of size 6 leaves 6 recorded and
      11 held. */
  lemma GrowthMiscounts()
    ensures var after := Cache([], 0).Put(ValueSize, 10, 0, 5).Put(ValueSize, 10, 1, 5).Put(ValueSize, 10, 0, 6);
            after == Cache([Entry(1, 5), Entry(0, 6)], 6) && Weight(ValueSize, after.entries) == 11
  {
    PutFirst();
    PutSecond();
    PutLarger();
  }

  /** One round of the eviction loop where an entry's size is its value, negative or not.  An empty list
      yields the zero key and value, deletes nothing and takes off a size of 0. */
  function EvictOnce(c: Cache<int, int>): Cache<int, int> {
    if c.entries == [] then c else Cache(c.entries[1..], c.current - c.entries[0].value)
  }

  /** Sizes must not be negative: with sizes -5 and 10 held and 10 as the bound, replacing the first by one of
      size 6 reaches an empty list with 5 recorded, where only 4 is allowed and no round changes anything. */
  lemma NegativeSizesSpin()
    ensures var held := [Entry(0, -5), Entry(1, 10)];
            var uncounted := Cache(held, 5 - -5);
            && EvictOnce(EvictOnce(uncounted)) == Cache([], 5) && 5 > 10 - 6
            && EvictOnce(Cache([], 5)) == Cache([], 5)
  {
    assert [Entry(0, -5), Entry(1, 10)][1..] == [Entry(1, 10)];
  }

  // ---------- The implementation ----------

  class SizedLRU<K(==), V> {
    const size: (K, V) -> nat
    const maxSize: int
    var elements: seq<Entry<K, V>>
    var currentSize: int

    /** What keeps the eviction loop from asking an empty list for its oldest entry. */
    ghost predicate Valid()
      reads this
    {
      Bounded(View(), size, maxSize)
    }

    ghost function View(): Cache<K, V>
      reads this
    {
      Cache(elements, currentSize)
    }

    constructor (maxSize: int, size: (K, V) -> nat)
      ensures Valid() && View() == Cache([], 0) && this.maxSize == maxSize && this.size == size
    {
      this.maxSize, this.size, elements, currentSize := maxSize, size, [], 0;
    }

    method Put(key: K, value: V)
      requires Valid()
      modifies this
      ensures Valid() && View() == old(View()).Put(size, maxSize, key, value)
    {
      PutBounded(View(), size, maxSize, key, value);
      var newEntrySize := size(key, value);
      if newEntrySize > maxSize {
        Flush();
      } else {
        Insert(key, value, newEntrySize);
      }
    }

    method Insert(key: K, value: V, newEntrySize: nat)
      requires currentSize <= Weight(size, elements) && newEntrySize == size(key, value) <= maxSize
      modifies this
      ensures View() == old(View()).Put(size, maxSize, key, value)
    {
      ghost var n := View().Drops(size, maxSize, key, value);
      Uncount(key);
      DropOldest(maxSize - newEntrySize);
      assert elements == old(elements)[n..];
      elements := Renewed(elements, Entry(key, value));
      currentSize := currentSize + newEntrySize;
    }

    /** Takes an entry about to be replaced out of the recorded size. */
    method Uncount(key: K)
      modifies this`currentSize
      ensures currentSize == old(currentSize) - OldWeight(size, elements, key)
    {
      var i := IndexOf(elements, key);
      if i < |elements| {
        currentSize := currentSize - size(key, elements[i].value);
      }
    }

    method DropOldest(limit: nat)
      requires currentSize <= Weight(size, elements)
      modifies this
      ensures var n := Dropped(size, old(elements), old(currentSize), limit);
              elements == old(elements)[n..] && currentSize == old(currentSize) - Weight(size, old(elements)[..n])
    {
      ghost var n := 0;
      while currentSize > limit
        invariant n <= |old(elements)| && elements == old(elements)[n..]
        invariant currentSize == old(currentSize) - Weight(size, old(elements)[..n])
        invariant n + Dropped(size, elements, currentSize, limit) == Dropped(size, old(elements), old(currentSize), limit)
        invariant currentSize <= Weight(size, elements)
        decreases |elements|
      {
        var oldest := elements[0];
        assert old(elements)[..n + 1] == old(elements)[..n] + [oldest];
        WeightConcat(size, old(elements)[..n], [oldest]);
        assert [oldest][1..] == [];
        elements := elements[1..];
        currentSize := currentSize - size(oldest.key, oldest.value);
        n := n + 1;
      }
    }

    method Get(key: K) returns (value: Option<V>)
      requires Valid()
      modifies this
      ensures Valid() && View() == old(View()).Get(key) && value == old(View()).Found(key)
      ensures value.Some? ==> Entry(key, value.value) in old(elements)
      ensures value.None? ==> forall i | 0 <= i < |old(elements)| :: old(elements)[i].key != key
    {
      GetBounded(View(), size, maxSize, key);
      var i := IndexOf(elements, key);
      if i == |elements| {
        return None;
      }
      value := Some(elements[i].value);
      elements := Renewed(elements, elements[i]);
    }

    method Evict(key: K)
      requires Valid()
      modifies this
      ensures Valid() && View() == old(View()).Evict(size, key)
    {
      EvictBounded(View(), size, maxSize, key);
      var i := IndexOf(elements, key);
      if i < |elements| {
        currentSize := currentSize - size(key, elements[i].value);
        elements := Without(elements, key);
      }
    }

    method Flush()
      modifies this
      ensures Valid() && View() == Cache([], 0)
    {
      elements, currentSize := [], 0;
    }
  }
}
