/** A cache that hands out one shared object per key and tells each object when it leaves. */
module EvictableLRUs {
  import opened Entries

  /** An object with its key; the entry's value stands for the identity of the object. */
  type Value<K> = Entry<K, nat>

  // ---------- What the cache does, as a list of values, oldest first ----------

  /** Which of `n` elements comes to position `j` when element `i` is moved to the back. */
  function Origin(i: nat, j: nat, n: nat): (from: nat)
    requires i < n && j < n
    ensures from < n
  {
    if j < i then j else if j == n - 1 then i else j + 1
  }

  /** The sequence with element `i` moved to the back. */
  function Moved<T>(s: seq<T>, i: nat): (r: seq<T>)
    requires i < |s|
    ensures |r| == |s| && forall j | 0 <= j < |s| :: r[j] == s[Origin(i, j, |s|)]
  {
    seq(|s|, j requires 0 <= j < |s| => s[Origin(i, j, |s|)])
  }

  /** How many of the oldest values must go for `size` to remain. */
  ghost function Excess(length: nat, size: int): (n: nat)
    ensures n <= length
  {
    if size <= 0 then length else if length > size then length - size else 0
  }

  /** The values held, oldest first, and those told to leave so far, in order. */
  datatype Cache<K> = Cache(values: seq<Value<K>>, evicted: seq<Value<K>>) {
    ghost function Resize(size: int): Cache<K> {
      var n := Excess(|values|, size);
      Cache(values[n..], evicted + values[..n])
    }

    ghost function DropOldest(): Cache<K>
      requires values != []
    {
      Cache(values[1..], evicted + [values[0]])
    }

    ghost function Append(value: Value<K>): Cache<K> {
      Cache(values + [value], evicted)
    }

    ghost function MoveToBack(i: nat): Cache<K>
      requires i < |values|
    {
      Cache(Moved(values, i), evicted)
    }

    ghost function Deduplicate(value: Value<K>, size: int): Cache<K>
      requires size > 0
    {
      Resize(size).Find(value, size)
    }

    ghost function Find(value: Value<K>, size: int): Cache<K>
      requires size > 0
    {
      var i := IndexOf(values, value.key);
      if i < |values| then MoveToBack(i)
      else if |values| >= size then DropOldest().Append(value)
      else Append(value)
    }

    /** Everything that is in the cache or has left it. */
    ghost function Accounted(): multiset<Value<K>> {
      multiset(values) + multiset(evicted)
    }
  }

  /** Every value of `before` is still held in `after` or was evicted on the way. */
  ghost predicate Follows<K>(before: Cache<K>, after: Cache<K>) {
    && before.evicted <= after.evicted
    && forall w | w in before.values :: w in after.values || w in after.evicted[|before.evicted|..]
  }

  lemma FollowsTransitive<K>(a: Cache<K>, b: Cache<K>, c: Cache<K>)
    requires Follows(a, b) && Follows(b, c)
    ensures Follows(a, c)
  {
    forall w | w in a.values
      ensures w in c.values || w in c.evicted[|a.evicted|..]
    {
      if w !in c.values && w in b.values {
        assert w in c.evicted[|b.evicted|..];
      } else if w !in c.values {
        var i :| 0 <= i < |b.evicted| - |a.evicted| && b.evicted[|a.evicted|..][i] == w;
        assert c.evicted[|a.evicted|..][i] == w;
      }
    }
  }

  lemma ResizeFacts<K>(c: Cache<K>, size: int)
    requires DistinctKeys(c.values)
    ensures DistinctKeys(c.Resize(size).values) && Follows(c, c.Resize(size))
    ensures size >= 0 ==> |c.Resize(size).values| <= size
    ensures c.Resize(size).Accounted() == c.Accounted()
  {
    var n := Excess(|c.values|, size);
    assert c.values == c.values[..n] + c.values[n..];
    assert c.Resize(size).evicted[|c.evicted|..] == c.values[..n];
  }

  /** What every way of ending a search does: the newest value carries the key, and only `admitted` came in. */
  ghost predicate Found<K>(c: Cache<K>, d: Cache<K>, key: K, admitted: multiset<Value<K>>) {
    && DistinctKeys(d.values) && d.values != [] && d.values[|d.values| - 1].key == key
    && Follows(c, d)
    && d.Accounted() == c.Accounted() + admitted
  }

  /** Every element has a place after the move. */
  lemma MovedTo<T>(s: seq<T>, i: nat, j: nat) returns (k: nat)
    requires i < |s| && j < |s|
    ensures k < |s| && Moved(s, i)[k] == s[j]
  {
    k := if j < i then j else if j == i then |s| - 1 else j - 1;
    assert Origin(i, k, |s|) == j;
  }

  lemma MovedMembers<T>(s: seq<T>, i: nat)
    requires i < |s|
    ensures forall w | w in s :: w in Moved(s, i)
    ensures multiset(Moved(s, i)) == multiset(s)
  {
    forall w | w in s
      ensures w in Moved(s, i)
    {
      var j :| 0 <= j < |s| && s[j] == w;
      var k := MovedTo(s, i, j);
    }
    assert Moved(s, i) == s[..i] + s[i + 1..] + [s[i]];
    assert s == s[..i] + [s[i]] + s[i + 1..];
  }

  lemma MovedDistinct<K>(values: seq<Value<K>>, i: nat)
    requires i < |values| && DistinctKeys(values)
    ensures DistinctKeys(Moved(values, i))
  {
    var moved, n := Moved(values, i), |values|;
    forall j, k | 0 <= j < k < n
      ensures moved[j].key != moved[k].key
    {
      assert Origin(i, j, n) != Origin(i, k, n);
    }
  }

  lemma MoveToBackFinds<K>(c: Cache<K>, i: nat)
    requires i < |c.values| && DistinctKeys(c.values)
    ensures Found(c, c.MoveToBack(i), c.values[i].key, multiset{})
  {
    MovedMembers(c.values, i);
    MovedDistinct(c.values, i);
  }

  lemma AppendFinds<K>(c: Cache<K>, value: Value<K>)
    requires DistinctKeys(c.values) && IndexOf(c.values, value.key) == |c.values|
    ensures Found(c, c.Append(value), value.key, multiset{value})
  {
  }

  lemma ReplaceOldestFinds<K>(c: Cache<K>, value: Value<K>)
    requires DistinctKeys(c.values) && c.values != [] && IndexOf(c.values, value.key) == |c.values|
    ensures Found(c, c.DropOldest().Append(value), value.key, multiset{value})
  {
    var d := c.DropOldest().Append(value);
    assert c.values == [c.values[0]] + c.values[1..];
    assert d.evicted[|c.evicted|..] == [c.values[0]];
  }

  lemma FindFacts<K>(c: Cache<K>, value: Value<K>, size: int)
    requires DistinctKeys(c.values) && |c.values| <= size && size > 0
    ensures |c.Find(value, size).values| <= size
    ensures Found(c, c.Find(value, size), value.key,
                  if IndexOf(c.values, value.key) < |c.values| then multiset{} else multiset{value})
  {
    var i := IndexOf(c.values, value.key);
    if i < |c.values| {
      MoveToBackFinds(c, i);
    } else if |c.values| >= size {
      ReplaceOldestFinds(c, value);
    } else {
      AppendFinds(c, value);
    }
  }

  // ---------- Runs ----------

  ghost function Newest<K>(values: seq<Value<K>>, otherwise: Value<K>): Value<K> {
    if values == [] then otherwise else values[|values| - 1]
  }

  /** `Size` is a public field that callers may set between calls. */
  datatype Event<K> = Deduplicate(value: Value<K>) | Flush | SetSize(size: int)

  datatype System<K> = System(cache: Cache<K>, size: int) {
    ghost function Init(): (s: System<K>)
      ensures s.size > 0
    {
      System(cache, if size <= 0 then 1 else size)
    }

    ghost function Step(event: Event<K>): System<K> {
      match event
      case Deduplicate(value) => System(cache.Deduplicate(value, Init().size), Init().size)
      case Flush => System(cache.Resize(0), Init().size)
      case SetSize(n) => System(cache, n)
    }

    ghost function Run(events: seq<Event<K>>): System<K> {
      if events == [] then this else Run(events[..|events| - 1]).Step(events[|events| - 1])
    }

    /** The object a search returns: the one moved or put at the back. */
    ghost function Returned(value: Value<K>): Value<K> {
      Newest(Step(Event.Deduplicate(value)).cache.values, value)
    }

    /** The object an event brings into the cache, if it does. */
    ghost function Admitted(event: Event<K>): multiset<Value<K>> {
      match event
      case Deduplicate(value) =>
        var held := cache.Resize(Init().size).values;
        if IndexOf(held, value.key) < |held| then multiset{} else multiset{value}
      case _ => multiset{}
    }

    ghost function AdmittedBy(events: seq<Event<K>>): multiset<Value<K>> {
      if events == [] then multiset{}
      else AdmittedBy(events[..|events| - 1]) + Run(events[..|events| - 1]).Admitted(events[|events| - 1])
    }
  }

  ghost function NewSystem<K>(size: int): System<K> {
    System(Cache([], []), size)
  }

  lemma StepFacts<K>(s: System<K>, event: Event<K>)
    requires DistinctKeys(s.cache.values)
    ensures var t := s.Step(event);
            && DistinctKeys(t.cache.values) && Follows(s.cache, t.cache)
            && t.cache.Accounted() == s.cache.Accounted() + s.Admitted(event)
            && (event.Deduplicate? ==>
                  && 0 < |t.cache.values| <= t.size
                  && t.cache.values[|t.cache.values| - 1].key == event.value.key)
            && (event.Flush? ==> t.cache.values == [])
  {
    match event
    case Deduplicate(value) =>
      var size := s.Init().size;
      ResizeFacts(s.cache, size);
      FindFacts(s.cache.Resize(size), value, size);
      FollowsTransitive(s.cache, s.cache.Resize(size), s.cache.Deduplicate(value, size));
    case Flush =>
      ResizeFacts(s.cache, 0);
    case SetSize(_) =>
  }

  /** Over any run, keys stay distinct, and what was held or came in is what is held or was evicted: each
      value that leaves is evicted once, and no other is. */
  lemma {:induction false} RunFacts<K>(s: System<K>, events: seq<Event<K>>)
    requires DistinctKeys(s.cache.values)
    ensures var t := s.Run(events);
            && DistinctKeys(t.cache.values) && Follows(s.cache, t.cache)
            && t.cache.Accounted() == s.cache.Accounted() + s.AdmittedBy(events)
  {
    if events != [] {
      var rest := events[..|events| - 1];
      RunFacts(s, rest);
      StepFacts(s.Run(rest), events[|events| - 1]);
      FollowsTransitive(s.cache, s.Run(rest).cache, s.Run(events).cache);
    }
  }

  /** Two searches for one key return one object, whatever happens in between, unless that object was
      evicted after the first. */
  lemma SameObjectUnlessEvicted<K>(s: System<K>, first: Value<K>, between: seq<Event<K>>, second: Value<K>)
    requires DistinctKeys(s.cache.values) && first.key == second.key
    ensures var a := s.Step(Event.Deduplicate(first));
            var b := a.Run(between);
            a.cache.evicted <= b.Step(Event.Deduplicate(second)).cache.evicted
    ensures var a := s.Step(Event.Deduplicate(first));
            var b := a.Run(between);
            var c := b.Step(Event.Deduplicate(second));
            || b.Returned(second) == s.Returned(first)
            || s.Returned(first) in c.cache.evicted[|a.cache.evicted|..]
  {
    var a := s.Step(Event.Deduplicate(first));
    StepFacts(s, Event.Deduplicate(first));
    RunFacts(a, between);
    var b := a.Run(between);
    StepFacts(b, Event.Deduplicate(second));
    var c := b.Step(Event.Deduplicate(second));
    FollowsTransitive(a.cache, b.cache, c.cache);
    var w := s.Returned(first);
    if w in c.cache.values {
      SameKeySameValue(c.cache.values, w, b.Returned(second));
    }
  }

  lemma SameKeySameValue<K>(values: seq<Value<K>>, v: Value<K>, w: Value<K>)
    requires DistinctKeys(values) && v in values && w in values && v.key == w.key
    ensures v == w
  {
  }

  // ---------- What is kept and what goes ----------

  ghost predicate HoldsKey<K>(values: seq<Value<K>>, key: K) {
    exists i :: 0 <= i < |values| && values[i].key == key
  }

  /** A cache that is within its size loses nothing before a search. */
  lemma WithinSizeStays<K>(c: Cache<K>, size: int)
    requires 0 < size && |c.values| <= size
    ensures c.Resize(size) == c
  {
    assert c.values[0..] == c.values && c.evicted + c.values[..0] == c.evicted;
  }

  /** A held object is returned and becomes the newest, and nothing is evicted. */
  lemma HitEffect<K>(s: System<K>, value: Value<K>, i: nat)
    requires DistinctKeys(s.cache.values) && |s.cache.values| <= s.size
    requires i < |s.cache.values| && s.cache.values[i].key == value.key
    ensures var t, values := s.Step(Event.Deduplicate(value)), s.cache.values;
            && t.size == s.size && t.cache.evicted == s.cache.evicted
            && s.Returned(value) == values[i] && t.cache.values == values[..i] + values[i + 1..] + [values[i]]
  {
    var values, k := s.cache.values, IndexOf(s.cache.values, value.key);
    WithinSizeStays(s.cache, s.size);
    assert k == i;
    assert Moved(values, i) == values[..i] + values[i + 1..] + [values[i]];
  }

  /** A value with a new key comes in and is returned, and the oldest goes exactly if there is no room. */
  lemma MissEffect<K>(s: System<K>, value: Value<K>)
    requires DistinctKeys(s.cache.values) && 0 < s.size && |s.cache.values| <= s.size && !HoldsKey(s.cache.values, value.key)
    ensures var t, values := s.Step(Event.Deduplicate(value)), s.cache.values;
            && t.size == s.size && s.Returned(value) == value
            && if |values| < s.size
               then t.cache.evicted == s.cache.evicted && t.cache.values == values + [value]
               else t.cache.evicted == s.cache.evicted + [values[0]] && t.cache.values == values[1..] + [value]
  {
    WithinSizeStays(s.cache, s.size);
    assert IndexOf(s.cache.values, value.key) == |s.cache.values|;
  }

  /** A cache that has become too long for its size first loses its oldest values, and no more than it must. */
  lemma TooLongLosesOldest<K>(c: Cache<K>, size: int)
    requires 0 < size < |c.values|
    ensures var t, n := c.Resize(size), |c.values| - size;
            t.values == c.values[n..] && t.evicted == c.evicted + c.values[..n]
  {
  }

  /** Flushing evicts everything, oldest first; a size that is not positive becomes 1. */
  lemma FlushEffect<K>(s: System<K>)
    ensures var t := s.Step(Event.Flush);
            && t.cache.values == [] && t.cache.evicted == s.cache.evicted + s.cache.values
            && t.size == if s.size <= 0 then 1 else s.size
  {
    assert s.cache.values[..|s.cache.values|] == s.cache.values;
  }

  // ---------- The least recently used goes first ----------

  /** When a key was last asked for, counting events from 1. */
  ghost function LastAsked<K>(events: seq<Event<K>>, key: K): (t: nat)
    ensures t <= |events|
  {
    if events == [] then 0
    else if events[|events| - 1].Deduplicate? && events[|events| - 1].value.key == key then |events|
    else LastAsked(events[..|events| - 1], key)
  }

  /** The values stand in the order in which their keys were last asked for. */
  ghost predicate ByLastAsked<K>(events: seq<Event<K>>, values: seq<Value<K>>) {
    && (forall i | 0 <= i < |values| :: LastAsked(events, values[i].key) > 0)
    && forall i, j | 0 <= i < j < |values| :: LastAsked(events, values[i].key) < LastAsked(events, values[j].key)
  }

  lemma ByLastAskedSuffix<K>(events: seq<Event<K>>, values: seq<Value<K>>, n: nat)
    requires ByLastAsked(events, values) && n <= |values|
    ensures ByLastAsked(events, values[n..])
  {
  }

  /** Taking out the key that is asked for and putting it last keeps the order. */
  lemma ByLastAskedRenewed<K>(events: seq<Event<K>>, values: seq<Value<K>>, newest: Value<K>)
    requires events != [] && ByLastAsked(events[..|events| - 1], values)
    requires events[|events| - 1].Deduplicate? && events[|events| - 1].value.key == newest.key
    requires forall i | 0 <= i < |values| :: values[i].key != newest.key
    ensures ByLastAsked(events, values + [newest])
  {
    var all, before := values + [newest], events[..|events| - 1];
    assert LastAsked(events, newest.key) == |events|;
    forall i | 0 <= i < |values|
      ensures LastAsked(events, all[i].key) == LastAsked(before, values[i].key) <= |before|
    {
      assert values[i].key != newest.key;
    }
  }

  lemma FindByLastAsked<K>(c: Cache<K>, value: Value<K>, size: int, events: seq<Event<K>>)
    requires DistinctKeys(c.values) && size > 0 && events != [] && ByLastAsked(events[..|events| - 1], c.values)
    requires events[|events| - 1] == Event.Deduplicate(value)
    ensures ByLastAsked(events, c.Find(value, size).values)
  {
    var before, i := events[..|events| - 1], IndexOf(c.values, value.key);
    if i < |c.values| {
      var others := c.values[..i] + c.values[i + 1..];
      assert Moved(c.values, i) == others + [c.values[i]];
      assert forall j | 0 <= j < |others| :: others[j] == c.values[if j < i then j else j + 1];
      ByLastAskedRenewed(events, others, c.values[i]);
    } else if |c.values| >= size {
      ByLastAskedSuffix(before, c.values, 1);
      ByLastAskedRenewed(events, c.values[1..], value);
    } else {
      ByLastAskedRenewed(events, c.values, value);
    }
  }

  /** Over every run of a new cache the values stand in the order of their last use, so the oldest, which goes first, is
      the least recently used. */
  lemma {:induction false} RunByLastAsked<K>(size: int, events: seq<Event<K>>)
    ensures var t := NewSystem<K>(size).Run(events);
            DistinctKeys(t.cache.values) && ByLastAsked(events, t.cache.values)
  {
    var start := NewSystem<K>(size);
    RunFacts(start, events);
    if events != [] {
      var before, e := events[..|events| - 1], events[|events| - 1];
      RunByLastAsked(size, before);
      var s := start.Run(before);
      match e
      case Deduplicate(value) =>
        var n := s.Init().size;
        ResizeFacts(s.cache, n);
        ByLastAskedSuffix(before, s.cache.values, Excess(|s.cache.values|, n));
        FindByLastAsked(s.cache.Resize(n), value, n, events);
      case Flush =>
        ResizeFacts(s.cache, 0);
      case SetSize(_) =>
        forall i | 0 <= i < |s.cache.values|
          ensures LastAsked(events, s.cache.values[i].key) == LastAsked(before, s.cache.values[i].key)
        {
        }
    }
  }

  // ---------- Two searches return one object ----------

  /** The object `w` is held, and all that is newer has keys among `others`. */
  ghost predicate KeptBehind<K>(values: seq<Value<K>>, w: Value<K>, others: set<K>) {
    exists i :: 0 <= i < |values| && HeldAt(values, w, others, i)
  }

  ghost predicate HeldAt<K>(values: seq<Value<K>>, w: Value<K>, others: set<K>, i: nat) {
    && i < |values| && values[i] == w
    && forall j | i < j < |values| :: values[j].key in others
  }

  lemma {:induction false} DistinctFit<K>(values: seq<Value<K>>, keys: set<K>)
    requires DistinctKeys(values) && forall j | 0 <= j < |values| :: values[j].key in keys
    ensures |values| <= |keys|
  {
    if values != [] {
      var key := values[|values| - 1].key;
      DistinctFit(values[..|values| - 1], keys - {key});
    }
  }

  /** Fewer than `size` values are newer than `w`, or fewer still if one of the others is not held. */
  lemma NewerFit<K>(values: seq<Value<K>>, w: Value<K>, others: set<K>, i: nat)
    requires DistinctKeys(values) && HeldAt(values, w, others, i)
    ensures |values| - i - 1 <= |others|
    ensures forall key | key in others && !HoldsKey(values, key) :: |values| - i - 1 < |others|
  {
    var newer := values[i + 1..];
    DistinctFit(newer, others);
    forall key | key in others && !HoldsKey(values, key)
      ensures |newer| < |others|
    {
      forall j | 0 <= j < |newer|
        ensures newer[j].key in others - {key}
      {
        assert newer[j] == values[i + 1 + j];
      }
      DistinctFit(newer, others - {key});
    }
  }

  lemma ResizeKeeps<K>(c: Cache<K>, size: int, w: Value<K>, others: set<K>)
    requires DistinctKeys(c.values) && KeptBehind(c.values, w, others) && |others| < size
    ensures KeptBehind(c.Resize(size).values, w, others)
  {
    var i :| 0 <= i < |c.values| && HeldAt(c.values, w, others, i);
    NewerFit(c.values, w, others, i);
    var n := Excess(|c.values|, size);
    assert HeldAt(c.Resize(size).values, w, others, i - n);
  }

  lemma FindKeeps<K>(c: Cache<K>, value: Value<K>, size: int, w: Value<K>, others: set<K>)
    requires DistinctKeys(c.values) && KeptBehind(c.values, w, others) && |others| < size
    requires value.key == w.key || value.key in others
    ensures KeptBehind(c.Find(value, size).values, w, others)
  {
    var i :| 0 <= i < |c.values| && HeldAt(c.values, w, others, i);
    var k, n := IndexOf(c.values, value.key), |c.values|;
    NewerFit(c.values, w, others, i);
    if k < n {
      var moved := Moved(c.values, k);
      if k == i {
        assert HeldAt(moved, w, others, n - 1);
      } else {
        var at := if k < i then i - 1 else i;
        assert Origin(k, at, n) == i;
        forall j | at < j < n
          ensures moved[j].key in others
        {
          assert moved[j] == c.values[Origin(k, j, n)];
        }
        assert HeldAt(moved, w, others, at);
      }
    } else {
      assert !HoldsKey(c.values, value.key);
      assert value.key != w.key;
      assert HeldAt(c.Find(value, size).values, w, others, if n >= size then i - 1 else i);
    }
  }

  /** Calls that ask for no key but `key` and `others`, and leave room for them. */
  ghost predicate Spares<K>(event: Event<K>, key: K, others: set<K>) {
    match event
    case Deduplicate(value) => value.key == key || value.key in others
    case SetSize(n) => |others| < n
    case Flush => false
  }

  lemma StepKeeps<K>(s: System<K>, event: Event<K>, w: Value<K>, others: set<K>)
    requires DistinctKeys(s.cache.values) && KeptBehind(s.cache.values, w, others) && |others| < s.size
    requires Spares(event, w.key, others)
    ensures KeptBehind(s.Step(event).cache.values, w, others) && |others| < s.Step(event).size
  {
    match event
    case Deduplicate(value) =>
      ResizeFacts(s.cache, s.size);
      ResizeKeeps(s.cache, s.size, w, others);
      FindKeeps(s.cache.Resize(s.size), value, s.size, w, others);
    case SetSize(_) =>
  }

  lemma {:induction false} RunKeeps<K>(s: System<K>, events: seq<Event<K>>, w: Value<K>, others: set<K>)
    requires DistinctKeys(s.cache.values) && KeptBehind(s.cache.values, w, others) && |others| < s.size
    requires forall k | 0 <= k < |events| :: Spares(events[k], w.key, others)
    ensures KeptBehind(s.Run(events).cache.values, w, others) && |others| < s.Run(events).size
  {
    if events != [] {
      var k := |events| - 1;
      RunKeeps(s, events[..k], w, others);
      RunFacts(s, events[..k]);
      StepKeeps(s.Run(events[..k]), events[k], w, others);
    }
  }

  /** Two searches for one key return one object if fewer other keys than the cache has room for were asked for in
      between, and nothing was flushed. */
  lemma SameObjectWithRoom<K>(s: System<K>, first: Value<K>, between: seq<Event<K>>, second: Value<K>, others: set<K>)
    requires DistinctKeys(s.cache.values) && first.key == second.key && first.key !in others
    requires |others| < s.size || (others == {} && s.size <= 0)
    requires forall k | 0 <= k < |between| :: Spares(between[k], first.key, others)
    ensures s.Step(Event.Deduplicate(first)).Run(between).Returned(second) == s.Returned(first)
  {
    var a, w := s.Step(Event.Deduplicate(first)), s.Returned(first);
    StepFacts(s, Event.Deduplicate(first));
    var n := |a.cache.values| - 1;
    assert HeldAt(a.cache.values, w, others, n);
    RunKeeps(a, between, w, others);
    RunFacts(a, between);
    var b := a.Run(between);
    StepFacts(b, Event.Deduplicate(second));
    StepKeeps(b, Event.Deduplicate(second), w, others);
    SameKeySameValue(b.Step(Event.Deduplicate(second)).cache.values, w, b.Returned(second));
  }

  // ---------- The implementation ----------

  class ListElement<K> {
    var value: Value<K>

    constructor (value: Value<K>)
      ensures this.value == value
    {
      this.value := value;
    }
  }

  ghost predicate EntryOk<K>(entryMap: map<K, ListElement<K>>, e: ListElement<K>, value: Value<K>, repr: set<ListElement<K>>)
    reads repr
  {
    e in repr && e.value == value && value.key in entryMap && entryMap[value.key] == e
  }

  /** The map and the list describe the same entries, one per key. */
  ghost predicate Agree<K>(entryMap: map<K, ListElement<K>>, entryList: seq<ListElement<K>>, values: seq<Value<K>>,
                           repr: set<ListElement<K>>)
    reads repr
  {
    && DistinctKeys(values) && |values| == |entryList|
    && (forall i | 0 <= i < |values| :: EntryOk(entryMap, entryList[i], values[i], repr))
    && (forall key | key in entryMap :: IndexOf(values, key) < |values|)
  }

  class EvictableLRU<K(==)> {
    var entryMap: map<K, ListElement<K>>
    var entryList: seq<ListElement<K>>
    var size: int
    /** The values of the list, and the objects told to leave, in order. */
    ghost var values: seq<Value<K>>
    ghost var evicted: seq<Value<K>>
    /** Every element ever made for the list. */
    ghost var repr: set<ListElement<K>>

    ghost predicate Valid()
      reads this`entryMap, this`entryList, this`values, this`repr, repr
    {
      Agree(entryMap, entryList, values, repr)
    }

    ghost function View(): Cache<K>
      reads this`values, this`evicted
    {
      Cache(values, evicted)
    }

    constructor (size: int)
      ensures Valid() && View() == Cache([], []) && this.size == size && repr == {}
    {
      entryMap, entryList, this.size, values, evicted, repr := map[], [], size, [], [], {};
    }

    method Init()
      modifies this`size
      ensures size == if old(size) <= 0 then 1 else old(size)
    {
      if size <= 0 {
        size := 1;
      }
    }

    /** Takes the oldest element off the list and out of the map, and tells its object. */
    method RemoveOldest() returns (e: ListElement<K>)
      requires Valid() && entryList != []
      modifies this`entryMap, this`entryList, this`values, this`evicted
      ensures Valid() && View() == old(View()).DropOldest()
      ensures e == old(entryList[0]) && e in repr && e !in entryList && entryMap == old(entryMap) - {e.value.key}
    {
      RemoveOldestAgrees(entryMap, entryList, values, repr);
      e := entryList[0];
      entryList := entryList[1..];
      entryMap := entryMap - {e.value.key};
      values, evicted := values[1..], evicted + [e.value];
    }

    method Resize()
      requires Valid() && size >= 0
      modifies this`entryMap, this`entryList, this`values, this`evicted
      ensures Valid() && View() == old(View()).Resize(size)
    {
      while |entryList| > size
        invariant Valid() && View().Resize(size) == old(View()).Resize(size)
      {
        ResizeAfterDrop(View(), size);
        var e := RemoveOldest();
      }
    }

    method PushBack(e: ListElement<K>)
      requires Valid() && e.value.key !in entryMap && e in repr
      modifies this`entryMap, this`entryList, this`values
      ensures Valid() && View() == old(View()).Append(e.value)
    {
      PushBackAgrees(entryMap, entryList, values, repr, e);
      entryMap := entryMap[e.value.key := e];
      entryList := entryList + [e];
      values := values + [e.value];
    }

    method MoveToBack(e: ListElement<K>, ghost i: nat)
      requires Valid() && i < |entryList| && entryList[i] == e
      modifies this`entryList, this`values
      ensures Valid() && View() == old(View()).MoveToBack(i)
    {
      var at :| 0 <= at < |entryList| && entryList[at] == e;
      OnePosition(entryMap, entryList, values, repr, at, i);
      MoveToBackAgrees(entryMap, entryList, values, repr, at);
      entryList := Moved(entryList, at);
      values := Moved(values, at);
    }

    /** A value with a new key takes the element of the oldest one. */
    method ReplaceOldest(value: Value<K>)
      requires Valid() && value.key !in entryMap && entryList != []
      modifies this`entryMap, this`entryList, this`values, this`evicted, repr
      ensures Valid() && View() == old(View()).DropOldest().Append(value)
    {
      var e := RemoveOldest();
      e.value := value;
      PushBack(e);
    }

    method PushNew(value: Value<K>)
      requires Valid() && value.key !in entryMap
      modifies this`entryMap, this`entryList, this`values, this`repr
      ensures Valid() && View() == old(View()).Append(value)
      ensures fresh(repr - old(repr))
    {
      var e := new ListElement(value);
      repr := repr + {e};
      PushBack(e);
    }

    method Find(value: Value<K>) returns (shared: Value<K>)
      requires Valid() && size > 0
      modifies this`entryMap, this`entryList, this`values, this`evicted, this`repr, repr
      ensures Valid() && View() == old(View()).Find(value, size)
      ensures shared == Newest(values, value)
      ensures fresh(repr - old(repr))
    {
      if value.key !in entryMap {
        if |entryList| >= size {
          ReplaceOldest(value);
        } else {
          PushNew(value);
        }
        shared := value;
      } else {
        var e := entryMap[value.key];
        MoveToBack(e, IndexOf(values, value.key));
        shared := e.value;
      }
    }

    /** The object kept for the key, or the one given when there is none. */
    method Deduplicate(value: Value<K>) returns (shared: Value<K>)
      requires Valid()
      modifies this`size, this`entryMap, this`entryList, this`values, this`evicted, this`repr, repr
      ensures Valid() && System(View(), size) == old(System(View(), size)).Step(Event.Deduplicate(value))
      ensures shared == old(System(View(), size)).Returned(value)
      ensures fresh(repr - old(repr))
    {
      ghost var after := System(View(), size).Step(Event.Deduplicate(value));
      Prepare();
      assert after == System(View().Find(value, size), size);
      shared := Find(value);
    }

    method Prepare()
      requires Valid()
      modifies this`size, this`entryMap, this`entryList, this`values, this`evicted
      ensures Valid() && size == old(System(View(), size)).Init().size && View() == old(View()).Resize(size)
    {
      Init();
      Resize();
    }

    method Flush()
      requires Valid()
      modifies this`entryMap, this`entryList, this`values, this`evicted, this`size
      ensures Valid() && System(View(), size) == old(System(View(), size)).Step(Event.Flush)
    {
      Init();
      var kept := size;
      size := 0;
      Resize();
      size := kept;
    }
  }

  lemma PushBackAgrees<K>(entryMap: map<K, ListElement<K>>, entryList: seq<ListElement<K>>, values: seq<Value<K>>,
                          repr: set<ListElement<K>>, e: ListElement<K>)
    requires Agree(entryMap, entryList, values, repr) && e.value.key !in entryMap && e in repr
    ensures Agree(entryMap[e.value.key := e], entryList + [e], values + [e.value], repr)
  {
    var more := values + [e.value];
    forall key | key in entryMap[e.value.key := e]
      ensures IndexOf(more, key) < |more|
    {
      var i := if key == e.value.key then |values| else IndexOf(values, key);
      assert more[i].key == key;
    }
  }

  lemma OnePosition<K>(entryMap: map<K, ListElement<K>>, entryList: seq<ListElement<K>>, values: seq<Value<K>>,
                       repr: set<ListElement<K>>, i: nat, j: nat)
    requires Agree(entryMap, entryList, values, repr) && i < |values| && j < |values| && entryList[i] == entryList[j]
    ensures i == j
  {
    assert values[i] == values[j];
  }

  lemma MoveToBackAgrees<K>(entryMap: map<K, ListElement<K>>, entryList: seq<ListElement<K>>, values: seq<Value<K>>,
                            repr: set<ListElement<K>>, i: nat)
    requires Agree(entryMap, entryList, values, repr) && i < |values|
    ensures Agree(entryMap, Moved(entryList, i), Moved(values, i), repr)
  {
    MovedDistinct(values, i);
    MovedEntries(entryMap, entryList, values, repr, i);
    MovedKeys(entryMap, values, i);
  }

  lemma MovedEntries<K>(entryMap: map<K, ListElement<K>>, entryList: seq<ListElement<K>>, values: seq<Value<K>>,
                        repr: set<ListElement<K>>, i: nat)
    requires Agree(entryMap, entryList, values, repr) && i < |values|
    ensures forall j | 0 <= j < |values| :: EntryOk(entryMap, Moved(entryList, i)[j], Moved(values, i)[j], repr)
  {
    var list, moved := Moved(entryList, i), Moved(values, i);
    forall j | 0 <= j < |moved|
      ensures EntryOk(entryMap, list[j], moved[j], repr)
    {
      var from := Origin(i, j, |moved|);
      assert EntryOk(entryMap, entryList[from], values[from], repr);
    }
  }

  lemma MovedKeys<K>(entryMap: map<K, ListElement<K>>, values: seq<Value<K>>, i: nat)
    requires i < |values| && forall key | key in entryMap :: IndexOf(values, key) < |values|
    ensures forall key | key in entryMap :: IndexOf(Moved(values, i), key) < |values|
  {
    forall key | key in entryMap
      ensures IndexOf(Moved(values, i), key) < |values|
    {
      var k := MovedTo(values, i, IndexOf(values, key));
    }
  }

  lemma ResizeAfterDrop<K>(c: Cache<K>, size: int)
    requires 0 <= size < |c.values|
    ensures c.DropOldest().Resize(size) == c.Resize(size)
  {
    var n := Excess(|c.values|, size);
    assert c.values[..n] == [c.values[0]] + c.values[1..][..n - 1];
    assert c.values[n..] == c.values[1..][n - 1..];
  }

  lemma RemoveOldestAgrees<K>(entryMap: map<K, ListElement<K>>, entryList: seq<ListElement<K>>, values: seq<Value<K>>,
                              repr: set<ListElement<K>>)
    requires Agree(entryMap, entryList, values, repr) && values != []
    ensures EntryOk(entryMap, entryList[0], values[0], repr) && entryList[0] !in entryList[1..]
    ensures Agree(entryMap - {values[0].key}, entryList[1..], values[1..], repr)
  {
    assert EntryOk(entryMap, entryList[0], values[0], repr);
    var entryMap', list, rest := entryMap - {values[0].key}, entryList[1..], values[1..];
    forall i | 0 <= i < |rest|
      ensures list[i] != entryList[0] && EntryOk(entryMap', list[i], rest[i], repr)
    {
      assert EntryOk(entryMap, entryList[i + 1], values[i + 1], repr);
    }
    forall key | key in entryMap'
      ensures IndexOf(rest, key) < |rest|
    {
      var i := IndexOf(values, key);
      assert rest[i - 1].key == key;
    }
  }
}
