/** The persistent index of accepted containers, which must look like an append-only log across crashes. */
module AcceptanceIndex {
  import opened Ids
  import opened UInt64

  const MAX_FETCHED_BY_RANGE := 1024

  datatype Container = Container(id: int, bytes: seq<byte>, timestamp: int)

  /** The three key spaces: the next index, the index-to-container and the container-to-index database. */
  datatype Key = NextIndexKey | IndexKey(packed: seq<byte>) | ContainerKey(id: int)

  datatype Value = Packed(bytes: seq<byte>) | Stored(container: Container)

  type DB = map<Key, Value>

  datatype Error = NotFound | NoneAccepted | NoContainerAtIndex | NumToFetchInvalid | StartTooHigh | Malformed

  /** A container whose fields are all zero. */
  const EMPTY_CONTAINER := Container(0, [], 0)

  datatype Result<T> = Ok(value: T) | Err(error: Error)

  // ---------- The log that a database represents ----------

  ghost predicate DistinctIDs(log: seq<Container>) {
    forall i, j | 0 <= i < j < |log| :: log[i].id != log[j].id
  }

  /** The stored next index is the length of the log; none is stored before the first container. */
  predicate NextIndexIs(db: DB, n: uint64) {
    if n == 0 then NextIndexKey !in db || db[NextIndexKey] == Packed(PackUInt64(0))
    else NextIndexKey in db && db[NextIndexKey] == Packed(PackUInt64(n))
  }

  /** What newIndex reads as the next index: 0 if there is none, and an error if it is not eight bytes. */
  function StoredNextIndex(db: DB): Result<uint64> {
    if NextIndexKey !in db then Ok(0)
    else
      match db[NextIndexKey]
      case Packed(bytes) =>
        var n := ParseUInt64(bytes);
        if n.Some? then Ok(n.value) else Err(Malformed)
      case Stored(_) => Err(Malformed)
  }

  lemma StoredNextIndexIs(db: DB, n: uint64)
    requires NextIndexIs(db, n)
    ensures StoredNextIndex(db) == Ok(n)
  {
    PackRoundTrip(n);
  }

  /** Lookups by index and by ID agree with the log, in both directions. */
  ghost predicate Represents(db: DB, log: seq<Container>) {
    && |log| < TWO_64 && DistinctIDs(log)
    && NextIndexIs(db, |log|)
    && (forall i | 0 <= i < |log| :: Has(db, IndexKey(PackUInt64(i)), Stored(log[i])))
    && (forall i | 0 <= i < |log| :: Has(db, ContainerKey(log[i].id), Packed(PackUInt64(i))))
    && (forall id | ContainerKey(id) in db :: exists i :: 0 <= i < |log| && log[i].id == id)
  }

  predicate Has(db: DB, k: Key, v: Value) {
    k in db && db[k] == v
  }

  function Appended(db: DB, n: uint64, c: Container): DB
    requires n < TWO_64 - 1
  {
    db[IndexKey(PackUInt64(n)) := Stored(c)][ContainerKey(c.id) := Packed(PackUInt64(n))]
      [NextIndexKey := Packed(PackUInt64(n + 1))]
  }

  lemma MergeIsAppended(db: DB, n: uint64, c: Container, mem: DB)
    requires n < TWO_64 - 1
    requires mem == map[IndexKey(PackUInt64(n)) := Stored(c), ContainerKey(c.id) := Packed(PackUInt64(n)),
                        NextIndexKey := Packed(PackUInt64(n + 1))]
    ensures db + mem == Appended(db, n, c)
  {
  }

  lemma AppendedLookups(db: DB, log: seq<Container>, c: Container, i: nat)
    requires Represents(db, log) && |log| < TWO_64 - 1 && ContainerKey(c.id) !in db && i <= |log|
    ensures var db', log' := Appended(db, |log|, c), log + [c];
            Has(db', IndexKey(PackUInt64(i)), Stored(log'[i])) && Has(db', ContainerKey(log'[i].id), Packed(PackUInt64(i)))
  {
    if i < |log| {
      assert Has(db, IndexKey(PackUInt64(i)), Stored(log[i]));
      assert Has(db, ContainerKey(log[i].id), Packed(PackUInt64(i)));
      if PackUInt64(i) == PackUInt64(|log|) {
        PackInjective(i, |log|);
      }
    }
  }

  lemma AppendedIDs(db: DB, log: seq<Container>, c: Container)
    requires Represents(db, log) && |log| < TWO_64 - 1 && ContainerKey(c.id) !in db
    ensures DistinctIDs(log + [c])
    ensures forall id | ContainerKey(id) in Appended(db, |log|, c) :: exists i :: 0 <= i < |log + [c]| && (log + [c])[i].id == id
  {
    var log' := log + [c];
    forall i | 0 <= i < |log| ensures log[i].id != c.id {
      assert Has(db, ContainerKey(log[i].id), Packed(PackUInt64(i)));
    }
    forall id | ContainerKey(id) in Appended(db, |log|, c) ensures exists i :: 0 <= i < |log'| && log'[i].id == id {
      if id == c.id {
        assert log'[|log|].id == id;
      } else {
        var i :| 0 <= i < |log| && log[i].id == id;
        assert log'[i].id == id;
      }
    }
  }

  /** Storing the next container makes the database represent the longer log. */
  lemma AppendedRepresents(db: DB, log: seq<Container>, c: Container)
    requires Represents(db, log) && |log| < TWO_64 - 1 && ContainerKey(c.id) !in db
    ensures Represents(Appended(db, |log|, c), log + [c])
  {
    AppendedIDs(db, log, c);
    forall i | 0 <= i < |log + [c]|
      ensures Has(Appended(db, |log|, c), IndexKey(PackUInt64(i)), Stored((log + [c])[i]))
      ensures Has(Appended(db, |log|, c), ContainerKey((log + [c])[i].id), Packed(PackUInt64(i)))
    {
      AppendedLookups(db, log, c, i);
    }
  }

  // ---------- The index ----------

  /** Where a crash interrupts Accept: after so many writes to the uncommitted layer, or just after the commit. */
  datatype Crash = NoCrash | AfterWrites(n: nat) | AfterCommit {
    /** Does the crash come before the commit?  There are three writes. */
    predicate Uncommitted() {
      AfterWrites? && n <= 3
    }
  }

  class Index {
    var nextAcceptedIndex: uint64
    /** versiondb: uncommitted writes over the database that survives a crash. */
    var mem: DB
    var base: DB
    ghost var log: seq<Container>

    ghost predicate Valid()
      reads this
    {
      mem == map[] && nextAcceptedIndex == |log| && Represents(base, log)
    }

    constructor (base: DB, nextAcceptedIndex: uint64, ghost log: seq<Container>)
      ensures this.base == base && mem == map[] && this.nextAcceptedIndex == nextAcceptedIndex && this.log == log
    {
      this.base, mem, this.nextAcceptedIndex, this.log := base, map[], nextAcceptedIndex, log;
    }

    function Get(k: Key): Option<Value>
      reads this
    {
      if k in mem then Some(mem[k]) else if k in base then Some(base[k]) else None
    }

    method Put(k: Key, v: Value)
      modifies this`mem
      ensures mem == old(mem)[k := v]
    {
      mem := mem[k := v];
    }

    /** Accept, possibly interrupted by a crash that loses the object and what it did not commit. */
    method Accept(c: Container, crash: Crash) returns (crashed: bool)
      requires Valid()
      modifies this
      ensures crashed <==> !old(Contains(log, c.id)) && (crash.AfterCommit? || crash.Uncommitted())
      ensures old(|log|) < TWO_64 - 1 ==> log == old(LogAfterAccept(log, c, crash)) && Represents(base, log)
      ensures old(|log|) < TWO_64 - 1 && !crashed ==> Valid()
    {
      if Get(ContainerKey(c.id)).Some? {
        KnownContainer(base, log, c.id);
        return false;
      }
      UnknownContainer(base, log, c.id);
      if |log| < TWO_64 - 1 {
        AppendedRepresents(base, log, c);
      }
      crashed := Append(c, crash);
    }

    /** The writes of Accept for a container that is not indexed yet. */
    method Append(c: Container, crash: Crash) returns (crashed: bool)
      requires mem == map[] && nextAcceptedIndex == |log|
      modifies this
      ensures crashed <==> crash.AfterCommit? || crash.Uncommitted()
      ensures crash.Uncommitted() ==> base == old(base) && log == old(log)
      ensures !crash.Uncommitted() ==> log == old(log) + [c]
      ensures !crash.Uncommitted() && old(|log|) < TWO_64 - 1 ==>
                base == Appended(old(base), old(|log|), c) && mem == map[] && nextAcceptedIndex == |log|
    {
      if crash == AfterWrites(0) {
        return true;
      }
      var packed := PackUInt64(nextAcceptedIndex);
      Put(IndexKey(packed), Stored(c));
      if crash == AfterWrites(1) {
        return true;
      }
      Put(ContainerKey(c.id), Packed(packed));
      if crash == AfterWrites(2) {
        return true;
      }
      nextAcceptedIndex := Add64(nextAcceptedIndex, 1);
      Put(NextIndexKey, Packed(PackUInt64(nextAcceptedIndex)));
      if crash == AfterWrites(3) {
        return true;
      }
      if old(|log|) < TWO_64 - 1 {
        MergeIsAppended(base, old(|log|), c, mem);
      }
      Commit();
      log := log + [c];
      return crash == AfterCommit;
    }

    /** Writes the uncommitted layer to the database, atomically. */
    method Commit()
      modifies this`base, this`mem
      ensures base == old(base) + old(mem) && mem == map[]
    {
      base, mem := base + mem, map[];
    }

    // ---------- Lookups ----------

    /** The index of the last container, which wraps around before the first, and whether there is one. */
    function LastAcceptedIndex(): (uint64, bool)
      reads this
    {
      (Sub64(nextAcceptedIndex, 1), nextAcceptedIndex != 0)
    }

    method GetContainerByIndexBytes(packed: seq<byte>) returns (r: Result<Container>)
      ensures Get(IndexKey(packed)).None? ==> r == Err(NotFound)
      ensures forall c | Get(IndexKey(packed)) == Some(Stored(c)) :: r == Ok(c)
    {
      match Get(IndexKey(packed))
      case None => return Err(NotFound);
      case Some(Packed(_)) => return Err(Malformed);
      case Some(Stored(c)) => return Ok(c);
    }

    method GetContainerByIndex(index: uint64) returns (r: Result<Container>)
      requires Valid()
      ensures r == if index < |log| then Ok(log[index]) else Err(NoContainerAtIndex)
    {
      var (last, ok) := LastAcceptedIndex();
      if !ok || index > last {
        return Err(NoContainerAtIndex);
      }
      assert Has(base, IndexKey(PackUInt64(index)), Stored(log[index]));
      r := GetContainerByIndexBytes(PackUInt64(index));
    }

    /** What the range is, except when its end does not fit into a uint64: then the source allocates the slice
        but fills in nothing. */
    method GetContainerRange(startIndex: uint64, numToFetch: uint64) returns (r: Result<seq<Container>>)
      requires Valid()
      ensures r == RangeResult(log, startIndex, numToFetch)
      ensures r == Err(NumToFetchInvalid) <==> numToFetch == 0 || numToFetch > MAX_FETCHED_BY_RANGE
      ensures r == Err(NoneAccepted) <==> 1 <= numToFetch <= MAX_FETCHED_BY_RANGE && log == []
      ensures r == Err(StartTooHigh) <==> 1 <= numToFetch <= MAX_FETCHED_BY_RANGE && 0 < |log| <= startIndex
      ensures r.Ok? <==> 1 <= numToFetch <= MAX_FETCHED_BY_RANGE && startIndex < |log|
    {
      if numToFetch == 0 || numToFetch > MAX_FETCHED_BY_RANGE {
        return Err(NumToFetchInvalid);
      }
      var (last, ok) := LastAcceptedIndex();
      if !ok {
        return Err(NoneAccepted);
      }
      if startIndex > last {
        return Err(StartTooHigh);
      }
      var end := Sub64(Add64(startIndex, numToFetch), 1);
      var lastIndex := if end < last then end else last;
      RangeLength(|log|, startIndex, numToFetch, lastIndex);
      var length := WrapInt(ToInt(lastIndex) - ToInt(startIndex) + 1);
      r := Fetch(startIndex, lastIndex, length);
    }

    /** The loop of GetContainerRange, over a slice of `length` zero containers. */
    method Fetch(startIndex: uint64, lastIndex: uint64, length: nat) returns (r: Result<seq<Container>>)
      requires Valid() && lastIndex < |log| && (startIndex <= lastIndex ==> length == lastIndex - startIndex + 1)
      ensures startIndex <= lastIndex ==> r == Ok(log[startIndex..lastIndex + 1])
      ensures startIndex > lastIndex ==> r == Ok(Zeros(length))
    {
      var containers := Zeros(length);
      var n, j := 0, startIndex;
      while j <= lastIndex
        invariant startIndex <= lastIndex ==> j <= lastIndex + 1 && n == j - startIndex && |containers| == length
        invariant startIndex <= lastIndex ==> containers[..n] == log[startIndex..j]
        invariant startIndex > lastIndex ==> j == startIndex && containers == Zeros(length)
        decreases lastIndex + 1 - j
      {
        var container := GetContainerByIndex(j);
        match container {
          case Err(e) => return Err(e);
          case Ok(c) =>
            assert containers[n := c][..n + 1] == containers[..n] + [c];
            containers := containers[n := c];
        }
        n, j := n + 1, j + 1;
      }
      assert startIndex <= lastIndex ==> containers[..n] == containers;
      return Ok(containers);
    }

    /** The position of a container in the log. */
    method GetIndex(id: int) returns (r: Result<uint64>)
      requires Valid()
      ensures r.Ok? ==> r.value < |log| && log[r.value].id == id
      ensures r.Err? ==> r.error == NotFound && !Contains(log, id)
    {
      match Get(ContainerKey(id))
      case None =>
        UnknownContainer(base, log, id);
        return Err(NotFound);
      case Some(v) =>
        ghost var i :| 0 <= i < |log| && log[i].id == id;
        assert Has(base, ContainerKey(log[i].id), Packed(PackUInt64(i)));
        PackRoundTrip(i);
        return Ok(ParseUInt64(v.bytes).value);
    }

    method GetContainerByID(id: int) returns (r: Result<Container>)
      requires Valid()
      ensures r.Ok? ==> r.value in log && r.value.id == id
      ensures r.Err? ==> r.error == NotFound && !Contains(log, id)
    {
      match Get(ContainerKey(id))
      case None =>
        UnknownContainer(base, log, id);
        return Err(NotFound);
      case Some(v) =>
        ghost var i :| 0 <= i < |log| && log[i].id == id;
        assert Has(base, ContainerKey(log[i].id), Packed(PackUInt64(i)));
        assert Has(base, IndexKey(PackUInt64(i)), Stored(log[i]));
        r := GetContainerByIndexBytes(v.bytes);
    }

    method GetLastAccepted() returns (r: Result<Container>)
      requires Valid()
      ensures r == if log == [] then Err(NoneAccepted) else Ok(log[|log| - 1])
    {
      var (last, exists_) := LastAcceptedIndex();
      if !exists_ {
        return Err(NoneAccepted);
      }
      r := GetContainerByIndex(last);
    }
  }

  // ---------- Opening a database ----------

  /** newIndex: fails exactly when the stored next index cannot be parsed, and on a database that an earlier run
      left takes up its log. */
  method NewIndex(base: DB, ghost log: seq<Container>) returns (r: Result<Index>)
    ensures r.Err? <==> NextIndexKey in base && (base[NextIndexKey].Stored? || |base[NextIndexKey].bytes| != 8)
    ensures r.Err? ==> r.error == Malformed
    ensures r.Ok? ==> fresh(r.value) && r.value.base == base
    ensures Represents(base, log) ==> r.Ok? && r.value.Valid() && r.value.log == log
  {
    assert Represents(base, log) ==> StoredNextIndex(base) == Ok(|log|) by {
      if Represents(base, log) {
        StoredNextIndexIs(base, |log|);
      }
    }
    match StoredNextIndex(base)
    case Err(e) => return Err(e);
    case Ok(n) =>
      var index := new Index(base, n, log);
      return Ok(index);
  }

  // ---------- Ranges ----------

  const TWO_63 := 0x8000_0000_0000_0000

  /** The conversion of a uint64 to a 64-bit int. */
  function ToInt(x: uint64): int {
    if x < TWO_63 then x else x - TWO_64
  }

  /** The 64-bit int that an int result wraps around to. */
  function WrapInt(x: int): int {
    var y := x % TWO_64;
    if y < TWO_63 then y else y - TWO_64
  }

  function Zeros(length: nat): seq<Container> {
    seq(length, _ => EMPTY_CONTAINER)
  }

  /** What GetContainerRange returns. */
  function RangeResult(log: seq<Container>, startIndex: uint64, numToFetch: uint64): Result<seq<Container>> {
    if numToFetch == 0 || numToFetch > MAX_FETCHED_BY_RANGE then Err(NumToFetchInvalid)
    else if log == [] then Err(NoneAccepted)
    else if startIndex >= |log| then Err(StartTooHigh)
    else if startIndex + numToFetch > TWO_64 then Ok(Zeros(numToFetch))
    else Ok(Slice(log, startIndex, numToFetch))
  }

  /** At most `numToFetch` containers from `startIndex` on, capped at the end of the log. */
  function Slice(log: seq<Container>, startIndex: nat, numToFetch: nat): seq<Container>
    requires startIndex < |log|
  {
    log[startIndex..if startIndex + numToFetch < |log| then startIndex + numToFetch else |log|]
  }

  /** The length that the source computes in 64-bit ints is that of the slice, or the requested number when the end
      of the range has wrapped around. */
  lemma RangeLength(n: nat, startIndex: uint64, numToFetch: uint64, lastIndex: uint64)
    requires startIndex < n < TWO_64 && 1 <= numToFetch <= MAX_FETCHED_BY_RANGE
    requires var end := Sub64(Add64(startIndex, numToFetch), 1); lastIndex == if end < n - 1 then end else n - 1
    ensures var length := WrapInt(ToInt(lastIndex) - ToInt(startIndex) + 1);
            if startIndex + numToFetch > TWO_64 then
              lastIndex < startIndex && length == numToFetch
            else
              && startIndex <= lastIndex && length == lastIndex - startIndex + 1
              && lastIndex + 1 == if startIndex + numToFetch < n then startIndex + numToFetch else n
  {
    if startIndex + numToFetch > TWO_64 {
      assert Add64(startIndex, numToFetch) == startIndex + numToFetch - TWO_64;
    } else if startIndex + numToFetch == TWO_64 {
      assert Sub64(Add64(startIndex, numToFetch), 1) == TWO_64 - 1;
    } else {
      assert Sub64(Add64(startIndex, numToFetch), 1) == startIndex + numToFetch - 1;
    }
    var difference := lastIndex - startIndex + 1;
    assert ToInt(lastIndex) - ToInt(startIndex) + 1 == difference
        || ToInt(lastIndex) - ToInt(startIndex) + 1 == difference + TWO_64
        || ToInt(lastIndex) - ToInt(startIndex) + 1 == difference - TWO_64;
  }

  /** A valid request within the log is answered by its slice if and only if the end of the range fits into a uint64. */
  lemma RangeIsSlice(log: seq<Container>, startIndex: uint64, numToFetch: uint64)
    requires 1 <= numToFetch <= MAX_FETCHED_BY_RANGE && startIndex < |log| < TWO_64
    ensures RangeResult(log, startIndex, numToFetch) == Ok(Slice(log, startIndex, numToFetch)) <==>
            startIndex + numToFetch <= TWO_64
  {
    if startIndex + numToFetch > TWO_64 {
      assert |Slice(log, startIndex, numToFetch)| < |Zeros(numToFetch)|;
    }
  }

  /** The log of as many containers with the IDs from 0 on, and the history that makes it. */
  function Numbered(n: nat): seq<Container> {
    seq(n, i => Container(i, [], 0))
  }

  function Numbering(n: nat): seq<Acceptance> {
    seq(n, i => Acceptance(Container(i, [], 0), NoCrash))
  }

  lemma {:induction false} NumberedIsReached(n: nat)
    ensures LogAfter([], Numbering(n)) == Numbered(n)
  {
    if n > 0 {
      NumberedIsReached(n - 1);
      assert Numbering(n)[..n - 1] == Numbering(n - 1);
      assert Numbered(n) == Numbered(n - 1) + [Container(n - 1, [], 0)];
      assert !Contains(Numbered(n - 1), n - 1);
    }
  }

  /** The longest log there is, and a range of three from its last container: three zero containers are returned
      where the log has one. */
  lemma RangeReturnsZeros()
    ensures var log := Numbered(TWO_64 - 1);
            && LogAfter([], Numbering(TWO_64 - 1)) == log
            && RangeResult(log, TWO_64 - 2, 3) == Ok([EMPTY_CONTAINER, EMPTY_CONTAINER, EMPTY_CONTAINER])
            && Slice(log, TWO_64 - 2, 3) == [Container(TWO_64 - 2, [], 0)]
  {
    NumberedIsReached(TWO_64 - 1);
    assert Zeros(3) == [EMPTY_CONTAINER, EMPTY_CONTAINER, EMPTY_CONTAINER];
    assert Numbered(TWO_64 - 1)[TWO_64 - 2..] == [Container(TWO_64 - 2, [], 0)];
  }

  lemma KnownContainer(db: DB, log: seq<Container>, id: int)
    requires Represents(db, log) && ContainerKey(id) in db
    ensures Contains(log, id)
  {
  }

  lemma UnknownContainer(db: DB, log: seq<Container>, id: int)
    requires Represents(db, log) && ContainerKey(id) !in db
    ensures !Contains(log, id)
  {
    forall i | 0 <= i < |log| ensures log[i].id != id {
      assert Has(db, ContainerKey(log[i].id), Packed(PackUInt64(i)));
    }
  }

  ghost predicate Contains(log: seq<Container>, id: int) {
    exists i :: 0 <= i < |log| && log[i].id == id
  }

  /** The log after Accept: a container is appended once, unless a crash comes before the commit. */
  ghost function LogAfterAccept(log: seq<Container>, c: Container, crash: Crash): seq<Container> {
    if Contains(log, c.id) || crash.Uncommitted() then log else log + [c]
  }

  // ---------- Every history ----------

  datatype Acceptance = Acceptance(container: Container, crash: Crash)

  /** The log after a history of acceptances, crashes and restarts. */
  ghost function LogAfter(log: seq<Container>, history: seq<Acceptance>): seq<Container> {
    if history == [] then log else
    var last := history[|history| - 1];
    LogAfterAccept(LogAfter(log, history[..|history| - 1]), last.container, last.crash)
  }

  /** The log only grows, never holds an ID twice, holds every container whose Accept got through, and
      nothing that was not accepted. */
  lemma {:induction false} HistoryGrowsLog(log: seq<Container>, history: seq<Acceptance>)
    requires DistinctIDs(log)
    ensures log <= LogAfter(log, history) && |LogAfter(log, history)| <= |log| + |history|
    ensures DistinctIDs(LogAfter(log, history))
    ensures forall k | 0 <= k < |history| && !history[k].crash.AfterWrites? ::
              Contains(LogAfter(log, history), history[k].container.id)
    ensures forall c | c in LogAfter(log, history) :: c in log || exists k :: 0 <= k < |history| && history[k].container == c
  {
    if history != [] {
      var k := |history| - 1;
      HistoryGrowsLog(log, history[..k]);
      AcceptGrowsLog(LogAfter(log, history[..k]), history[k].container, history[k].crash);
      forall j | 0 <= j < |history| && !history[j].crash.AfterWrites?
        ensures Contains(LogAfter(log, history), history[j].container.id)
      {
        assert j < k ==> history[..k][j] == history[j];
      }
      forall c | c in LogAfter(log, history) && c !in log ensures exists j :: 0 <= j < |history| && history[j].container == c {
        if c in LogAfter(log, history[..k]) {
          var j :| 0 <= j < k && history[..k][j].container == c;
          assert history[j].container == c;
        } else {
          assert history[k].container == c;
        }
      }
    }
  }

  lemma AcceptGrowsLog(log: seq<Container>, c: Container, crash: Crash)
    requires DistinctIDs(log)
    ensures log <= LogAfterAccept(log, c, crash) && DistinctIDs(LogAfterAccept(log, c, crash))
    ensures !crash.AfterWrites? ==> Contains(LogAfterAccept(log, c, crash), c.id)
    ensures forall id | Contains(log, id) :: Contains(LogAfterAccept(log, c, crash), id)
  {
    var log' := LogAfterAccept(log, c, crash);
    forall id | Contains(log, id) ensures Contains(log', id) {
      var i :| 0 <= i < |log| && log[i].id == id;
      assert log'[i].id == id;
    }
    if !crash.AfterWrites? && !Contains(log, c.id) {
      assert log'[|log|].id == c.id;
    }
  }

  lemma OneMoreAcceptance(log: seq<Container>, history: seq<Acceptance>, k: nat)
    requires k < |history| && DistinctIDs(log)
    ensures |LogAfter(log, history[..k])| <= |log| + k
    ensures LogAfter(log, history[..k + 1]) ==
            LogAfterAccept(LogAfter(log, history[..k]), history[k].container, history[k].crash)
  {
    HistoryGrowsLog(log, history[..k]);
    assert history[..k + 1][..k] == history[..k];
  }

  /** Runs a history on a database, reopening the index after every crash: the database left behind
      represents the log of the history. */
  method RunHistory(base: DB, ghost log: seq<Container>, history: seq<Acceptance>) returns (base': DB)
    requires Represents(base, log) && |log| + |history| < TWO_64
    ensures Represents(base', LogAfter(log, history))
  {
    var result := NewIndex(base, log);
    var index := result.value;
    for k := 0 to |history|
      invariant fresh(index) && index.Valid() && index.log == LogAfter(log, history[..k])
    {
      OneMoreAcceptance(log, history, k);
      var crashed := index.Accept(history[k].container, history[k].crash);
      if crashed {
        result := NewIndex(index.base, index.log);
        index := result.value;
      }
    }
    assert history[..|history|] == history;
    return index.base;
  }
}
