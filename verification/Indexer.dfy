/** The indexer's flags across node runs: which chains have an index, and whether it may be incomplete. */
module Indexers {
  type ChainID = int

  /** What survives a run. */
  datatype Flags = Flags(hasRun: bool, incomplete: set<ChainID>, previouslyIndexed: set<ChainID>)

  datatype VM = DAGVM | ChainVM | OtherVM

  /** A database or helper call that fails while a chain is registered. */
  datatype Fault =
    | NoFault
    | ReadIncompleteFails | ReadPreviouslyIndexedFails
    | MarkIncompleteFails | MarkPreviouslyIndexedFails
    | BlockIndexFails | VertexIndexFails | TxIndexFails

  datatype Registration = Registration(chain: ChainID, isPrimary: bool, vm: VM, fault: Fault)

  datatype State = State(
    flags: Flags,
    closed: bool,
    hasRunBefore: bool,
    indexingEnabled: bool,
    allowIncompleteIndex: bool,
    blockIndices: set<ChainID>,
    vtxIndices: set<ChainID>,
    txIndices: set<ChainID>)
  {
    predicate IsIndexed(c: ChainID) {
      c in blockIndices || c in vtxIndices || c in txIndices
    }

    function Close(): State {
      this.(closed := true)
    }

    /** RegisterChain */
    function Register(r: Registration): State {
      if closed || !r.isPrimary || IsIndexed(r.chain) then this
      else if r.fault.ReadIncompleteFails? || r.fault.ReadPreviouslyIndexedFails? then Close()
      else if !indexingEnabled then RegisterDisabled(r)
      else RegisterEnabled(r)
    }

    /** Indexing is disabled: the index of the chain becomes incomplete, if that is allowed. */
    function RegisterDisabled(r: Registration): State {
      if r.chain in flags.previouslyIndexed && !allowIncompleteIndex then Close()
      else if r.fault.MarkIncompleteFails? then Close()
      else this.(flags := flags.(incomplete := flags.incomplete + {r.chain}))
    }

    /** Indexing is enabled: create the indices, if the old one is complete or need not be. */
    function RegisterEnabled(r: Registration): State {
      if !allowIncompleteIndex && r.chain in flags.incomplete && (r.chain in flags.previouslyIndexed || hasRunBefore) then
        Close()
      else if r.fault.MarkPreviouslyIndexedFails? then
        Close()
      else
        this.(flags := flags.(previouslyIndexed := flags.previouslyIndexed + {r.chain})).CreateIndices(r)
    }

    function CreateIndices(r: Registration): State {
      if r.fault.BlockIndexFails? then Close()
      else
        var s := this.(blockIndices := blockIndices + {r.chain});
        match r.vm
        case DAGVM =>
          if r.fault.VertexIndexFails? then s.Close()
          else if r.fault.TxIndexFails? then s.(vtxIndices := vtxIndices + {r.chain}).Close()
          else s.(vtxIndices := vtxIndices + {r.chain}, txIndices := txIndices + {r.chain})
        case ChainVM => s
        case OtherVM => s.Close()
    }
  }

  /** NewIndexer */
  function NewRun(flags: Flags, indexingEnabled: bool, allowIncompleteIndex: bool): State {
    State(flags.(hasRun := true), false, flags.hasRun, indexingEnabled, allowIncompleteIndex, {}, {}, {})
  }

  function RegisterAll(s: State, rs: seq<Registration>): State {
    if rs == [] then s else RegisterAll(s, rs[..|rs| - 1]).Register(rs[|rs| - 1])
  }

  // ---------- One run ----------

  ghost predicate Registers(rs: seq<Registration>, c: ChainID) {
    exists i :: 0 <= i < |rs| && rs[i].isPrimary && rs[i].chain == c
  }

  /** What no registration changes, and what it changes in one direction only. */
  ghost predicate Continues(s: State, t: State) {
    && t.hasRunBefore == s.hasRunBefore && t.indexingEnabled == s.indexingEnabled
    && t.allowIncompleteIndex == s.allowIncompleteIndex && t.flags.hasRun == s.flags.hasRun
    && s.flags.incomplete <= t.flags.incomplete && s.flags.previouslyIndexed <= t.flags.previouslyIndexed
    && s.blockIndices <= t.blockIndices
    && (s.indexingEnabled ==> t.flags.incomplete == s.flags.incomplete)
    && (!s.indexingEnabled ==> t.blockIndices == s.blockIndices)
    && (s.closed ==> t.closed)
  }

  lemma RegisterContinues(s: State, r: Registration)
    ensures Continues(s, s.Register(r))
  {
    if s.closed || !r.isPrimary || s.IsIndexed(r.chain) {
    } else if !s.indexingEnabled {
      assert Continues(s, s.RegisterDisabled(r));
    } else {
      assert Continues(s, s.RegisterEnabled(r));
    }
  }

  /** A run keeps its configuration, never clears a flag, and only marks chains incomplete if it does not index. */
  lemma {:induction false} RunKeepsFlags(s: State, rs: seq<Registration>)
    ensures Continues(s, RegisterAll(s, rs))
  {
    if rs != [] {
      RunKeepsFlags(s, rs[..|rs| - 1]);
      RegisterContinues(RegisterAll(s, rs[..|rs| - 1]), rs[|rs| - 1]);
    }
  }

  // ---------- One registration ----------

  /** The chains that a registration can concern: primary network chains without an index, while the indexer runs. */
  ghost predicate Concerns(s: State, r: Registration) {
    !s.closed && r.isPrimary && r.chain !in s.blockIndices && r.chain !in s.vtxIndices && r.chain !in s.txIndices
  }

  /** Indexing would leave a gap in an index that must be complete: one that exists, when indexing is off, or one that
      a run did not keep up, when it is on. */
  ghost predicate Refuses(s: State, c: ChainID) {
    && !s.allowIncompleteIndex
    && if s.indexingEnabled then c in s.flags.incomplete && (c in s.flags.previouslyIndexed || s.hasRunBefore)
       else c in s.flags.previouslyIndexed
  }

  ghost predicate ReadFails(r: Registration) {
    r.fault.ReadIncompleteFails? || r.fault.ReadPreviouslyIndexedFails?
  }

  /** With indexing off: the chain is marked incomplete, or the indexer closes. */
  lemma RegisterDisabledEffect(s: State, r: Registration)
    requires Concerns(s, r) && !s.indexingEnabled
    ensures var t := s.Register(r);
            && (t.closed <==> ReadFails(r) || Refuses(s, r.chain) || r.fault.MarkIncompleteFails?)
            && t.flags.incomplete == (if t.closed then s.flags.incomplete else s.flags.incomplete + {r.chain})
            && t.flags.previouslyIndexed == s.flags.previouslyIndexed
            && t.blockIndices == s.blockIndices && t.vtxIndices == s.vtxIndices && t.txIndices == s.txIndices
  {
  }

  /** With indexing on: the chain is marked previously indexed before its indices are created, one for blocks, and for
      a DAG also for vertices and transactions. */
  lemma RegisterEnabledEffect(s: State, r: Registration)
    requires Concerns(s, r) && s.indexingEnabled
    ensures var t := s.Register(r);
            var marks := !ReadFails(r) && !Refuses(s, r.chain) && !r.fault.MarkPreviouslyIndexedFails?;
            var blocks := marks && !r.fault.BlockIndexFails?;
            var vertices := blocks && r.vm.DAGVM? && !r.fault.VertexIndexFails?;
            var txs := vertices && !r.fault.TxIndexFails?;
            && t.flags.incomplete == s.flags.incomplete
            && t.flags.previouslyIndexed == (if marks then s.flags.previouslyIndexed + {r.chain} else s.flags.previouslyIndexed)
            && t.blockIndices == (if blocks then s.blockIndices + {r.chain} else s.blockIndices)
            && t.vtxIndices == (if vertices then s.vtxIndices + {r.chain} else s.vtxIndices)
            && t.txIndices == (if txs then s.txIndices + {r.chain} else s.txIndices)
            && (t.closed <==> !(blocks && (r.vm.ChainVM? || txs)))
  {
  }

  lemma RegisterIgnores(s: State, r: Registration)
    requires !Concerns(s, r)
    ensures s.Register(r) == s
  {
  }

  /** In a run that survives, every registered chain is indexed, or else marked incomplete. */
  lemma {:induction false} SurvivingRunHandles(s: State, rs: seq<Registration>, c: ChainID)
    requires !RegisterAll(s, rs).closed && Registers(rs, c)
    requires s.vtxIndices <= s.blockIndices && s.txIndices <= s.blockIndices
    ensures s.indexingEnabled ==> c in RegisterAll(s, rs).blockIndices
    ensures !s.indexingEnabled ==> c in RegisterAll(s, rs).flags.incomplete || c in s.blockIndices
  {
    var k := |rs| - 1;
    var before := RegisterAll(s, rs[..k]);
    RunKeepsFlags(s, rs[..k]);
    BlockIndexCoversAll(s, rs[..k]);
    if rs[k].isPrimary && rs[k].chain == c {
    } else {
      var i :| 0 <= i < |rs| && rs[i].isPrimary && rs[i].chain == c;
      assert rs[..k][i] == rs[i];
      SurvivingRunHandles(s, rs[..k], c);
    }
  }

  lemma {:induction false} BlockIndexCoversAll(s: State, rs: seq<Registration>)
    requires s.vtxIndices <= s.blockIndices && s.txIndices <= s.blockIndices
    ensures var t := RegisterAll(s, rs); t.vtxIndices <= t.blockIndices && t.txIndices <= t.blockIndices
  {
    if rs != [] {
      BlockIndexCoversAll(s, rs[..|rs| - 1]);
    }
  }

  /** A run that insists on complete indices indexes no chain that an earlier run left incomplete. */
  lemma {:induction false} StrictRunRefuses(s: State, rs: seq<Registration>, c: ChainID)
    requires s.indexingEnabled && !s.allowIncompleteIndex && s.hasRunBefore
    requires c in s.flags.incomplete && c !in s.blockIndices
    ensures c !in RegisterAll(s, rs).blockIndices
  {
    if rs != [] {
      RunKeepsFlags(s, rs[..|rs| - 1]);
      StrictRunRefuses(s, rs[..|rs| - 1], c);
    }
  }

  /** What a run adds to the incomplete chains, it did not index though it registered them. */
  lemma {:induction false} RunMarksOnlyRegistered(s: State, rs: seq<Registration>, c: ChainID)
    requires c in RegisterAll(s, rs).flags.incomplete && c !in s.flags.incomplete
    ensures !s.indexingEnabled && Registers(rs, c)
  {
    RunKeepsFlags(s, rs);
    if rs != [] {
      var k := |rs| - 1;
      RunKeepsFlags(s, rs[..k]);
      if c in RegisterAll(s, rs[..k]).flags.incomplete {
        RunMarksOnlyRegistered(s, rs[..k], c);
        var i :| 0 <= i < k && rs[..k][i].isPrimary && rs[..k][i].chain == c;
        assert rs[i].isPrimary && rs[i].chain == c;
      } else {
        assert rs[k].isPrimary && rs[k].chain == c;
      }
    }
  }

  // ---------- Every history of runs ----------

  datatype NodeRun = NodeRun(indexingEnabled: bool, allowIncompleteIndex: bool, registrations: seq<Registration>)

  /** The end of a run that starts with these flags. */
  function RunFrom(flags: Flags, run: NodeRun): State {
    RegisterAll(NewRun(flags, run.indexingEnabled, run.allowIncompleteIndex), run.registrations)
  }

  /** The flags before the k-th run on a fresh database. */
  function FlagsBefore(history: seq<NodeRun>, k: nat): Flags
    requires k <= |history|
  {
    if k == 0 then Flags(false, {}, {}) else RunFrom(FlagsBefore(history, k - 1), history[k - 1]).flags
  }

  function EndOf(history: seq<NodeRun>, k: nat): State
    requires k < |history|
  {
    RunFrom(FlagsBefore(history, k), history[k])
  }

  lemma {:induction false} FlagsStay(history: seq<NodeRun>, j: nat, k: nat)
    requires j < k <= |history|
    ensures FlagsBefore(history, k).hasRun
    ensures FlagsBefore(history, j + 1).incomplete <= FlagsBefore(history, k).incomplete
    decreases k
  {
    var run := history[k - 1];
    RunKeepsFlags(NewRun(FlagsBefore(history, k - 1), run.indexingEnabled, run.allowIncompleteIndex), run.registrations);
    if j < k - 1 {
      FlagsStay(history, j, k - 1);
    }
  }

  /** Every run but the first knows that there was one before. */
  lemma {:induction false} RunsAreCounted(history: seq<NodeRun>, k: nat)
    requires k < |history|
    ensures FlagsBefore(history, k).hasRun <==> k > 0
    ensures EndOf(history, k).hasRunBefore <==> k > 0
  {
    var run := history[k];
    if k > 0 {
      FlagsStay(history, k - 1, k);
    }
    RunKeepsFlags(NewRun(FlagsBefore(history, k), run.indexingEnabled, run.allowIncompleteIndex), run.registrations);
  }

  /** If a run that insists on complete indices indexes a chain, then every earlier run that registered
      the chain and was not shut down indexed it too. */
  lemma IndexIsComplete(history: seq<NodeRun>, j: nat, k: nat, c: ChainID)
    requires j < k < |history|
    requires !history[k].allowIncompleteIndex && c in EndOf(history, k).blockIndices
    requires Registers(history[j].registrations, c) && !EndOf(history, j).closed
    ensures c in EndOf(history, j).blockIndices
  {
    var run, flags := history[j], FlagsBefore(history, j);
    SurvivingRunHandles(NewRun(flags, run.indexingEnabled, run.allowIncompleteIndex), run.registrations, c);
    if !run.indexingEnabled {
      FlagsStay(history, j, k);
      var strict := NewRun(FlagsBefore(history, k), history[k].indexingEnabled, false);
      RunKeepsFlags(strict, history[k].registrations);
      StrictRunRefuses(strict, history[k].registrations, c);
    }
  }

  /** A chain is only ever taken for incomplete because some earlier run registered it without indexing. */
  lemma {:induction false} IncompleteHasCause(history: seq<NodeRun>, k: nat, c: ChainID)
    requires k <= |history| && c in FlagsBefore(history, k).incomplete
    ensures exists j :: 0 <= j < k && !history[j].indexingEnabled && Registers(history[j].registrations, c)
  {
    if k > 0 {
      if c in FlagsBefore(history, k - 1).incomplete {
        IncompleteHasCause(history, k - 1, c);
      } else {
        var run := history[k - 1];
        RunMarksOnlyRegistered(NewRun(FlagsBefore(history, k - 1), run.indexingEnabled, run.allowIncompleteIndex), run.registrations, c);
      }
    }
  }

  // ---------- An index that exists ----------

  /** A chain that a run indexes is marked previously indexed. */
  lemma {:induction false} IndexedIsMarked(s: State, rs: seq<Registration>, c: ChainID)
    requires c in RegisterAll(s, rs).blockIndices && c !in s.blockIndices
    ensures c in RegisterAll(s, rs).flags.previouslyIndexed
  {
    if rs != [] {
      var before, r := RegisterAll(s, rs[..|rs| - 1]), rs[|rs| - 1];
      RegisterContinues(before, r);
      if c in before.blockIndices {
        IndexedIsMarked(s, rs[..|rs| - 1], c);
      } else if Concerns(before, r) {
        if before.indexingEnabled {
          RegisterEnabledEffect(before, r);
        } else {
          RegisterDisabledEffect(before, r);
        }
      } else {
        RegisterIgnores(before, r);
      }
    }
  }

  /** A run without indexing that insists on complete indices closes when it meets a chain with an index, and never
      marks it incomplete. */
  lemma {:induction false} StrictRunSpares(s: State, rs: seq<Registration>, c: ChainID)
    requires !s.indexingEnabled && !s.allowIncompleteIndex && c in s.flags.previouslyIndexed
    requires c !in s.blockIndices && c !in s.vtxIndices && c !in s.txIndices
    ensures c in RegisterAll(s, rs).flags.incomplete ==> c in s.flags.incomplete
    ensures Registers(rs, c) ==> RegisterAll(s, rs).closed
    ensures c !in RegisterAll(s, rs).vtxIndices && c !in RegisterAll(s, rs).txIndices
  {
    if rs != [] {
      var k := |rs| - 1;
      var before, r := RegisterAll(s, rs[..k]), rs[k];
      StrictRunSpares(s, rs[..k], c);
      RunKeepsFlags(s, rs[..k]);
      RegisterContinues(before, r);
      if Registers(rs, c) && !(r.isPrimary && r.chain == c) {
        var i :| 0 <= i < |rs| && rs[i].isPrimary && rs[i].chain == c;
        assert rs[..k][i] == rs[i];
      }
      if Concerns(before, r) {
        RegisterDisabledEffect(before, r);
      } else {
        RegisterIgnores(before, r);
      }
    }
  }

  lemma {:induction false} MarksStay(history: seq<NodeRun>, j: nat, k: nat)
    requires j <= k <= |history|
    ensures FlagsBefore(history, j).previouslyIndexed <= FlagsBefore(history, k).previouslyIndexed
    decreases k
  {
    if j < k {
      var run := history[k - 1];
      RunKeepsFlags(NewRun(FlagsBefore(history, k - 1), run.indexingEnabled, run.allowIncompleteIndex), run.registrations);
      MarksStay(history, j, k - 1);
    }
  }

  lemma ExistingIsMarked(history: seq<NodeRun>, j: nat, k: nat, c: ChainID)
    requires j < k <= |history| && c in EndOf(history, j).blockIndices
    ensures c in FlagsBefore(history, k).previouslyIndexed
  {
    var run, flags := history[j], FlagsBefore(history, j);
    IndexedIsMarked(NewRun(flags, run.indexingEnabled, run.allowIncompleteIndex), run.registrations, c);
    assert c in EndOf(history, j).flags.previouslyIndexed;
    MarksStay(history, j + 1, k);
  }

  /** An index that some run created is not left incomplete by a later run that disallows incomplete indices: if that
      run registers the chain without indexing, it closes, and in any case it does not mark the chain incomplete. */
  lemma ExistingIndexIsSpared(history: seq<NodeRun>, j: nat, k: nat, c: ChainID)
    requires j < k < |history| && c in EndOf(history, j).blockIndices
    requires !history[k].allowIncompleteIndex
    ensures !history[k].indexingEnabled && Registers(history[k].registrations, c) ==> EndOf(history, k).closed
    ensures c in EndOf(history, k).flags.incomplete ==> c in FlagsBefore(history, k).incomplete
  {
    ExistingIsMarked(history, j, k, c);
    var strict := NewRun(FlagsBefore(history, k), history[k].indexingEnabled, false);
    if history[k].indexingEnabled {
      RunKeepsFlags(strict, history[k].registrations);
    } else {
      StrictRunSpares(strict, history[k].registrations, c);
    }
  }

  /** A chain is only ever taken for previously indexed because some earlier run registered it with indexing on. */
  lemma {:induction false} RunMarksOnlyIndexed(s: State, rs: seq<Registration>, c: ChainID)
    requires c in RegisterAll(s, rs).flags.previouslyIndexed && c !in s.flags.previouslyIndexed
    ensures s.indexingEnabled && Registers(rs, c)
  {
    if rs != [] {
      var k := |rs| - 1;
      var before, r := RegisterAll(s, rs[..k]), rs[k];
      RunKeepsFlags(s, rs[..k]);
      if c in before.flags.previouslyIndexed {
        RunMarksOnlyIndexed(s, rs[..k], c);
        var i :| 0 <= i < k && rs[..k][i].isPrimary && rs[..k][i].chain == c;
        assert rs[i].isPrimary && rs[i].chain == c;
      } else {
        if !Concerns(before, r) {
          RegisterIgnores(before, r);
        } else if !before.indexingEnabled {
          RegisterDisabledEffect(before, r);
        } else {
          RegisterEnabledEffect(before, r);
        }
        assert rs[k].isPrimary && rs[k].chain == c;
      }
    }
  }

  lemma {:induction false} PreviouslyIndexedHasCause(history: seq<NodeRun>, k: nat, c: ChainID)
    requires k <= |history| && c in FlagsBefore(history, k).previouslyIndexed
    ensures exists j :: 0 <= j < k && history[j].indexingEnabled && Registers(history[j].registrations, c)
  {
    if k > 0 {
      if c in FlagsBefore(history, k - 1).previouslyIndexed {
        PreviouslyIndexedHasCause(history, k - 1, c);
      } else {
        var run := history[k - 1];
        RunMarksOnlyIndexed(NewRun(FlagsBefore(history, k - 1), run.indexingEnabled, run.allowIncompleteIndex), run.registrations, c);
      }
    }
  }

  // ---------- Which indices exist ----------

  /** Every chain is always registered with the same VM. */
  ghost predicate VMsAre(rs: seq<Registration>, vmOf: ChainID -> VM) {
    forall i | 0 <= i < |rs| :: rs[i].vm == vmOf(rs[i].chain)
  }

  /** Unless it closed, a run with indexing has a block index for exactly the primary network chains registered, and
      vertex and transaction indices for exactly the DAGs among them. */
  ghost predicate IndicesExact(t: State, rs: seq<Registration>, vmOf: ChainID -> VM, c: ChainID) {
    && (c in t.blockIndices <==> Registers(rs, c))
    && (c in t.vtxIndices <==> Registers(rs, c) && vmOf(c).DAGVM?)
    && (c in t.txIndices <==> Registers(rs, c) && vmOf(c).DAGVM?)
  }

  lemma RegistersOneMore(rs: seq<Registration>, c: ChainID)
    requires rs != []
    ensures Registers(rs, c) <==> Registers(rs[..|rs| - 1], c) || (rs[|rs| - 1].isPrimary && rs[|rs| - 1].chain == c)
  {
    var k := |rs| - 1;
    if Registers(rs[..k], c) {
      var i :| 0 <= i < k && rs[..k][i].isPrimary && rs[..k][i].chain == c;
      assert rs[i].isPrimary && rs[i].chain == c;
    }
    if Registers(rs, c) {
      var i :| 0 <= i < |rs| && rs[i].isPrimary && rs[i].chain == c;
      assert i < k ==> rs[..k][i].isPrimary && rs[..k][i].chain == c;
    }
  }

  lemma {:induction false} SurvivingRunIndices(flags: Flags, allowIncompleteIndex: bool, rs: seq<Registration>,
                                               vmOf: ChainID -> VM, c: ChainID)
    requires VMsAre(rs, vmOf) && !RegisterAll(NewRun(flags, true, allowIncompleteIndex), rs).closed
    ensures IndicesExact(RegisterAll(NewRun(flags, true, allowIncompleteIndex), rs), rs, vmOf, c)
  {
    var start := NewRun(flags, true, allowIncompleteIndex);
    if rs != [] {
      var k := |rs| - 1;
      var before, r := RegisterAll(start, rs[..k]), rs[k];
      RunKeepsFlags(start, rs[..k]);
      RegisterContinues(before, r);
      SurvivingRunIndices(flags, allowIncompleteIndex, rs[..k], vmOf, c);
      RegistersOneMore(rs, c);
      assert r.vm == vmOf(r.chain);
      if Concerns(before, r) {
        RegisterEnabledEffect(before, r);
      } else {
        RegisterIgnores(before, r);
        SurvivingRunIndices(flags, allowIncompleteIndex, rs[..k], vmOf, r.chain);
      }
    }
  }

  // ---------- The indexer as it is written ----------

  /** Flags are keys without a value. */
  datatype Key = HasRunKey | IncompleteKey(chain: ChainID) | PreviouslyIndexedKey(chain: ChainID)

  class Indexer {
    var db: set<Key>
    var closed: bool
    const hasRunBefore: bool
    const indexingEnabled: bool
    const allowIncompleteIndex: bool
    var blockIndices: set<ChainID>
    var vtxIndices: set<ChainID>
    var txIndices: set<ChainID>
    ghost var flags: Flags

    ghost function View(): State
      reads this
    {
      State(flags, closed, hasRunBefore, indexingEnabled, allowIncompleteIndex, blockIndices, vtxIndices, txIndices)
    }

    ghost predicate Valid()
      reads this
    {
      Stores(db, flags)
    }

    constructor (db: set<Key>, ghost flags: Flags, indexingEnabled: bool, allowIncompleteIndex: bool)
      requires Stores(db, flags)
      ensures Valid() && View() == NewRun(flags, indexingEnabled, allowIncompleteIndex)
    {
      this.indexingEnabled, this.allowIncompleteIndex := indexingEnabled, allowIncompleteIndex;
      closed, blockIndices, vtxIndices, txIndices := false, {}, {}, {};
      hasRunBefore := HasRunKey in db;
      this.db, this.flags := db + {HasRunKey}, flags.(hasRun := true);
    }

    method Close()
      modifies this`closed
      ensures closed
    {
      closed := true;
    }

    method RegisterChain(r: Registration)
      requires Valid()
      modifies this
      ensures Valid() && View() == old(View()).Register(r)
    {
      if closed || !r.isPrimary {
        return;
      }
      if r.chain in blockIndices || r.chain in txIndices || r.chain in vtxIndices {
        return;
      }
      if r.fault.ReadIncompleteFails? || r.fault.ReadPreviouslyIndexedFails? {
        Close();
        return;
      }
      var isIncomplete := IncompleteKey(r.chain) in db;
      var previouslyIndexed := PreviouslyIndexedKey(r.chain) in db;
      if !indexingEnabled {
        if (previouslyIndexed && !allowIncompleteIndex) || r.fault.MarkIncompleteFails? {
          Close();
          return;
        }
        db, flags := db + {IncompleteKey(r.chain)}, flags.(incomplete := flags.incomplete + {r.chain});
        return;
      }
      if !allowIncompleteIndex && isIncomplete && (previouslyIndexed || hasRunBefore) {
        Close();
        return;
      }
      if r.fault.MarkPreviouslyIndexedFails? {
        Close();
        return;
      }
      db, flags := db + {PreviouslyIndexedKey(r.chain)}, flags.(previouslyIndexed := flags.previouslyIndexed + {r.chain});
      CreateIndices(r);
    }

    method CreateIndices(r: Registration)
      modifies this`closed, this`blockIndices, this`vtxIndices, this`txIndices
      ensures View() == old(View()).CreateIndices(r)
    {
      if r.fault.BlockIndexFails? {
        Close();
        return;
      }
      blockIndices := blockIndices + {r.chain};
      match r.vm
      case DAGVM =>
        if r.fault.VertexIndexFails? {
          Close();
          return;
        }
        vtxIndices := vtxIndices + {r.chain};
        if r.fault.TxIndexFails? {
          Close();
          return;
        }
        txIndices := txIndices + {r.chain};
      case ChainVM =>
      case OtherVM =>
        Close();
    }
  }

  /** The database holds exactly the keys of these flags. */
  ghost predicate Stores(db: set<Key>, flags: Flags) {
    && (HasRunKey in db <==> flags.hasRun)
    && (forall c :: IncompleteKey(c) in db <==> c in flags.incomplete)
    && (forall c :: PreviouslyIndexedKey(c) in db <==> c in flags.previouslyIndexed)
  }
}
