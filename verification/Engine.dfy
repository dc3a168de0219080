/** The engine: instrumentation rules, translation on demand and the run loop
    (src/Engine/Engine.cpp). */
module Engines {
  import opened Ranges
  import opened Guest
  import opened PatchConditions
  import opened Blocks
  import opened Programs
  import opened Caches
  import opened Placements
  import opened RegionLists
  import opened BlockWrites
  import opened PageMaps
  import opened Lookups
  import opened Flushes
  import opened BasicBlocks
  import opened Coherence
  import opened Coverage
  import opened Folding
  import opened Managers
  import opened Runs
  import opened Interpreters

  /** What curGPRState or curFPRState points to: the engine's own registers, or the context of
      the block on a page. */
  datatype Place = Own | Page(base: nat)

  /** How a request to run or to translate ends. */
  datatype Outcome =
    | Finished
    | Unfinished           // the environment ends here
    | NotInstrumented
    | Undecodable
    | Uncovered            // a basic block that findRegion cannot cover
    | Failed(why: Failure)

  class Engine {
    const manager: ExecBlockManager
    const code: Program
    /** The patch generated for an instruction with some rules. */
    const generate: Generator
    /** What the context of a new block holds. */
    const garbage: nat -> Regs
    const env: Environment

    var rules: seq<Entry>
    var rulesCounter: nat
    var vmCallbacks: seq<nat>
    var running: bool
    /** gprState and fprState. */
    var own: Regs
    /** The contexts of the blocks, by page. */
    var contexts: map<nat, Regs>
    var curGpr: Place
    var curFpr: Place

    constructor (manager: ExecBlockManager, code: Program, generate: Generator,
                 garbage: nat -> Regs, env: Environment, own: Regs)
      requires manager.Valid() && manager.prog == code && manager.regions == []
      requires ProgramOk(code) && RangesOk(code)
      requires forall x, es :: generate(x, es).insn == x && generate(x, es).rules == es && WellFormed(generate(x, es))
      ensures Valid() && !running && rules == [] && this.manager == manager
    {
      this.manager, this.code, this.generate := manager, code, generate;
      this.garbage, this.env, this.own := garbage, env, own;
      rules, rulesCounter, vmCallbacks, running := [], 0, [], false;
      contexts, curGpr, curFpr := map[], Own, Own;
      new;
      KeptIs(generate, [], LivePatches([]));
    }

    /** What holds between two operations: the register pointers are right, the cache is, and on a
        stopped engine no flush is pending. */
    ghost predicate Valid()
      reads this`rules, this`contexts, this`curGpr, this`curFpr, this`running, manager
    {
      Pointing() && Core() && (!running ==> FlagsOk(manager.regions, false))
    }

    /** The register pointers point to the engine's own registers or into a block that a region
        still owns, and to the same place. */
    ghost predicate Pointing()
      reads this`contexts, this`curGpr, this`curFpr, this`running
    {
      curGpr == curFpr && (curGpr.Page? ==> running && curGpr.base in contexts)
    }

    /** Everything that holds also while a flush is pending. */
    ghost predicate Core()
      reads this`rules, this`contexts, manager
    {
      && ProgramOk(code) && RangesOk(code) && manager.Valid() && manager.prog == code
      && RulesKept(generate, rules, LivePatches(manager.regions))
      && contexts.Keys == LivePages(manager.regions)
    }

    /** The registers the pointers denote. */
    function Denoted(): Regs
      reads this`own, this`contexts, this`curGpr, this`curFpr, this`running
      requires Pointing()
    {
      Regs(if curGpr.Own? then own.gpr else contexts[curGpr.base].gpr,
           if curFpr.Own? then own.fpr else contexts[curFpr.base].fpr)
    }

    ghost function W(): World { World(code, generate, env) }

    function Rules(): RuleState
      reads this`rules, this`rulesCounter
    {
      RuleState(rules, rulesCounter)
    }

    /** What the run without a cache has: the registers and the rules. */
    function Now(): State
      reads this`own, this`contexts, this`curGpr, this`curFpr, this`running, this`rules, this`rulesCounter
      requires Pointing()
    {
      State(Denoted(), Rules())
    }

    /** The code is a part of the basic block at an instruction, as instrumented now. */
    ghost predicate Current(k: Key, piece: seq<Patch>)
      reads this`rules
      requires ProgramOk(code)
    {
      && k in code.insns && 1 <= |piece| <= BlockLength(code, k)
      && piece == Fresh(code, generate, rules, k, |piece|)
    }

    /** Commits a pending flush, unless the engine is running. */
    method Settle()
      requires Core() && Pointing()
      modifies manager, this`contexts
      ensures Valid() && LivePatches(manager.regions) == LivePatches(old(manager.regions))
      ensures Denoted() == old(Denoted())
      ensures !running ==> manager.regions == Flagged(old(manager.regions), false) && !manager.needFlush
    {
      if !running {
        if manager.needFlush {
          ghost var before := manager.regions;
          manager.FlushCommit();
          FlushLive(before);
          SyncContexts();
        } else {
          manager.Calm();
          AllUnflagged(manager.regions);
        }
      }
    }

    /** Contexts live and die with their blocks; a new one holds anything. */
    method SyncContexts()
      requires Pointing() && (curGpr.Page? ==> curGpr.base in LivePages(manager.regions))
      modifies this`contexts
      ensures contexts.Keys == LivePages(manager.regions)
      ensures Pointing() && Denoted() == old(Denoted())
    {
      contexts := map b | b in LivePages(manager.regions) :: if b in contexts then contexts[b] else garbage(b);
    }

    /** Clears the cache for a rule that comes or goes. */
    method Invalidate(rule: Rule) returns (ghost cleared: seq<Range>)
      requires Valid() && ValidRule(rule)
      modifies manager, this`contexts
      ensures Valid() && Denoted() == old(Denoted())
      ensures forall x :: Mem(cleared, x) <==> RuleAffected(rule, x)
      ensures LivePatches(manager.regions) == Inventory(Flat(Spared(old(manager.regions), cleared)))
      ensures Unaffected(rule, LivePatches(old(manager.regions)), LivePatches(manager.regions))
    {
      ghost var before := manager.regions;
      var affected := RuleAffectedRange(rule);
      manager.InOrder();
      manager.ClearCacheSet(affected.ranges);
      cleared := affected.ranges;
      ClearedUnaffected(code, before, manager.regions, cleared, rule);
      ClearedSpares(before, manager.regions, cleared);
      SameLivePages(before, manager.regions);
      KeptFewer(generate, rules, LivePatches(before), LivePatches(manager.regions));
      Settle();
    }

    /** Clears the cache for a range. */
    method ClearCache(range: Range)
      requires Valid()
      modifies manager, this`contexts
      ensures Valid() && Denoted() == old(Denoted())
      ensures Fewer(LivePatches(old(manager.regions)), LivePatches(manager.regions))
      ensures NoneIn(LivePatches(manager.regions), range)
      ensures LivePatches(manager.regions) == Inventory(Flat(Spared(old(manager.regions), [range])))
    {
      ghost var before := manager.regions;
      manager.InOrder();
      manager.ClearCacheRange(range);
      ClearedRange(code, before, manager.regions, range);
      ClearedSpares(before, manager.regions, [range]);
      SameLivePages(before, manager.regions);
      FewerLive(code, before, manager.regions);
      KeptFewer(generate, rules, LivePatches(before), LivePatches(manager.regions));
      Settle();
    }

    /** Clears the whole cache: at once on a stopped engine, else at the next flush. */
    method ClearAllCache()
      requires Valid()
      modifies manager, this`contexts
      ensures Valid() && Denoted() == old(Denoted())
      ensures LivePatches(manager.regions) == multiset{}
    {
      ghost var before := manager.regions;
      manager.ClearCacheAll(!running);
      NothingLive(manager.regions);
      KeptFewer(generate, rules, LivePatches(before), LivePatches(manager.regions));
      if running {
        SameLivePages(before, manager.regions);
      } else {
        SyncContexts();
      }
    }

    /** Evicts the oldest regions: on a stopped engine no more than nb blocks are left. */
    method ReduceCacheTo(nb: nat)
      requires Valid()
      modifies manager, this`contexts
      ensures Valid() && Denoted() == old(Denoted())
      ensures Fewer(LivePatches(old(manager.regions)), LivePatches(manager.regions))
      ensures !running ==> |Flat(manager.regions)| <= nb
    {
      ghost var before := manager.regions;
      manager.InOrder();
      ghost var k := manager.ReduceCacheTo(nb);
      FewerLive(code, before, manager.regions);
      SameLivePages(before, manager.regions);
      KeptFewer(generate, rules, LivePatches(before), LivePatches(manager.regions));
      Settle();
    }

    /** Translates the basic block at an instruction and writes it into the cache. `covered` fails
        exactly when there is a gap; then the cache is not in order any more. */
    method HandleNewBasicBlock(k: Key, fits: (Region, nat) -> bool) returns (s: Status, covered: bool)
      requires Valid() && !manager.needFlush && Decodes(code, k)
      modifies manager, this`contexts
      ensures s.Fail? ==> (s.why.TooManyBlocks? || s.why.Unwritable?) && Stuck(k, rules, s.why)
      ensures s.Ok? ==> (covered <==> !Gap(code, old(manager.regions), k)) && (Apart(code) ==> covered)
      ensures s.Ok? ==> (covered <==> CacheOk(code, manager.regions))
      ensures s.Ok? && covered ==> Valid() && !manager.needFlush && Denoted() == old(Denoted())
      ensures s.Ok? && covered ==> Cached(manager.regions, k)
    {
      ghost var before := manager.regions;
      s, covered := Translate(k, fits);
      if s.Ok? && covered {
        PagesStay(before, manager.regions);
        SyncContexts();
      }
    }

    /** The basic block at an instruction, as the rules instrument it, cannot be written: see GivesUp. */
    ghost predicate Stuck(k: Key, es: seq<Entry>, why: Failure)
      reads manager
      requires ProgramOk(code)
    {
      k in code.insns && manager.GivesUp(Flat(manager.regions), Fresh(code, generate, es, k, BlockLength(code, k)), why)
    }

    lemma StuckBy(bb: seq<Patch>, n: nat, why: Failure)
      requires ProgramOk(code) && IsBasicBlock(code, bb) && n <= |bb|
      requires forall i :: 0 <= i < n ==> bb[i] == Instrumented(generate, rules, bb[i].insn)
      requires manager.GivesUp(Flat(manager.regions), bb[..n], why)
      ensures Stuck(bb[0].insn.key, rules, why)
    {
      InstrumentedPart(code, generate, rules, bb, n);
      var k, blocks := bb[0].insn.key, Flat(manager.regions);
      manager.GivesUpMore(blocks, blocks, bb[..n], Fresh(code, generate, rules, k, BlockLength(code, k)), why);
    }

    ghost predicate StuckAfter(g: Machine, why: Failure)
      reads manager
      requires ProgramOk(code)
    {
      Stuck(g.Here(), g.state.rules.list, why)
    }

    /** An operation gets stuck, after some turns if it is a run. */
    ghost predicate StuckDuring(op: Operation, cuts: seq<nat>, s: State, why: Failure)
      reads manager
      requires ProgramOk(code)
    {
      match op
      case Request(_) => false
      case Precache(k, _) => Stuck(k, s.rules.list, why)
      case Execution(start, stop, script) => |cuts| <= |script| && StuckAfter(After(W(), script, cuts, Machine(start, s)), why)
    }

    /** Decodes, reserves, instruments and writes. */
    method Translate(k: Key, fits: (Region, nat) -> bool) returns (s: Status, covered: bool)
      requires Core() && !manager.needFlush && Decodes(code, k)
      modifies manager
      ensures s.Fail? ==> s.why.TooManyBlocks? || s.why.Unwritable?
      ensures s.Fail? ==> Stuck(k, rules, s.why)
      ensures s.Ok? ==> !manager.needFlush && FlagsOk(manager.regions, false) && (CacheOk(code, manager.regions) <==> covered)
      ensures s.Ok? && covered ==> manager.Valid()
      ensures s.Ok? ==> (covered <==> !Gap(code, old(manager.regions), k)) && (Apart(code) ==> covered)
      ensures s.Ok? ==> RulesKept(generate, rules, LivePatches(manager.regions)) && Cached(manager.regions, k)
      ensures s.Ok? ==> Pages(Flat(old(manager.regions))) <= Pages(Flat(manager.regions))
    {
      ghost var before := manager.regions;
      manager.Calm();
      NoFlags(before);
      covered := false;
      var bb, patchEnd;
      s, bb, patchEnd := Prepare(k, fits, LivePatches(before));
      if s.Fail? {
        return;
      }
      ghost var n;
      s, covered, n := Write(bb, patchEnd, fits);
      if s.Ok? {
        KeptWritten(generate, rules, LivePatches(before), bb, n);
        NoFlags(manager.regions);
      } else {
        StuckBy(bb, patchEnd, s.why);
      }
    }

    /** Writes a prepared basic block; n of its patches are new. */
    method Write(bb: seq<Patch>, patchEnd: nat, fits: (Region, nat) -> bool) returns (s: Status, covered: bool, ghost n: nat)
      requires manager.Valid() && manager.prog == code && IsBasicBlock(code, bb) && patchEnd <= |bb|
      requires !BadEnd(manager.regions, bb, patchEnd)
      requires forall i :: 0 <= i < patchEnd ==> WellFormed(bb[i])
      modifies manager`regions, manager`codeBlockMap, manager`reduceList, manager`nextId
      ensures s.Fail? ==> s.why.TooManyBlocks? || s.why.Unwritable?
      ensures s.Fail? ==> manager.GivesUp(Flat(manager.regions), bb[..patchEnd], s.why)
      ensures s.Ok? ==> n <= patchEnd && (CacheOk(code, manager.regions) <==> covered) && (covered ==> manager.Valid())
      ensures s.Ok? && !manager.needFlush ==> FlagsOk(manager.regions, false)
      ensures s.Ok? ==> (covered <==> !Overlong(Covers(old(manager.regions)), BlockRange(bb), bb[|bb| - 1].insn.key.address))
      ensures s.Ok? && Apart(code) ==> covered
      ensures s.Ok? ==> Inventory(Flat(manager.regions)) == Inventory(Flat(old(manager.regions))) + multiset(bb[..n])
      ensures s.Ok? ==> Cached(manager.regions, bb[0].insn.key)
      ensures s.Ok? ==> Pages(Flat(old(manager.regions))) <= Pages(Flat(manager.regions))
    {
      manager.InOrder();
      if Apart(code) {
        NeverOverlong(code, manager.regions, bb);
      }
      ghost var r, cuts;
      s, covered, n, r, cuts := manager.WriteBasicBlock(bb, patchEnd, fits);
      manager.Unfolded();
    }

    /** Decodes the basic block, reserves its region and instruments what is not cached there. */
    method Prepare(k: Key, fits: (Region, nat) -> bool, ghost live: multiset<Patch>) returns (s: Status, bb: seq<Patch>, patchEnd: nat)
      requires manager.Valid() && manager.prog == code && ProgramOk(code) && RangesOk(code) && Decodes(code, k)
      requires RulesKept(generate, rules, live)
      modifies manager`regions, manager`reduceList, manager`nextId
      ensures s.Fail? ==> s.why.TooManyBlocks? && WORD16 <= |Flat(manager.regions)|
      ensures s.Ok? ==> manager.Valid() && IsBasicBlock(code, bb) && bb[0].insn.key == k && patchEnd <= |bb|
      ensures s.Ok? ==> Flat(manager.regions) == Flat(old(manager.regions))
      ensures s.Ok? ==> (Overlong(Covers(manager.regions), BlockRange(bb), bb[|bb| - 1].insn.key.address)
                         <==> Gap(code, old(manager.regions), k))
      ensures s.Ok? ==> !BadEnd(manager.regions, bb, patchEnd)
      ensures s.Ok? ==> forall i :: 0 <= i < patchEnd ==> WellFormed(bb[i]) && bb[i] == Instrumented(generate, rules, bb[i].insn)
    {
      ghost var before := manager.regions;
      var plain;
      s, plain, patchEnd := Reserve(k, fits, live);
      bb := plain;
      if s.Fail? {
        return;
      }
      bb := Instrument(plain, patchEnd, live);
      Carried(code, before, manager.regions, plain, bb, patchEnd);
    }

    /** Decodes the basic block and reserves its region. */
    method Reserve(k: Key, fits: (Region, nat) -> bool, ghost live: multiset<Patch>) returns (s: Status, bb: seq<Patch>, patchEnd: nat)
      requires manager.Valid() && manager.prog == code && ProgramOk(code) && RangesOk(code) && Decodes(code, k)
      requires RulesKept(generate, rules, live)
      modifies manager`regions, manager`reduceList, manager`nextId
      ensures IsBasicBlock(code, bb) && bb[0].insn.key == k
      ensures s.Fail? ==> s.why.TooManyBlocks? && WORD16 <= |Flat(manager.regions)|
      ensures s.Ok? ==> manager.Valid() && patchEnd <= |bb| && Flat(manager.regions) == Flat(old(manager.regions))
      ensures s.Ok? ==> !BadEnd(manager.regions, bb, patchEnd)
      ensures s.Ok? ==> (Overlong(Covers(manager.regions), BlockRange(bb), bb[|bb| - 1].insn.key.address)
                         <==> OverlongTwice(Covers(old(manager.regions)), BlockRange(bb), bb[|bb| - 1].insn.key.address))
    {
      KeptIs(generate, rules, live);
      bb := PatchBlock(k);
      ghost var r;
      s, patchEnd, r := manager.PreWriteBasicBlock(bb, fits);
    }

    /** Decodes the basic block at an instruction, within the instrumented range the instruction is in. */
    method PatchBlock(k: Key) returns (bb: seq<Patch>)
      requires GeneratorOk(generate) && ProgramOk(code) && RangesOk(code) && Decodes(code, k)
      ensures IsBasicBlock(code, bb) && bb[0].insn.key == k
      ensures forall i :: 0 <= i < |bb| ==> bb[i] == generate(bb[i].insn, [])
    {
      var limit := DecodeLimit(code.ranges, k.address);
      var x := code.insns[k];
      bb := [generate(x, [])];
      GoesIsContinues(code, k, k);
      while Goes(code, x, limit)
        invariant bb != [] && Chain(code, bb) && bb[0].insn.key == k && bb[|bb| - 1].insn == x
        invariant forall i :: 0 <= i < |bb| ==> bb[i] == generate(bb[i].insn, [])
        invariant x.key in code.insns && code.insns[x.key] == x && InPatch(code, k, x.key)
        invariant Goes(code, x, limit) <==> Continues(code, x)
        decreases WORD - x.key.address
      {
        var y := code.insns[NextKey(x)];
        ChainSnoc(code, bb, generate(y, []));
        ReachesNext(code, k, x.key, limit);
        GoesIsContinues(code, k, y.key);
        bb := bb + [generate(y, [])];
        x := y;
      }
    }

    /** Instruments the first n patches of a basic block with the current rules. */
    method Instrument(bb: seq<Patch>, n: nat, ghost live: multiset<Patch>) returns (out: seq<Patch>)
      requires n <= |bb| && RulesKept(generate, rules, live)
      ensures |out| == |bb| && forall i :: 0 <= i < |bb| ==> out[i].insn == bb[i].insn
      ensures forall i :: 0 <= i < n ==> WellFormed(out[i]) && out[i] == Instrumented(generate, rules, out[i].insn)
    {
      KeptIs(generate, rules, live);
      out := bb;
      for i := 0 to n
        invariant |out| == |bb| && forall j :: 0 <= j < |bb| ==> out[j].insn == bb[j].insn
        invariant forall j :: 0 <= j < i ==> WellFormed(out[j]) && out[j] == Instrumented(generate, rules, out[j].insn)
      {
        ghost var at;
        var applied;
        applied, at := RulesFor(bb[i].insn);
        out := out[i := generate(bb[i].insn, applied)];
      }
    }

    /** The rules that instrument an instruction, in order. */
    method RulesFor(x: Insn) returns (applied: seq<Entry>, ghost at: seq<nat>)
      requires forall i :: 0 <= i < |rules| ==> ValidRule(rules[i].rule)
      ensures applied == Applying(rules, x)
      ensures Positions(rules, x, at) && Picks(rules, at, applied)
    {
      applied := [];
      for i := 0 to |rules|
        invariant applied == Applying(rules[..i], x)
      {
        assert rules[..i + 1] == rules[..i] + [rules[i]];
        ApplyingMore(rules[..i], rules[i], x);
        var yes := TryInstrument(rules[i].rule, x);
        if yes {
          applied := applied + [rules[i]];
        }
      }
      assert rules[..|rules|] == rules;
      at := ApplyingExact(rules, x);
    }

    /** Puts the basic block at an instruction into the cache of a stopped engine. (The source
        sets the running flag around the translation, which does not look at it.) */
    method PrecacheBasicBlock(k: Key, fits: (Region, nat) -> bool) returns (o: Outcome, done: bool)
      requires Valid() && !running
      modifies manager, this`contexts
      ensures o.Finished? ==> Valid() && Denoted() == old(Denoted()) && Cached(manager.regions, k)
      ensures o.Finished? ==> (done <==> !Cached(old(manager.regions), k))
      ensures o.Uncovered? ==> !Apart(code)
      ensures o.Undecodable? ==> !Decodes(code, k)
      ensures o.Failed? ==> Stuck(k, old(rules), o.why)
      ensures o.Finished? || o.Undecodable? || o.Uncovered? || o.Failed?
    {
      AllUnflagged(manager.regions);
      Settle();
      done := false;
      var found, r, loc := manager.GetExecBlock(k);
      if found {
        return Finished, false;
      }
      o := NewBasicBlock(k, fits);
      done := o.Finished?;
    }

    /** Translates the basic block at an instruction that is not cached, if there is one. */
    method NewBasicBlock(k: Key, fits: (Region, nat) -> bool) returns (o: Outcome)
      requires Valid() && !manager.needFlush
      modifies manager, this`contexts
      ensures o.Finished? ==> Valid() && !manager.needFlush && Denoted() == old(Denoted()) && Cached(manager.regions, k)
      ensures o.Uncovered? ==> !Apart(code)
      ensures o.Undecodable? ==> !Decodes(code, k)
      ensures o.Failed? ==> Stuck(k, old(rules), o.why)
      ensures o.Finished? || o.Undecodable? || o.Uncovered? || o.Failed?
    {
      if !Decodes(code, k) {
        return Undecodable;
      }
      var s, covered := HandleNewBasicBlock(k, fits);
      o := if s.Fail? then Failed(s.why) else if covered then Finished else Uncovered;
    }

    /** Any history of requests, translations and runs leaves the registers and rules of the same
        history without a cache; whenever the engine is stopped, every cached patch is the code its
        instruction would get now, and every instruction is cached once. `runs` tells how many
        instructions each turn of each run executed. */
    method History(ops: seq<Operation>) returns (o: Outcome, ghost runs: seq<seq<nat>>)
      requires Valid() && !running && forall i :: 0 <= i < |ops| ==> OperationOk(ops[i])
      modifies manager, this
      ensures o.Finished? ==> Valid() && !running && AllCarry(generate, rules, manager.regions) && CachedOnce(manager.regions)
      ensures o.Finished? ==> WholeRuns(W(), ops, runs, old(Now())) && Now() == LeftBy(W(), ops, runs, old(Now()))
      ensures o.Failed? ==> |runs| < |ops|
      ensures o.Failed? ==> exists cuts :: StuckDuring(ops[|runs|], cuts, LeftBy(W(), ops[..|runs|], runs, old(Now())), o.why)
      ensures o.Uncovered? ==> !Apart(code)
      ensures o.Finished? && (forall i :: 0 <= i < |ops| ==> ops[i].Request?) ==>
                Now() == State(old(Denoted()), AllRequested(Calls(ops), old(Rules())))
    {
      o, runs := Operations(ops);
      if o.Finished? {
        if forall i :: 0 <= i < |ops| ==> ops[i].Request? {
          OnlyRequests(W(), ops, runs, old(Now()));
        }
        manager.InOrder();
        NoFlags(manager.regions);
        KeptIs(generate, rules, LivePatches(manager.regions));
        CoherentEverywhere(generate, rules, manager.regions);
        OnceEverywhere(code, manager.regions);
      }
    }

    method Operations(ops: seq<Operation>) returns (o: Outcome, ghost runs: seq<seq<nat>>)
      requires Valid() && !running && forall i :: 0 <= i < |ops| ==> OperationOk(ops[i])
      modifies manager, this
      ensures o.Finished? ==> Valid() && !running
      ensures o.Finished? ==> WholeRuns(W(), ops, runs, old(Now())) && Now() == LeftBy(W(), ops, runs, old(Now()))
      ensures o.Failed? ==> |runs| < |ops|
      ensures o.Failed? ==> exists cuts :: StuckDuring(ops[|runs|], cuts, LeftBy(W(), ops[..|runs|], runs, old(Now())), o.why)
      ensures o.Uncovered? ==> !Apart(code)
    {
      runs := [];
      for i := 0 to |ops|
        invariant Valid() && !running && WholeRuns(W(), ops[..i], runs, old(Now()))
        invariant Now() == LeftBy(W(), ops[..i], runs, old(Now()))
      {
        ghost var cuts;
        o, cuts := Operate(ops[i]);
        if !o.Finished? {
          return;
        }
        LeftByMore(W(), ops, i, runs, old(Now()), cuts);
        runs := runs + [cuts];
      }
      assert ops[..|ops|] == ops;
      o := Finished;
    }

    method Operate(op: Operation) returns (o: Outcome, ghost cuts: seq<nat>)
      requires Valid() && !running && OperationOk(op)
      modifies manager, this
      ensures o.Finished? ==> Valid() && !running
      ensures o.Finished? ==> WholeRun(W(), op, cuts, old(Now())) && Now() == Left(W(), op, cuts, old(Now()))
      ensures op.Request? ==> o.Finished? && Now() == State(old(Denoted()), Requested(op.call, old(Rules())))
      ensures o.Failed? ==> StuckDuring(op, cuts, old(Now()), o.why)
      ensures o.Uncovered? ==> !Apart(code)
    {
      cuts := [];
      match op {
        case Request(call) =>
          Apply(call);
          o := Finished;
        case Precache(k, fits) =>
          var done;
          o, done := PrecacheBasicBlock(k, fits);
        case Execution(start, stop, script) =>
          var hasRan;
          o, hasRan, cuts := Run(start, stop, script);
          o := if o.NotInstrumented? then Finished else o;
      }
    }

    // ----------------------------------------------------------------------
    // The run loop
    // ----------------------------------------------------------------------

    /** Writes registers through the pointers. */
    method SetRegs(r: Regs)
      requires Valid()
      modifies this`own, this`contexts
      ensures Valid() && Denoted() == r
    {
      if curGpr.Own? {
        own := r;
      } else {
        contexts := contexts[curGpr.base := r];
        assert contexts.Keys == old(contexts).Keys;
      }
    }

    /** A request of a callback. */
    method Apply(call: Call)
      requires Valid() && CallOk(call)
      modifies manager, this`contexts, this`rules, this`rulesCounter, this`vmCallbacks
      ensures Valid() && Now() == State(old(Denoted()), Requested(call, old(Rules())))
    {
      match call
      case AddRule(rule) => var id := AddInstrRule(rule);
      case DeleteRule(id) => var found := DeleteInstrumentation(id);
      case DeleteAll => DeleteAllInstrumentations();
      case ClearAll => ClearAllCache();
      case ClearRange(range) => ClearCache(range);
      case ReduceTo(nb) => ReduceCacheTo(nb);
    }

    /** Lets the environment act: on the registers, and through requests. */
    method Signal(event: Event) returns (action: Action)
      requires Valid() && EventOk(event)
      modifies manager, this`own, this`contexts, this`rules, this`rulesCounter, this`vmCallbacks
      ensures Valid() && Now() == Reacted(event, old(Now())) && action == event.action
    {
      SetRegs(event.effect(Denoted()));
      ghost var r, before := Denoted(), Rules();
      for i := 0 to |event.calls|
        invariant Valid() && Denoted() == r && Rules() == AllRequested(event.calls[..i], before)
      {
        Apply(event.calls[i]);
        RequestedMore(event.calls, i, before);
      }
      assert event.calls[..|event.calls|] == event.calls;
      return event.action;
    }

    /** Commits a pending flush of a running engine. The registers move to the engine first, since
        the block that holds them may go. */
    method CommitFlush()
      requires Valid()
      modifies manager, this`own, this`contexts, this`curGpr, this`curFpr
      ensures Valid() && !manager.needFlush && Denoted() == old(Denoted())
    {
      if manager.needFlush {
        TakeBack();
        FlushOwn();
      }
    }

    /** Copies the registers into the engine's own and points there. */
    method TakeBack()
      requires Valid()
      modifies this`own, this`curGpr, this`curFpr
      ensures Valid() && own == Denoted() == old(Denoted()) && curGpr.Own?
    {
      own := Denoted();
      PointHome();
    }

    method PointHome()
      requires Valid() && own == Denoted()
      modifies this`curGpr, this`curFpr
      ensures Valid() && own == Denoted() && curGpr.Own?
    {
      curGpr, curFpr := Own, Own;
    }

    /** Commits a flush while the engine has the registers. */
    method FlushOwn()
      requires Valid() && curGpr.Own?
      modifies manager, this`contexts
      ensures Valid() && !manager.needFlush && Denoted() == old(Denoted())
    {
      ghost var before := manager.regions;
      manager.FlushCommit();
      FlushLive(before);
      SyncContexts();
    }

    /** Makes a block current: its context takes over the registers. */
    method SwitchTo(base: nat)
      requires Valid() && running && base in contexts
      modifies this`contexts, this`curGpr, this`curFpr
      ensures Valid() && Denoted() == old(Denoted()) && curGpr == curFpr == Page(base)
      ensures base in contexts && contexts[base] == old(Denoted())
    {
      if curGpr != Page(base) || curFpr != Page(base) {
        CopyTo(base);
      }
      Point(base);
    }

    method Point(base: nat)
      requires Valid() && running && base in contexts && contexts[base] == Denoted()
      modifies this`curGpr, this`curFpr
      ensures Valid() && Denoted() == old(Denoted()) && curGpr == curFpr == Page(base)
    {
      curGpr, curFpr := Page(base), Page(base);
    }

    method CopyTo(base: nat)
      requires Valid() && base in contexts
      modifies this`contexts
      ensures Valid() && Denoted() == old(Denoted()) && base in contexts && contexts[base] == Denoted()
    {
      contexts := contexts[base := Denoted()];
      assert contexts.Keys == old(contexts).Keys;
    }

    /** The sequence to execute for an instruction, translated if it is not in the cache: the code of
        that sequence on that page, which is what instrumenting now would give. */
    method Locate(k: Key, fits: (Region, nat) -> bool)
      returns (o: Outcome, base: nat, piece: seq<Patch>, ghost r: nat, ghost loc: SeqLoc)
      requires Valid() && !manager.needFlush
      modifies manager, this`contexts
      ensures o.Finished? ==> Valid() && Denoted() == old(Denoted())
      ensures o.Finished? ==> base in contexts && Picked(code, manager.regions, r, k, loc, base, piece) && Current(k, piece)
      ensures o.Uncovered? ==> !Apart(code)
      ensures o.Undecodable? ==> !Decodes(code, k)
      ensures o.Failed? ==> Stuck(k, old(rules), o.why)
      ensures o.Finished? || o.Undecodable? || o.Uncovered? || o.Failed?
    {
      var found;
      found, base, piece, r, loc := Select(k);
      if found {
        o := Finished;
        return;
      }
      o := NewBasicBlock(k, fits);
      if !o.Finished? {
        return;
      }
      found, base, piece, r, loc := Select(k);
      assert found; // so the source's abort on a second miss is never reached
    }

    /** Runs the guest from an address until it gets to another one, a callback stops it or the
        environment ends. Registers and rules are those of the run without a cache, in which `cuts`
        tells how many instructions each turn executes. */
    method Run(start: nat, stop: nat, script: seq<Turn>)
      returns (o: Outcome, hasRan: bool, ghost cuts: seq<nat>)
      requires Valid() && !running && forall t :: 0 <= t < |script| ==> TurnOk(script[t])
      modifies manager, this
      ensures !o.NotInstrumented? ==> OnTrack(W(), script, cuts, Machine(start, old(Now())), hasRan)
      ensures Going(o) ==> Valid() && AsFar(W(), script, cuts, Machine(start, old(Now())), stop, o)
      ensures Going(o) ==> Now() == After(W(), script, cuts, Machine(start, old(Now()))).state
      ensures o.Finished? ==> !running && own == Denoted()
      ensures o.Undecodable? ==> Blind(W(), After(W(), script, cuts, Machine(start, old(Now()))))
      ensures o.Failed? ==> StuckAfter(After(W(), script, cuts, Machine(start, old(Now()))), o.why)
      ensures o.NotInstrumented? <==> !code.Instruments(start)
      ensures o.NotInstrumented? ==> Valid() && !running && Now() == old(Now())
      ensures o.Uncovered? ==> !Apart(code)
      ensures Going(o) && script != [] && script[0].enter.action.Continue? ==> hasRan
      ensures hasRan ==> exists t :: 0 <= t < |script| && script[t].enter.action.Continue?
      ensures Going(o) ==> forall t :: 0 <= t < |script| && script[t].enter.action.Stop? ==> o.Finished? && |cuts| <= t + 1
      ensures o.Finished? && (forall t :: 0 <= t < |script| ==> NeverStops(script[t])) ==> Denoted().gpr.pc == stop
      ensures o.Unfinished? && script != [] ==> Denoted().gpr.pc != stop
    {
      var entered := Enter(start);
      if !entered {
        return NotInstrumented, false, [];
      }
      ghost var g := Machine(start, Now());
      o, hasRan, cuts := Loop(start, stop, script);
      if Going(o) {
        RunShown(W(), script, cuts, g, stop, o, hasRan);
      }
      if o.Finished? {
        Leave();
      }
    }

    /** A run in which executing code does what `step` does for each instruction, and whatever changes
        the rules breaks to the VM. It is the run that instruments every instruction when it gets to
        it, and if there are no other events and no transfers, the guest instruction by instruction. */
    method RunSteps(start: nat, stop: nat, script: seq<Turn>, ghost step: Semantics)
      returns (o: Outcome, hasRan: bool, ghost cuts: seq<nat>)
      requires Valid() && !running && FallsThrough(step) && Breaks(step)
      requires forall t :: 0 <= t < |script| ==> TurnOk(script[t]) && ExecutesAll(step, script[t]) && AlwaysPolite(script[t].enter)
      modifies manager, this
      ensures Going(o) ==> Valid() && AsFar(W(), script, cuts, Machine(start, old(Now())), stop, o)
      ensures Going(o) ==> Now() == Stepwise(W(), step, script, cuts, Machine(start, old(Now()))).state
      ensures Going(o) && AllQuiet(W(), script, cuts, Machine(start, old(Now()))) ==>
                var n := Executed(W(), step, script, cuts, Machine(start, old(Now())));
                Now() == Interpret(W(), step, n, Machine(start, old(Now()))).state
    {
      KeptIs(generate, rules, LivePatches(manager.regions));
      ghost var g := Machine(start, Now());
      o, hasRan, cuts := Run(start, stop, script);
      if Going(o) {
        Steadily(W(), step, script, cuts, g);
        NeverStale(W(), step, script, cuts, g);
        if AllQuiet(W(), script, cuts, g) {
          Transparent(W(), step, script, cuts, g);
        }
      }
    }

    /** The beginning of a run, on the engine's own registers. */
    method Enter(start: nat) returns (entered: bool)
      requires Valid() && !running
      modifies this`curGpr, this`curFpr, this`running
      ensures Valid() && running == entered == code.Instruments(start) && Denoted() == old(Denoted())
    {
      Home();
      entered := code.Instruments(start);
      running := entered;
    }

    /** The registers of a stopped engine are its own. */
    method Home()
      requires Valid() && !running
      modifies this`curGpr, this`curFpr
      ensures Valid() && Denoted() == old(Denoted())
    {
      curGpr, curFpr := Own, Own;
    }

    /** The loop of run; what is left is to take the registers back. */
    method Loop(start: nat, stop: nat, script: seq<Turn>)
      returns (o: Outcome, hasRan: bool, ghost cuts: seq<nat>)
      requires Valid() && running && forall t :: 0 <= t < |script| ==> TurnOk(script[t])
      modifies manager, this`own, this`contexts, this`curGpr, this`curFpr, this`rules, this`rulesCounter, this`vmCallbacks
      ensures OnTrack(W(), script, cuts, Machine(start, old(Now())), hasRan)
      ensures Going(o) ==> Valid() && AsFar(W(), script, cuts, Machine(start, old(Now())), stop, o)
      ensures Going(o) ==> Now() == After(W(), script, cuts, Machine(start, old(Now()))).state
      ensures o.Undecodable? ==> Blind(W(), After(W(), script, cuts, Machine(start, old(Now()))))
      ensures o.Failed? ==> StuckAfter(After(W(), script, cuts, Machine(start, old(Now()))), o.why)
      ensures o.Uncovered? ==> !Apart(code)
      ensures !o.NotInstrumented?
    {
      hasRan, cuts := false, [];
      var pc, t := start, 0;
      ghost var g := Machine(start, Now());
      while t < |script|
        invariant Valid() && |cuts| == t <= |script| && Machine(pc, Now()) == After(W(), script, cuts, g)
        invariant OnTrack(W(), script, cuts, g, hasRan) && GoesOn(W(), script, cuts, g, stop)
      {
        var action, ran;
        ghost var n;
        o, action, ran, n := OneTurn(pc, script[t]);
        if !o.Finished? {
          return;
        }
        OneMoreTurn(W(), script, cuts, n, g, stop);
        hasRan := hasRan || ran;
        cuts := cuts + [n];
        t := t + 1;
        pc := Denoted().gpr.pc;
        if action.Stop? || pc == stop {
          return;
        }
      }
      o := Unfinished;
    }

    /** One turn of the loop, of n instructions if it executes any. */
    method OneTurn(pc: nat, turn: Turn)
      returns (o: Outcome, action: Action, hasRan: bool, ghost n: nat)
      requires Valid() && running && TurnOk(turn)
      modifies manager, this`own, this`contexts, this`curGpr, this`curFpr, this`rules, this`rulesCounter, this`vmCallbacks
      ensures o.Finished? ==> Valid() && TurnDone(W(), Machine(pc, old(Now())), turn, n, Now(), action, hasRan)
      ensures o.Finished? && (code.Instruments(pc) || !env.transferable(old(Denoted()))) ==>
                && 1 <= n && hasRan == turn.enter.action.Continue?
                && (Now(), action) == TurnState(turn, Fresh(code, generate, old(rules), Key(pc, Default), n), false, old(Now()))
      ensures o.Finished? && !code.Instruments(pc) && env.transferable(old(Denoted())) ==>
                !hasRan && forall piece :: (Now(), action) == TurnState(turn, piece, true, old(Now()))
      ensures o.Undecodable? ==> Blind(W(), Machine(pc, old(Now())))
      ensures o.Failed? ==> Stuck(Key(pc, Default), old(rules), o.why)
      ensures o.Uncovered? ==> !Apart(code)
      ensures o.Finished? || o.Undecodable? || o.Uncovered? || o.Failed?
    {
      hasRan, n := false, 0;
      if !code.Instruments(pc) && env.transferable(Denoted()) {
        action := Transfer(turn);
        return Finished, action, false, 0;
      }
      CommitFlush();
      o, action, hasRan, n := Dispatch(Key(pc, Default), turn);
    }

    /** Executes the sequence at an instruction: its n instructions, as instrumented now. */
    method Dispatch(k: Key, turn: Turn)
      returns (o: Outcome, action: Action, hasRan: bool, ghost n: nat)
      requires Valid() && running && TurnOk(turn) && !manager.needFlush
      modifies manager, this`own, this`contexts, this`curGpr, this`curFpr, this`rules, this`rulesCounter, this`vmCallbacks
      ensures o.Finished? ==> Valid() && k in code.insns && 1 <= n <= BlockLength(code, k) && hasRan == turn.enter.action.Continue?
      ensures o.Finished? ==> (Now(), action) == TurnState(turn, Fresh(code, generate, old(rules), k, n), false, old(Now()))
      ensures o.Uncovered? ==> !Apart(code)
      ensures o.Undecodable? ==> !Decodes(code, k)
      ensures o.Failed? ==> Stuck(k, old(rules), o.why)
      ensures o.Finished? || o.Undecodable? || o.Uncovered? || o.Failed?
    {
      hasRan, n := false, 0;
      var base, piece;
      ghost var r, loc;
      o, base, piece, r, loc := Locate(k, turn.fits);
      if !o.Finished? {
        action := Stop;
        return;
      }
      n := |piece|;
      action, hasRan := ExecuteOn(base, turn, piece);
    }

    /** Executes a piece of code of the block on a page. */
    method ExecuteOn(base: nat, turn: Turn, piece: seq<Patch>) returns (action: Action, hasRan: bool)
      requires Valid() && running && TurnOk(turn) && base in contexts
      modifies manager, this`own, this`contexts, this`curGpr, this`curFpr, this`rules, this`rulesCounter, this`vmCallbacks
      ensures Valid() && (Now(), action) == TurnState(turn, piece, false, old(Now()))
      ensures hasRan == turn.enter.action.Continue?
    {
      SwitchTo(base);
      action, hasRan := Execute(turn, piece);
    }

    /** Leaves the guest's code to the host. */
    method Transfer(turn: Turn) returns (action: Action)
      requires Valid() && running && TurnOk(turn)
      modifies manager, this`own, this`contexts, this`rules, this`rulesCounter, this`vmCallbacks
      ensures Valid() && forall piece :: (Now(), action) == TurnState(turn, piece, true, old(Now()))
    {
      action := Signal(turn.enter);
      if action.Continue? {
        SetRegs(turn.host(Denoted()));
        action := Signal(turn.leave);
      }
    }

    /** Executes a piece of code, with its events. */
    method Execute(turn: Turn, piece: seq<Patch>) returns (action: Action, hasRan: bool)
      requires Valid() && running && TurnOk(turn)
      modifies manager, this`own, this`contexts, this`rules, this`rulesCounter, this`vmCallbacks
      ensures Valid() && (Now(), action) == TurnState(turn, piece, false, old(Now()))
      ensures hasRan == turn.enter.action.Continue?
    {
      hasRan := false;
      action := Signal(turn.enter);
      if action.Continue? {
        hasRan := true;
        action := Signal(turn.body(piece, Denoted()));
        if action.Continue? {
          action := Signal(turn.leave);
        }
      }
    }

    /** The engine, which has the registers, stops and commits a pending flush. */
    method Rest()
      requires Valid() && running && curGpr.Own?
      modifies manager, this`contexts, this`running
      ensures Valid() && !running && Denoted() == old(Denoted()) == own
    {
      running := false;
      Settle();
    }

    /** The end of a run: the registers go back to the engine and a pending flush is committed. */
    method Leave()
      requires Valid() && running
      modifies manager, this`own, this`contexts, this`curGpr, this`curFpr, this`running
      ensures Valid() && !running && own == Denoted() == old(Denoted())
    {
      TakeBack();
      Rest();
    }

    /** Looks up the sequence for an instruction and selects it. */
    method Select(k: Key) returns (found: bool, base: nat, piece: seq<Patch>, ghost r: nat, ghost loc: SeqLoc)
      requires Valid() && !manager.needFlush
      modifies manager`regions
      ensures Valid() && Denoted() == old(Denoted()) && (found <==> Cached(old(manager.regions), k))
      ensures !found ==> manager.regions == old(manager.regions)
      ensures found ==> base in contexts && Picked(code, manager.regions, r, k, loc, base, piece) && Current(k, piece)
    {
      ghost var before := manager.regions;
      manager.Calm();
      var at, l, e;
      found, at, l, e := manager.GetProgrammedExecBlock(k);
      manager.InOrder();
      base, piece, r, loc := 0, [], at, l;
      if found {
        SelectedThere(code, generate, rules, before, manager.regions, r, k, loc);
        base, piece := Loaded(e, manager.regions[r].blocks[loc.blockIdx], loc.seqID);
      }
    }

    /** Registers a rule and keeps the list in priority order; the identifiers run out. */
    method AddInstrRule(rule: Rule) returns (id: nat)
      requires Valid() && ValidRule(rule)
      modifies manager, this`contexts, this`rules, this`rulesCounter
      ensures Valid() && Denoted() == old(Denoted()) && Rules() == Requested(AddRule(rule), old(Rules()))
      ensures id == if old(rulesCounter) < EVENTID_VM_MASK then old(rulesCounter) else INVALID_EVENTID
    {
      id := TakeId();
      if id >= EVENTID_VM_MASK {
        return INVALID_EVENTID;
      }
      Register(Entry(id, rule));
    }

    method TakeId() returns (id: nat)
      requires Valid()
      modifies this`rulesCounter
      ensures Valid() && id == old(rulesCounter) && rulesCounter == (id + 1) % WORD32
    {
      id := rulesCounter;
      rulesCounter := (rulesCounter + 1) % WORD32;
    }

    /** Clears the cache for a rule, then enters it. */
    method Register(v: Entry)
      requires Valid() && ValidRule(v.rule)
      modifies manager, this`contexts, this`rules
      ensures Valid() && Denoted() == old(Denoted()) && rules == Inserted(old(rules), v)
    {
      ghost var before := LivePatches(manager.regions);
      KeptIs(generate, rules, before);
      ghost var cleared := Invalidate(v.rule);
      var i := UpperBound(rules, v.rule.priority);
      InsertRule(v, i, before);
    }

    /** Enters a rule that no live patch is subject to. */
    method InsertRule(v: Entry, i: nat, ghost before: multiset<Patch>)
      requires Valid() && ValidRule(v.rule) && Unaffected(v.rule, before, LivePatches(manager.regions))
      requires RulesKept(generate, rules, before) && i <= |rules|
      requires forall j :: 0 <= j < |rules| ==> (j < i <==> rules[j].rule.priority >= v.rule.priority)
      modifies this`rules
      ensures Valid() && rules == Inserted(old(rules), v)
    {
      KeptInserted(generate, rules, before, LivePatches(manager.regions), i, v);
      rules := rules[..i] + [v] + rules[i..];
    }

    /** Removes the first rule or the first VM callback with the identifier. */
    method DeleteInstrumentation(id: nat) returns (found: bool)
      requires Valid()
      modifies manager, this`contexts, this`rules, this`vmCallbacks
      ensures Valid() && Denoted() == old(Denoted()) && Rules() == Requested(DeleteRule(id), old(Rules()))
      ensures VmEvent(id) ==> CallbackGone(old(vmCallbacks), vmCallbacks, id - EVENTID_VM_MASK, found)
      ensures EVENTID_VM_MASK <= id < 2 * EVENTID_VM_MASK ==>
                rules == old(rules) && CallbackGone(old(vmCallbacks), vmCallbacks, id - EVENTID_VM_MASK, found)
      ensures id < EVENTID_VM_MASK ==> vmCallbacks == old(vmCallbacks) && (found <==> exists i :: 0 <= i < |old(rules)| && old(rules)[i].id == id)
      ensures !VmEvent(id) ==> vmCallbacks == old(vmCallbacks) && (found <==> exists i :: 0 <= i < |old(rules)| && old(rules)[i].id == id)
    {
      IdKinds(id);
      if VmEvent(id) {
        found := RemoveCallback(id - EVENTID_VM_MASK);
        return;
      }
      for i := 0 to |rules|
        invariant forall j :: 0 <= j < i ==> rules[j].id != id
      {
        if rules[i].id == id {
          WithoutAt(rules, id, i);
          RemoveRule(i);
          return true;
        }
      }
      WithoutNone(rules, id);
      return false;
    }

    method RemoveCallback(id: int) returns (found: bool)
      requires Valid()
      modifies this`vmCallbacks
      ensures Valid() && CallbackGone(old(vmCallbacks), vmCallbacks, id, found)
    {
      for i := 0 to |vmCallbacks|
        invariant forall j :: 0 <= j < i ==> vmCallbacks[j] != id
      {
        if vmCallbacks[i] == id {
          vmCallbacks := vmCallbacks[..i] + vmCallbacks[i + 1..];
          return true;
        }
      }
      return false;
    }

    method RemoveRule(i: nat)
      requires Valid() && i < |rules|
      modifies manager, this`contexts, this`rules
      ensures Valid() && Denoted() == old(Denoted())
      ensures rules == old(rules)[..i] + old(rules)[i + 1..]
    {
      ghost var before := LivePatches(manager.regions);
      KeptIs(generate, rules, before);
      ghost var cleared := Invalidate(rules[i].rule);
      KeptRemoved(generate, rules, before, LivePatches(manager.regions), i);
      rules := rules[..i] + rules[i + 1..];
    }

    /** Clears the cache for every rule, then removes them all. */
    method DropRules()
      requires Valid()
      modifies manager, this`contexts, this`rules
      ensures Valid() && Denoted() == old(Denoted()) && rules == []
    {
      var all := rules;
      ghost var before := LivePatches(manager.regions);
      KeptIs(generate, all, before);
      for i := 0 to |all|
        invariant Valid() && Denoted() == old(Denoted()) && rules == all
        invariant forall j :: 0 <= j < i ==> Unaffected(all[j].rule, before, LivePatches(manager.regions))
        invariant Fewer(before, LivePatches(manager.regions))
      {
        ghost var mid := LivePatches(manager.regions);
        ghost var cleared := Invalidate(all[i].rule);
        UnaffectedMore(all, i, before, mid, LivePatches(manager.regions));
      }
      KeptCleared(generate, all, before, LivePatches(manager.regions));
      rules := [];
    }

    /** Removes all rules and VM callbacks, and starts the identifiers over. */
    method DeleteAllInstrumentations()
      requires Valid()
      modifies manager, this`contexts, this`rules, this`vmCallbacks, this`rulesCounter
      ensures Valid() && Denoted() == old(Denoted())
      ensures rules == [] && vmCallbacks == [] && rulesCounter == 0
    {
      vmCallbacks, rulesCounter := [], 0;
      DropRules();
    }
  }

  /** Instrumenting changes no instruction. */
  lemma SameBlock(prog: Program, bb: seq<Patch>, out: seq<Patch>)
    requires IsBasicBlock(prog, bb) && |out| == |bb| && forall i :: 0 <= i < |bb| ==> out[i].insn == bb[i].insn
    ensures IsBasicBlock(prog, out) && BlockRange(out) == BlockRange(bb)
    ensures out[0].insn == bb[0].insn && out[|out| - 1].insn == bb[|bb| - 1].insn
  {
    forall i, j | 0 <= i < j < |out| && j == i + 1
      ensures Successor(prog, out[i].insn, out[j].insn)
    {
      assert Successor(prog, bb[i].insn, bb[j].insn);
    }
  }

  /** What was found out about the basic block holds of the instrumented one. */
  lemma Carried(prog: Program, before: seq<Region>, after: seq<Region>, plain: seq<Patch>, bb: seq<Patch>, patchEnd: nat)
    requires ProgramOk(prog) && IsBasicBlock(prog, plain)
    requires |bb| == |plain| && forall i :: 0 <= i < |bb| ==> bb[i].insn == plain[i].insn
    requires !BadEnd(after, plain, patchEnd)
    requires Overlong(Covers(after), BlockRange(plain), plain[|plain| - 1].insn.key.address)
             <==> OverlongTwice(Covers(before), BlockRange(plain), plain[|plain| - 1].insn.key.address)
    ensures IsBasicBlock(prog, bb) && bb[0].insn.key == plain[0].insn.key
    ensures !BadEnd(after, bb, patchEnd)
    ensures Overlong(Covers(after), BlockRange(bb), bb[|bb| - 1].insn.key.address)
            <==> Gap(prog, before, plain[0].insn.key)
  {
    SameBlock(prog, plain, bb);
    GapIs(prog, before, bb);
  }

  lemma ChainSnoc(prog: Program, bb: seq<Patch>, p: Patch)
    requires bb != [] && Chain(prog, bb) && Successor(prog, bb[|bb| - 1].insn, p.insn)
    requires p.insn.key in prog.insns && prog.insns[p.insn.key] == p.insn
    ensures Chain(prog, bb + [p])
  {
    var all := bb + [p];
    forall i, j | 0 <= i < j < |all| && j == i + 1
      ensures Successor(prog, all[i].insn, all[j].insn)
    {
      if j < |bb| {
        assert all[i] == bb[i] && all[j] == bb[j];
      }
    }
  }

  /** The turns of a run are those of the run without a cache. */
  ghost predicate OnTrack(w: World, script: seq<Turn>, cuts: seq<nat>, g: Machine, hasRan: bool)
    requires ProgramOk(w.prog)
  {
    CutsOk(w, script, cuts, g) && hasRan == RanSome(w, script, cuts, g)
  }

  ghost predicate AlwaysPolite(e: Event) { forall s :: Polite(e, s) }

  lemma Steadily(w: World, step: Semantics, script: seq<Turn>, cuts: seq<nat>, g: Machine)
    requires ProgramOk(w.prog) && CutsOk(w, script, cuts, g)
    requires forall t :: 0 <= t < |script| ==> ExecutesAll(step, script[t]) && AlwaysPolite(script[t].enter)
    ensures AllSteady(w, step, script, cuts, g)
  {
    forall t | 0 <= t < |cuts|
      ensures Steady(w, step, script, cuts, t, g)
    {
      assert Polite(script[t].enter, After(w, script, cuts[..t], g).state.rules);
    }
  }

  ghost predicate NeverStops(turn: Turn) {
    !turn.enter.action.Stop? && !turn.leave.action.Stop? && forall piece, r :: !turn.body(piece, r).action.Stop?
  }

  /** No turn behind which a run goes on has an entry event that stops it. */
  lemma NotStopped(w: World, script: seq<Turn>, cuts: seq<nat>, g: Machine, stop: nat, t: nat)
    requires t < |cuts| <= |script| && GoesOn(w, script, cuts, g, stop)
    ensures !script[t].enter.action.Stop?
  {
    assert cuts[..t + 1][..t] == cuts[..t];
    assert !Ends(w, script, cuts[..t + 1], g, stop);
  }

  /** What a run from an instrumented address shows: code was executed, unless the first entry event
      prevents it; without a request to stop it ends where it should, and only there. */
  lemma RunShown(w: World, script: seq<Turn>, cuts: seq<nat>, g: Machine, stop: nat, o: Outcome, hasRan: bool)
    requires ProgramOk(w.prog) && w.prog.Instruments(g.pc) && Going(o)
    requires OnTrack(w, script, cuts, g, hasRan) && AsFar(w, script, cuts, g, stop, o)
    ensures script != [] && script[0].enter.action.Continue? ==> hasRan
    ensures forall t :: 0 <= t < |script| && script[t].enter.action.Stop? ==> o.Finished? && |cuts| <= t + 1
    ensures o.Finished? && (forall t :: 0 <= t < |script| ==> NeverStops(script[t])) ==> After(w, script, cuts, g).pc == stop
    ensures o.Unfinished? && script != [] ==> After(w, script, cuts, g).pc != stop
    ensures cuts != [] ==> After(w, script, cuts, g).pc == After(w, script, cuts, g).state.regs.gpr.pc
  {
    if script != [] {
      assert cuts[..0] == [];
      assert After(w, script, cuts[..0], g) == g;
      assert cuts[..|cuts|] == cuts;
    }
    var going := if o.Finished? then cuts[..|cuts| - 1] else cuts;
    forall t | 0 <= t < |going|
      ensures !script[t].enter.action.Stop?
    {
      NotStopped(w, script, going, g, stop, t);
    }
    if o.Finished? {
      assert script[|cuts| - 1].enter.action.Stop? || !NeverStops(script[|cuts| - 1]) || After(w, script, cuts, g).pc == stop;
    }
  }

  predicate Going(o: Outcome) { o.Finished? || o.Unfinished? }

  /** A run ends with its first last turn, or when the environment ends. */
  ghost predicate AsFar(w: World, script: seq<Turn>, cuts: seq<nat>, g: Machine, stop: nat, o: Outcome) {
    && |cuts| <= |script|
    && (o.Finished? ==> cuts != [] && Ends(w, script, cuts, g, stop) && GoesOn(w, script, cuts[..|cuts| - 1], g, stop))
    && (o.Unfinished? ==> |cuts| == |script| && GoesOn(w, script, cuts, g, stop))
  }

  /** A turn did what the turn without a cache does. */
  ghost predicate TurnDone(w: World, g: Machine, turn: Turn, n: nat, after: State, action: Action, hasRan: bool)
    requires ProgramOk(w.prog)
  {
    && CutOk(w, g, n) && (after, action) == Turned(w, g, turn, n)
    && hasRan == (!g.Transfers(w) && turn.enter.action.Continue?)
  }

  /** There is nothing to execute. */
  ghost predicate Blind(w: World, g: Machine) { !g.Transfers(w) && !Decodes(w.prog, g.Here()) }

  lemma RequestedMore(calls: seq<Call>, i: nat, s: RuleState)
    requires i < |calls|
    ensures AllRequested(calls[..i + 1], s) == Requested(calls[i], AllRequested(calls[..i], s))
  {
    assert calls[..i + 1][..i] == calls[..i];
  }

  /** What an operation leaves without a cache. */
  ghost function Left(w: World, op: Operation, cuts: seq<nat>, s: State): State {
    match op
    case Request(call) => s.(rules := Requested(call, s.rules))
    case Precache(_, _) => s
    case Execution(start, stop, script) =>
      if !w.prog.Instruments(start) || |script| < |cuts| then s else After(w, script, cuts, Machine(start, s)).state
  }

  /** A run in a history is a whole run. */
  ghost predicate WholeRun(w: World, op: Operation, cuts: seq<nat>, s: State)
    requires ProgramOk(w.prog)
  {
    op.Execution? && w.prog.Instruments(op.start) ==>
      CutsOk(w, op.script, cuts, Machine(op.start, s)) && AsFar(w, op.script, cuts, Machine(op.start, s), op.stop, Finished)
  }

  ghost function LeftBy(w: World, ops: seq<Operation>, runs: seq<seq<nat>>, s: State): State
    requires |runs| == |ops|
  {
    if ops == [] then s
    else
      var m := |ops| - 1;
      Left(w, ops[m], runs[m], LeftBy(w, ops[..m], runs[..m], s))
  }

  /** The requests of a history that is made of them. */
  function Calls(ops: seq<Operation>): seq<Call>
    requires forall i :: 0 <= i < |ops| ==> ops[i].Request?
  {
    seq(|ops|, i requires 0 <= i < |ops| => ops[i].call)
  }

  lemma {:induction false} OnlyRequests(w: World, ops: seq<Operation>, runs: seq<seq<nat>>, s: State)
    requires |runs| == |ops| && forall i :: 0 <= i < |ops| ==> ops[i].Request?
    ensures LeftBy(w, ops, runs, s) == State(s.regs, AllRequested(Calls(ops), s.rules))
    decreases |ops|
  {
    if ops != [] {
      var m := |ops| - 1;
      OnlyRequests(w, ops[..m], runs[..m], s);
      assert Calls(ops)[..m] == Calls(ops[..m]);
    }
  }

  ghost predicate WholeRuns(w: World, ops: seq<Operation>, runs: seq<seq<nat>>, s: State)
    requires ProgramOk(w.prog)
  {
    && |runs| == |ops|
    && forall i :: 0 <= i < |ops| ==> WholeRun(w, ops[i], runs[i], LeftBy(w, ops[..i], runs[..i], s))
  }

  lemma LeftByMore(w: World, ops: seq<Operation>, i: nat, runs: seq<seq<nat>>, s: State, cuts: seq<nat>)
    requires ProgramOk(w.prog) && i < |ops| && WholeRuns(w, ops[..i], runs, s)
    requires WholeRun(w, ops[i], cuts, LeftBy(w, ops[..i], runs, s))
    ensures WholeRuns(w, ops[..i + 1], runs + [cuts], s)
    ensures LeftBy(w, ops[..i + 1], runs + [cuts], s) == Left(w, ops[i], cuts, LeftBy(w, ops[..i], runs, s))
  {
    var a, b := ops[..i + 1], runs + [cuts];
    assert a[..i] == ops[..i] && b[..i] == runs;
    forall t | 0 <= t < |a|
      ensures WholeRun(w, a[t], b[t], LeftBy(w, a[..t], b[..t], s))
    {
      assert a[..t] == ops[..i][..t] && b[..t] == runs[..t];
      if t < i {
        assert a[t] == ops[..i][t] && b[t] == runs[t];
      } else {
        assert runs[..t] == runs && ops[..i][..t] == ops[..i];
      }
    }
  }

  /** The first callback with the identifier is gone, if there was one. */
  ghost predicate CallbackGone(before: seq<nat>, after: seq<nat>, id: int, found: bool) {
    if found then
      exists i :: 0 <= i < |before| && before[i] == id && (forall j :: 0 <= j < i ==> before[j] != id)
                  && after == before[..i] + before[i + 1..]
    else id !in before && after == before
  }

  ghost predicate CallOk(call: Call) { call.AddRule? ==> ValidRule(call.rule) }

  ghost predicate OperationOk(op: Operation) {
    && (op.Request? ==> CallOk(op.call))
    && (op.Execution? ==> forall t :: 0 <= t < |op.script| ==> TurnOk(op.script[t]))
  }

  ghost predicate EventOk(event: Event) {
    forall i :: 0 <= i < |event.calls| ==> CallOk(event.calls[i])
  }

  ghost predicate TurnOk(turn: Turn) { EventOk(turn.enter) && EventOk(turn.leave) && forall piece, r :: EventOk(turn.body(piece, r)) }

  /** What a user may do with a stopped engine. */
  datatype Operation =
    | Request(call: Call)
    | Precache(key: Key, fits: (Region, nat) -> bool)
    | Execution(start: nat, stop: nat, script: seq<Turn>)

  /** `std::upper_bound` for decreasing priorities. */
  method UpperBound(rules: seq<Entry>, priority: int) returns (i: nat)
    ensures i <= |rules|
    ensures Ordered(rules) ==> forall j :: 0 <= j < |rules| ==> (j < i <==> rules[j].rule.priority >= priority)
  {
    i := 0;
    var count := |rules|;
    while count > 0
      invariant 0 <= i && 0 <= count && i + count <= |rules|
      invariant Ordered(rules) ==> forall j :: 0 <= j < i ==> rules[j].rule.priority >= priority
      invariant Ordered(rules) ==> forall j :: i + count <= j < |rules| ==> rules[j].rule.priority < priority
      decreases count
    {
      var step := count / 2;
      if priority > rules[i + step].rule.priority {
        count := step;
      } else {
        i := i + step + 1;
        count := count - step - 1;
      }
    }
  }
}
