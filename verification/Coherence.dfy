/** The cached code and the instrumentation rules (src/Engine/Engine.cpp). */
module Coherence {
  import opened Ranges
  import opened Guest
  import opened PatchConditions
  import opened Blocks
  import opened Programs
  import opened Caches
  import opened Placements
  import opened RegionLists
  import opened BlockWrites
  import opened PageMaps
  import opened Lookups
  import opened Flushes
  import opened Folding

  // ------------------------------------------------------------------------
  // Rules
  // ------------------------------------------------------------------------

  /** The rules an instruction is instrumented with, in the order of the list. */
  ghost function Applying(rules: seq<Entry>, x: Insn): seq<Entry> {
    if rules == [] then []
    else if Applies(rules[0].rule, x) then [rules[0]] + Applying(rules[1..], x)
    else Applying(rules[1..], x)
  }

  lemma {:induction false} ApplyingJoin(a: seq<Entry>, b: seq<Entry>, x: Insn)
    ensures Applying(a + b, x) == Applying(a, x) + Applying(b, x)
  {
    if a == [] {
      assert a + b == b;
    } else {
      assert (a + b)[1..] == a[1..] + b;
      ApplyingJoin(a[1..], b, x);
    }
  }

  /** The positions of the rules that apply, in order. */
  ghost predicate Positions(rules: seq<Entry>, x: Insn, at: seq<nat>) {
    && (forall i, j :: 0 <= i < j < |at| ==> at[i] < at[j])
    && (forall j :: 0 <= j < |at| ==> at[j] < |rules|)
    && forall i :: 0 <= i < |rules| ==> (i in at <==> Applies(rules[i].rule, x))
  }

  /** The entries at the positions. */
  ghost predicate Picks(rules: seq<Entry>, at: seq<nat>, picked: seq<Entry>) {
    |picked| == |at| && forall j :: 0 <= j < |at| ==> at[j] < |rules| && picked[j] == rules[at[j]]
  }

  /** Each of the rules that apply is there once, in the order of the list, and no other. */
  lemma {:induction false} ApplyingExact(rules: seq<Entry>, x: Insn) returns (at: seq<nat>)
    ensures Positions(rules, x, at) && Picks(rules, at, Applying(rules, x))
  {
    if rules == [] {
      return [];
    }
    var front, last := rules[..|rules| - 1], rules[|rules| - 1];
    at := ApplyingExact(front, x);
    assert rules == front + [last];
    ApplyingMore(front, last, x);
    PositionsMore(front, last, x, at);
    PicksMore(front, last, at, Applying(front, x));
    if Applies(last.rule, x) {
      at := at + [|front|];
    }
  }

  lemma ApplyingMore(rules: seq<Entry>, v: Entry, x: Insn)
    ensures Applying(rules + [v], x) == if Applies(v.rule, x) then Applying(rules, x) + [v] else Applying(rules, x)
  {
    ApplyingJoin(rules, [v], x);
    assert [v][1..] == [];
  }

  lemma PicksMore(rules: seq<Entry>, v: Entry, at: seq<nat>, picked: seq<Entry>)
    requires Picks(rules, at, picked)
    ensures Picks(rules + [v], at, picked) && Picks(rules + [v], at + [|rules|], picked + [v])
  {
  }

  lemma PositionsMore(rules: seq<Entry>, v: Entry, x: Insn, at: seq<nat>)
    requires Positions(rules, x, at)
    ensures Positions(rules + [v], x, if Applies(v.rule, x) then at + [|rules|] else at)
  {
    var all, more := rules + [v], if Applies(v.rule, x) then at + [|rules|] else at;
    forall i | 0 <= i < |all|
      ensures i in more <==> Applies(all[i].rule, x)
    {
      assert i < |rules| ==> all[i] == rules[i];
      assert i in more <==> i in at || (i == |rules| && Applies(v.rule, x));
    }
  }

  /** One rule more or less makes a difference exactly to the instructions it applies to. */
  lemma {:induction false} ApplyingIff(a: seq<Entry>, v: Entry, b: seq<Entry>, x: Insn)
    ensures Applying(a + [v] + b, x) == Applying(a + b, x) <==> !Applies(v.rule, x)
  {
    ApplyingJoin(a + [v], b, x);
    ApplyingJoin(a, [v], x);
    ApplyingJoin(a, b, x);
    assert |Applying([v], x)| == if Applies(v.rule, x) then 1 + |Applying([v][1..], x)| else |Applying([v][1..], x)|;
  }

  /** Rules are kept with the highest priority first. */
  ghost predicate Ordered(rules: seq<Entry>) {
    forall i, j :: 0 <= i < j < |rules| ==> rules[i].rule.priority >= rules[j].rule.priority
  }

  /** A new rule goes behind those of at least its priority. */
  function Inserted(rules: seq<Entry>, v: Entry): seq<Entry> {
    if rules == [] || rules[0].rule.priority < v.rule.priority then [v] + rules
    else [rules[0]] + Inserted(rules[1..], v)
  }

  /** The rules without the first one that has the identifier. */
  function Without(rules: seq<Entry>, id: nat): seq<Entry> {
    if rules == [] then []
    else if rules[0].id == id then rules[1..]
    else [rules[0]] + Without(rules[1..], id)
  }

  lemma {:induction false} InsertedAt(rules: seq<Entry>, v: Entry, i: nat)
    requires i <= |rules| && forall j :: 0 <= j < i ==> rules[j].rule.priority >= v.rule.priority
    requires i < |rules| ==> rules[i].rule.priority < v.rule.priority
    ensures Inserted(rules, v) == rules[..i] + [v] + rules[i..]
  {
    if i > 0 {
      InsertedAt(rules[1..], v, i - 1);
      assert rules[..i] == [rules[0]] + rules[1..][..i - 1] && rules[i..] == rules[1..][i - 1..];
    }
  }

  lemma {:induction false} InsertedSomewhere(rules: seq<Entry>, v: Entry) returns (i: nat)
    ensures i <= |rules| && Inserted(rules, v) == rules[..i] + [v] + rules[i..]
  {
    if rules == [] || rules[0].rule.priority < v.rule.priority {
      i := 0;
    } else {
      i := InsertedSomewhere(rules[1..], v);
      assert rules[..i + 1] == [rules[0]] + rules[1..][..i] && rules[i + 1..] == rules[1..][i..];
      i := i + 1;
    }
  }

  lemma {:induction false} WithoutAt(rules: seq<Entry>, id: nat, i: nat)
    requires i < |rules| && rules[i].id == id && forall j :: 0 <= j < i ==> rules[j].id != id
    ensures Without(rules, id) == rules[..i] + rules[i + 1..]
  {
    if i > 0 {
      WithoutAt(rules[1..], id, i - 1);
      assert rules[..i] == [rules[0]] + rules[1..][..i - 1] && rules[i + 1..] == rules[1..][i..];
    }
  }

  lemma {:induction false} WithoutNone(rules: seq<Entry>, id: nat)
    requires forall j :: 0 <= j < |rules| ==> rules[j].id != id
    ensures Without(rules, id) == rules
  {
    if rules != [] {
      WithoutNone(rules[1..], id);
    }
  }

  lemma {:induction false} WithoutSomewhere(rules: seq<Entry>, id: nat) returns (i: nat)
    ensures i <= |rules| && (forall j :: 0 <= j < i ==> rules[j].id != id)
    ensures i < |rules| ==> rules[i].id == id && Without(rules, id) == rules[..i] + rules[i + 1..]
    ensures i == |rules| ==> Without(rules, id) == rules
  {
    i := 0;
    while i < |rules| && rules[i].id != id
      invariant i <= |rules| && forall j :: 0 <= j < i ==> rules[j].id != id
    {
      i := i + 1;
    }
    if i < |rules| {
      WithoutAt(rules, id, i);
    } else {
      WithoutNone(rules, id);
    }
  }

  /** Insertion keeps the priority order, and so does removal. */
  lemma OrderedInsert(rules: seq<Entry>, i: nat, v: Entry)
    requires i <= |rules| && Ordered(rules)
    requires forall j :: 0 <= j < |rules| ==> (j < i <==> rules[j].rule.priority >= v.rule.priority)
    ensures Ordered(rules[..i] + [v] + rules[i..])
  {
    var out := rules[..i] + [v] + rules[i..];
    assert forall k :: 0 <= k < i ==> out[k] == rules[k];
    assert forall k :: i < k < |out| ==> out[k] == rules[k - 1];
  }

  lemma OrderedRemove(rules: seq<Entry>, i: nat)
    requires i < |rules| && Ordered(rules)
    ensures Ordered(rules[..i] + rules[i + 1..])
  {
    var out := rules[..i] + rules[i + 1..];
    assert forall k :: 0 <= k < |out| ==> out[k] == if k < i then rules[k] else rules[k + 1];
  }

  // ------------------------------------------------------------------------
  // Coherence
  // ------------------------------------------------------------------------

  /** The patch generator: the code for an instruction with some rules. */
  type Generator = (Insn, seq<Entry>) -> Patch

  /** The code for an instruction under the rules. */
  ghost function Instrumented(gen: Generator, rules: seq<Entry>, x: Insn): Patch { gen(x, Applying(rules, x)) }

  /** The patches that may still be executed: those of the regions that are not flagged. */
  ghost function LivePatches(regions: seq<Region>): multiset<Patch> {
    Inventory(Flat(Flagged(regions, false)))
  }

  /** Every patch is what instrumenting its instruction now would give. */
  ghost predicate Coherent(gen: Generator, rules: seq<Entry>, patches: multiset<Patch>) {
    forall p :: p in patches ==> p == Instrumented(gen, rules, p.insn)
  }

  /** What is left is unaffected by the rule. */
  ghost predicate Unaffected(rule: Rule, before: multiset<Patch>, after: multiset<Patch>) {
    forall p :: p in after ==> p in before && !Applies(rule, p.insn)
  }

  lemma CoherentAdded(gen: Generator, rules: seq<Entry>, i: nat, v: Entry, before: multiset<Patch>, after: multiset<Patch>)
    requires i <= |rules| && Coherent(gen, rules, before) && Unaffected(v.rule, before, after)
    ensures Coherent(gen, rules[..i] + [v] + rules[i..], after)
  {
    assert rules[..i] + rules[i..] == rules;
    forall p | p in after
      ensures p == Instrumented(gen, rules[..i] + [v] + rules[i..], p.insn)
    {
      ApplyingIff(rules[..i], v, rules[i..], p.insn);
    }
  }

  lemma CoherentRemoved(gen: Generator, rules: seq<Entry>, i: nat, before: multiset<Patch>, after: multiset<Patch>)
    requires i < |rules| && Coherent(gen, rules, before) && Unaffected(rules[i].rule, before, after)
    ensures Coherent(gen, rules[..i] + rules[i + 1..], after)
  {
    assert rules[..i] + [rules[i]] + rules[i + 1..] == rules;
    forall p | p in after
      ensures p == Instrumented(gen, rules[..i] + rules[i + 1..], p.insn)
    {
      ApplyingIff(rules[..i], rules[i], rules[i + 1..], p.insn);
    }
  }

  lemma {:induction false} NoneApplies(rules: seq<Entry>, x: Insn)
    requires forall i :: 0 <= i < |rules| ==> !Applies(rules[i].rule, x)
    ensures Applying(rules, x) == []
  {
    if rules != [] {
      assert !Applies(rules[0].rule, x);
      NoneApplies(rules[1..], x);
    }
  }

  lemma UnaffectedMore(rules: seq<Entry>, i: nat, x: multiset<Patch>, y: multiset<Patch>, z: multiset<Patch>)
    requires i < |rules| && Unaffected(rules[i].rule, y, z) && Fewer(x, y)
    requires forall j :: 0 <= j < i ==> Unaffected(rules[j].rule, x, y)
    ensures forall j :: 0 <= j < i + 1 ==> Unaffected(rules[j].rule, x, z)
    ensures Fewer(x, z)
  {
    forall j | 0 <= j < i + 1
      ensures Unaffected(rules[j].rule, x, z)
    {
      if j < i {
        assert Unaffected(rules[j].rule, x, y);
      }
    }
  }

  /** With all rules invalidated, what is left carries none. */
  lemma CoherentCleared(gen: Generator, rules: seq<Entry>, before: multiset<Patch>, after: multiset<Patch>)
    requires Coherent(gen, rules, before) && Fewer(before, after)
    requires forall i :: 0 <= i < |rules| ==> Unaffected(rules[i].rule, before, after)
    ensures Coherent(gen, [], after)
  {
    forall p | p in after
      ensures p == Instrumented(gen, [], p.insn)
    {
      forall i | 0 <= i < |rules|
        ensures !Applies(rules[i].rule, p.insn)
      {
        assert Unaffected(rules[i].rule, before, after);
      }
      NoneApplies(rules, p.insn);
    }
  }

  /** Writing patches that carry the current rules keeps the cache coherent. */
  lemma {:induction false} CoherentWritten(gen: Generator, rules: seq<Entry>, before: multiset<Patch>, bb: seq<Patch>, n: nat)
    requires n <= |bb| && Coherent(gen, rules, before)
    requires forall j :: 0 <= j < n ==> bb[j] == Instrumented(gen, rules, bb[j].insn)
    ensures Coherent(gen, rules, before + multiset(bb[..n]))
  {
    forall p | p in before + multiset(bb[..n])
      ensures p == Instrumented(gen, rules, p.insn)
    {
      if p !in before {
        assert p in bb[..n];
      }
    }
  }

  // ------------------------------------------------------------------------
  // What holds of the rules and the patches that may be executed
  // ------------------------------------------------------------------------

  ghost predicate GeneratorOk(gen: Generator) {
    forall x, es :: gen(x, es).insn == x && gen(x, es).rules == es && WellFormed(gen(x, es))
  }

  ghost predicate RulesValid(rules: seq<Entry>) {
    Ordered(rules) && forall i :: 0 <= i < |rules| ==> ValidRule(rules[i].rule)
  }

  /** The rules are in order, and what may be executed carries them; folded. */
  ghost predicate RulesKept(gen: Generator, rules: seq<Entry>, live: multiset<Patch>) {
    forall u {:trigger Asked(ARule, u)} :: Asked(ARule, u) ==> GeneratorOk(gen) && RulesValid(rules) && Coherent(gen, rules, live)
  }

  lemma KeptIs(gen: Generator, rules: seq<Entry>, live: multiset<Patch>)
    ensures RulesKept(gen, rules, live) <==> GeneratorOk(gen) && RulesValid(rules) && Coherent(gen, rules, live)
  {
    assert Asked(ARule, 0);
  }

  lemma KeptFewer(gen: Generator, rules: seq<Entry>, x: multiset<Patch>, y: multiset<Patch>)
    requires RulesKept(gen, rules, x) && Fewer(x, y)
    ensures RulesKept(gen, rules, y)
  {
    KeptIs(gen, rules, x);
    KeptIs(gen, rules, y);
  }

  /** A rule may be entered once no live patch is subject to it. */
  lemma KeptInserted(gen: Generator, rules: seq<Entry>, x: multiset<Patch>, y: multiset<Patch>, i: nat, v: Entry)
    requires RulesKept(gen, rules, x) && Unaffected(v.rule, x, y) && ValidRule(v.rule) && i <= |rules|
    requires forall j :: 0 <= j < |rules| ==> (j < i <==> rules[j].rule.priority >= v.rule.priority)
    ensures Inserted(rules, v) == rules[..i] + [v] + rules[i..] && RulesKept(gen, rules[..i] + [v] + rules[i..], y)
  {
    KeptIs(gen, rules, x);
    CoherentAdded(gen, rules, i, v, x, y);
    OrderedInsert(rules, i, v);
    InsertedAt(rules, v, i);
    KeptIs(gen, rules[..i] + [v] + rules[i..], y);
  }

  lemma KeptRemoved(gen: Generator, rules: seq<Entry>, x: multiset<Patch>, y: multiset<Patch>, i: nat)
    requires RulesKept(gen, rules, x) && i < |rules| && Unaffected(rules[i].rule, x, y)
    ensures RulesKept(gen, rules[..i] + rules[i + 1..], y)
  {
    KeptIs(gen, rules, x);
    CoherentRemoved(gen, rules, i, x, y);
    OrderedRemove(rules, i);
    KeptIs(gen, rules[..i] + rules[i + 1..], y);
  }

  lemma KeptCleared(gen: Generator, rules: seq<Entry>, x: multiset<Patch>, y: multiset<Patch>)
    requires RulesKept(gen, rules, x) && Fewer(x, y)
    requires forall i :: 0 <= i < |rules| ==> Unaffected(rules[i].rule, x, y)
    ensures RulesKept(gen, [], y)
  {
    KeptIs(gen, rules, x);
    CoherentCleared(gen, rules, x, y);
    KeptIs(gen, [], y);
  }

  lemma KeptWritten(gen: Generator, rules: seq<Entry>, x: multiset<Patch>, bb: seq<Patch>, n: nat)
    requires RulesKept(gen, rules, x) && n <= |bb|
    requires forall j :: 0 <= j < n ==> bb[j] == Instrumented(gen, rules, bb[j].insn)
    ensures RulesKept(gen, rules, x + multiset(bb[..n]))
  {
    KeptIs(gen, rules, x);
    CoherentWritten(gen, rules, x, bb, n);
    KeptIs(gen, rules, x + multiset(bb[..n]));
  }

  // ------------------------------------------------------------------------
  // Patches of regions
  // ------------------------------------------------------------------------

  ghost predicate HasPatch(regions: seq<Region>, r: nat, b: nat, i: nat, p: Patch) {
    r < |regions| && b < |regions[r].blocks| && i < |regions[r].blocks[b].patches| && regions[r].blocks[b].patches[i] == p
  }

  /** Every cached patch is the code for its instruction under the rules. */
  ghost predicate AllCarry(gen: Generator, rules: seq<Entry>, regions: seq<Region>) {
    forall r, b, i, p :: HasPatch(regions, r, b, i, p) ==> p == Instrumented(gen, rules, p.insn)
  }

  ghost predicate CachedOnce(regions: seq<Region>) {
    forall r, b, i, p, r', b', i', p' ::
      HasPatch(regions, r, b, i, p) && HasPatch(regions, r', b', i', p') && p.insn.key == p'.insn.key ==>
        r == r' && b == b' && i == i'
  }

  lemma CoherentEverywhere(gen: Generator, rules: seq<Entry>, regions: seq<Region>)
    requires Coherent(gen, rules, Inventory(Flat(regions)))
    ensures AllCarry(gen, rules, regions)
  {
    forall r, b, i, p | HasPatch(regions, r, b, i, p)
      ensures p == Instrumented(gen, rules, p.insn)
    {
      PatchIn(regions, r, b, i, p);
    }
  }

  lemma OnceEverywhere(prog: Program, regions: seq<Region>)
    requires ProgramOk(prog) && CacheOk(prog, regions)
    ensures CachedOnce(regions)
  {
    forall r, b, i, p, r', b', i', p' |
      HasPatch(regions, r, b, i, p) && HasPatch(regions, r', b', i', p') && p.insn.key == p'.insn.key
      ensures r == r' && b == b' && i == i'
    {
      NoDuplicate(prog, regions, r, b, i, r', b', i');
    }
  }

  lemma {:induction false} InventoryMember(blocks: seq<Block>, p: Patch)
    ensures p in Inventory(blocks) <==> exists b, i :: 0 <= b < |blocks| && 0 <= i < |blocks[b].patches| && blocks[b].patches[i] == p
  {
    if blocks != [] {
      InventoryMember(blocks[1..], p);
      if p in Inventory(blocks) {
        if p in blocks[0].patches {
          var i :| 0 <= i < |blocks[0].patches| && blocks[0].patches[i] == p;
        } else {
          var b, i :| 0 <= b < |blocks[1..]| && 0 <= i < |blocks[1..][b].patches| && blocks[1..][b].patches[i] == p;
          assert blocks[b + 1].patches[i] == p;
        }
      }
      if b, i :| 0 <= b < |blocks| && 0 <= i < |blocks[b].patches| && blocks[b].patches[i] == p {
        if b > 0 {
          assert blocks[1..][b - 1].patches[i] == p;
        }
      }
    }
  }

  lemma {:induction false} PatchOf(regions: seq<Region>, p: Patch) returns (r: nat, b: nat, i: nat)
    requires p in Inventory(Flat(regions))
    ensures HasPatch(regions, r, b, i, p)
  {
    InventoryJoin(regions[0].blocks, Flat(regions[1..]));
    if p in Inventory(regions[0].blocks) {
      InventoryMember(regions[0].blocks, p);
      r := 0;
      b, i :| 0 <= b < |regions[0].blocks| && 0 <= i < |regions[0].blocks[b].patches| && regions[0].blocks[b].patches[i] == p;
    } else {
      r, b, i := PatchOf(regions[1..], p);
      r := r + 1;
    }
  }

  lemma {:induction false} PatchIn(regions: seq<Region>, r: nat, b: nat, i: nat, p: Patch)
    requires HasPatch(regions, r, b, i, p)
    ensures p in Inventory(Flat(regions))
  {
    InventoryJoin(regions[0].blocks, Flat(regions[1..]));
    if r == 0 {
      InventoryMember(regions[0].blocks, p);
    } else {
      PatchIn(regions[1..], r - 1, b, i, p);
    }
  }

  /** A live patch sits in a region that is not flagged and covers its instruction. */
  lemma LiveCovered(prog: Program, regions: seq<Region>, p: Patch) returns (q: Region)
    requires ProgramOk(prog) && CacheOk(prog, regions) && p in LivePatches(regions)
    ensures q in regions && !q.toFlush && q.covered.Has(p.insn.key.address) && p.insn.NoWrap()
    ensures p in Inventory(q.blocks)
  {
    FlaggedOk(prog, regions, false);
    FlaggedMembers(regions, false);
    var kept := Flagged(regions, false);
    var r, b, i := PatchOf(kept, p);
    q := kept[r];
    GoodOne(prog, kept, r);
    assert InstListed(q.blocks, q.instCache, b, i);
    assert Decoded(prog, q.blocks[b]);
    InventoryMember(q.blocks, p);
  }

  lemma {:induction false} RegionLive(regions: seq<Region>, q: Region, p: Patch)
    requires q in regions && !q.toFlush && p in Inventory(q.blocks)
    ensures p in LivePatches(regions)
  {
    FlaggedMembers(regions, false);
    var kept := Flagged(regions, false);
    assert q in kept;
    var r :| 0 <= r < |kept| && kept[r] == q;
    InventoryMember(q.blocks, p);
    var b, i :| 0 <= b < |q.blocks| && 0 <= i < |q.blocks[b].patches| && q.blocks[b].patches[i] == p;
    PatchIn(kept, r, b, i, p);
  }

  /** Clearing the affected range of a rule leaves no patch the rule applies to: a patch it
      applies to is in the range, and the region that covers the patch overlaps the range. */
  lemma ClearedUnaffected(prog: Program, x: seq<Region>, y: seq<Region>, ranges: seq<Range>, rule: Rule)
    requires ProgramOk(prog) && CacheOk(prog, x) && Cleared(x, y, ranges)
    requires forall a :: Mem(ranges, a) <==> RuleAffected(rule, a)
    ensures Unaffected(rule, LivePatches(x), LivePatches(y))
  {
    FlagsKeepCache(prog, x, y);
    forall p | p in LivePatches(y)
      ensures p in LivePatches(x) && !Applies(rule, p.insn)
    {
      var q := LiveCovered(prog, y, p);
      var i :| 0 <= i < |y| && y[i] == q;
      ClearedApart(x, y, ranges, i, p.insn.key.address);
      RuleAffectedSound(rule, p.insn);
      assert x[i] in x && !x[i].toFlush && x[i].blocks == q.blocks;
      RegionLive(x, x[i], p);
    }
  }

  ghost predicate NoneIn(patches: multiset<Patch>, range: Range) {
    forall p :: p in patches ==> !range.Has(p.insn.key.address)
  }

  /** Clearing a range leaves no instruction that starts in it. */
  lemma ClearedRange(prog: Program, x: seq<Region>, y: seq<Region>, range: Range)
    requires ProgramOk(prog) && CacheOk(prog, x) && Cleared(x, y, [range])
    ensures NoneIn(LivePatches(y), range)
  {
    FlagsKeepCache(prog, x, y);
    forall p | p in LivePatches(y)
      ensures !range.Has(p.insn.key.address)
    {
      var q := LiveCovered(prog, y, p);
      var i :| 0 <= i < |y| && y[i] == q;
      ClearedApart(x, y, [range], i, p.insn.key.address);
      assert [range][0] == range;
    }
  }

  /** Flagging more regions leaves fewer patches. */
  lemma FewerLive(prog: Program, x: seq<Region>, y: seq<Region>)
    requires ProgramOk(prog) && CacheOk(prog, x) && SameButFlags(x, y)
    requires forall i :: 0 <= i < |x| && x[i].toFlush ==> y[i].toFlush
    ensures Fewer(LivePatches(x), LivePatches(y))
  {
    FlagsKeepCache(prog, x, y);
    forall p | p in LivePatches(y)
      ensures p in LivePatches(x)
    {
      var q := LiveCovered(prog, y, p);
      var i :| 0 <= i < |y| && y[i] == q;
      assert x[i] in x && !x[i].toFlush && x[i].blocks == q.blocks;
      RegionLive(x, x[i], p);
    }
  }

  /** A flush erases nothing that may still be executed. */
  lemma {:induction false} FlushLive(regions: seq<Region>)
    ensures LivePatches(Flagged(regions, false)) == LivePatches(regions)
    ensures FlagsOk(Flagged(regions, false), false)
  {
    FlaggedMembers(regions, false);
    var kept := Flagged(regions, false);
    forall i | 0 <= i < |kept|
      ensures !kept[i].toFlush
    {
      assert kept[i] in kept;
    }
    AllUnflagged(kept);
  }

  lemma {:induction false} NoFlags(regions: seq<Region>)
    requires FlagsOk(regions, false)
    ensures LivePatches(regions) == Inventory(Flat(regions))
  {
    AllUnflagged(regions);
  }

  /** No patch is new. */
  ghost predicate Fewer(before: multiset<Patch>, after: multiset<Patch>) {
    forall p :: p in after ==> p in before
  }

  lemma {:induction false} NothingLive(regions: seq<Region>)
    requires forall i :: 0 <= i < |regions| ==> regions[i].toFlush
    ensures LivePatches(regions) == multiset{}
  {
    if regions != [] {
      assert regions[0].toFlush;
      NothingLive(regions[1..]);
    }
  }

  lemma SameLivePages(x: seq<Region>, y: seq<Region>)
    requires SameButFlags(x, y)
    ensures LivePages(y) == LivePages(x)
  {
    assert forall i :: 0 <= i < |x| ==> y[i].blocks == x[i].blocks;
  }

  // ------------------------------------------------------------------------
  // What is executed
  // ------------------------------------------------------------------------

  /** The code of the first n instructions of the basic block at an instruction, instrumented now. */
  ghost function Fresh(prog: Program, gen: Generator, rules: seq<Entry>, k: Key, n: nat): seq<Patch>
    decreases n
  {
    if n == 0 || k !in prog.insns then []
    else [Instrumented(gen, rules, prog.insns[k])] + Fresh(prog, gen, rules, NextKey(prog.insns[k]), n - 1)
  }

  /** The first n instructions of the basic block at an instruction. */
  ghost function Insns(prog: Program, k: Key, n: nat): seq<Insn>
    decreases n
  {
    if n == 0 || k !in prog.insns then []
    else [prog.insns[k]] + Insns(prog, NextKey(prog.insns[k]), n - 1)
  }

  lemma {:induction false} FreshAt(prog: Program, gen: Generator, rules: seq<Entry>, k: Key, n: nat)
    ensures |Fresh(prog, gen, rules, k, n)| == |Insns(prog, k, n)|
    ensures forall i :: 0 <= i < |Insns(prog, k, n)| ==>
              Fresh(prog, gen, rules, k, n)[i] == Instrumented(gen, rules, Insns(prog, k, n)[i])
    decreases n
  {
    if n > 0 && k in prog.insns {
      FreshAt(prog, gen, rules, NextKey(prog.insns[k]), n - 1);
    }
  }

  /** The instructions of a basic block are those at its first one. */
  lemma {:induction false} BlockInsns(prog: Program, ps: seq<Patch>)
    requires ProgramOk(prog) && IsBasicBlock(prog, ps)
    ensures BlockLength(prog, ps[0].insn.key) == |ps| == |Insns(prog, ps[0].insn.key, |ps|)|
    ensures forall j :: 0 <= j < |ps| ==> Insns(prog, ps[0].insn.key, |ps|)[j] == ps[j].insn
    decreases |ps|
  {
    if |ps| > 1 {
      ChainStep(prog, ps, 0);
      ChainSlice(prog, ps, 1, |ps|);
      assert ps[1..|ps|] == ps[1..];
      BlockInsns(prog, ps[1..]);
      var all, rest := Insns(prog, ps[0].insn.key, |ps|), Insns(prog, ps[1].insn.key, |ps| - 1);
      assert all == [ps[0].insn] + rest;
      forall j | 0 <= j < |ps|
        ensures all[j] == ps[j].insn
      {
        assert j > 0 ==> rest[j - 1] == ps[1..][j - 1].insn;
      }
    } else {
      assert Insns(prog, ps[0].insn.key, 1) == [ps[0].insn] + Insns(prog, NextKey(ps[0].insn), 0);
    }
  }

  /** The instrumented part of a basic block is the beginning of what instrumenting all of it gives. */
  lemma InstrumentedPart(prog: Program, gen: Generator, rules: seq<Entry>, bb: seq<Patch>, n: nat)
    requires ProgramOk(prog) && IsBasicBlock(prog, bb) && n <= |bb|
    requires forall i :: 0 <= i < n ==> bb[i] == Instrumented(gen, rules, bb[i].insn)
    ensures bb[..n] <= Fresh(prog, gen, rules, bb[0].insn.key, BlockLength(prog, bb[0].insn.key))
  {
    BlockInsns(prog, bb);
    FreshAt(prog, gen, rules, bb[0].insn.key, |bb|);
  }

  /** Two lists of rules give the same code exactly when the same of them apply to each instruction. */
  lemma FreshIff(prog: Program, gen: Generator, a: seq<Entry>, b: seq<Entry>, k: Key, n: nat)
    requires GeneratorOk(gen)
    ensures Fresh(prog, gen, a, k, n) == Fresh(prog, gen, b, k, n)
            <==> forall i :: 0 <= i < |Insns(prog, k, n)| ==> Applying(a, Insns(prog, k, n)[i]) == Applying(b, Insns(prog, k, n)[i])
  {
    var xs, x, y := Insns(prog, k, n), Fresh(prog, gen, a, k, n), Fresh(prog, gen, b, k, n);
    FreshAt(prog, gen, a, k, n);
    FreshAt(prog, gen, b, k, n);
    forall i | 0 <= i < |xs|
      ensures x[i] == y[i] <==> Applying(a, xs[i]) == Applying(b, xs[i])
    {
      assert x[i].rules == Applying(a, xs[i]) && y[i].rules == Applying(b, xs[i]);
    }
  }

  /** The rule applies to none of the first n instructions. */
  ghost predicate Untouched(prog: Program, rule: Rule, k: Key, n: nat) {
    forall i :: 0 <= i < |Insns(prog, k, n)| ==> !Applies(rule, Insns(prog, k, n)[i])
  }

  /** So it makes none to the code of some instructions exactly when it applies to none of them. */
  lemma OneRuleIff(prog: Program, gen: Generator, a: seq<Entry>, v: Entry, b: seq<Entry>, k: Key, n: nat)
    requires GeneratorOk(gen)
    ensures Fresh(prog, gen, a + [v] + b, k, n) == Fresh(prog, gen, a + b, k, n)
            <==> Untouched(prog, v.rule, k, n)
  {
    FreshIff(prog, gen, a + [v] + b, a + b, k, n);
    forall i | 0 <= i < |Insns(prog, k, n)|
      ensures Applying(a + [v] + b, Insns(prog, k, n)[i]) == Applying(a + b, Insns(prog, k, n)[i])
              <==> !Applies(v.rule, Insns(prog, k, n)[i])
    {
      ApplyingIff(a, v, b, Insns(prog, k, n)[i]);
    }
  }

  /** The code of a chain that carries the rules is the code its instructions would get now. */
  lemma {:induction false} FreshChain(prog: Program, gen: Generator, rules: seq<Entry>, ps: seq<Patch>)
    requires ProgramOk(prog) && ps != [] && Chain(prog, ps)
    requires forall i :: 0 <= i < |ps| ==> ps[i] == Instrumented(gen, rules, ps[i].insn)
    ensures ps == Fresh(prog, gen, rules, ps[0].insn.key, |ps|)
    ensures |ps| <= BlockLength(prog, ps[0].insn.key)
    decreases |ps|
  {
    if |ps| > 1 {
      ChainStep(prog, ps, 0);
      ChainSlice(prog, ps, 1, |ps|);
      FreshChain(prog, gen, rules, ps[1..]);
      assert ps == [ps[0]] + ps[1..];
    } else {
      assert Fresh(prog, gen, rules, NextKey(prog.insns[ps[0].insn.key]), 0) == [];
    }
  }

  /** The sequence a lookup hands out for an instruction: its region, descriptor, page and code. */
  ghost predicate Picked(prog: Program, regions: seq<Region>, r: nat, k: Key, loc: SeqLoc, base: nat, code: seq<Patch>)
    requires ProgramOk(prog)
  {
    && r < |regions| && Selected(prog, regions[r], k, loc)
    && var b := regions[r].blocks[loc.blockIdx];
       && b.base == base && b.seqs[loc.seqID].startInstID <= b.seqs[loc.seqID].endInstID < |b.patches|
       && code == SequenceCode(b, loc.seqID)
  }

  /** Whatever getProgrammedExecBlock selects is a part of the basic block, from the instruction on,
      as instrumented now, as long as the cache is coherent. */
  lemma {:induction false} SelectedFresh(prog: Program, gen: Generator, regions: seq<Region>, r: nat, b: Block, k: Key, loc: SeqLoc, rules: seq<Entry>)
    requires ProgramOk(prog) && CacheOk(prog, regions) && r < |regions| && Selected(prog, regions[r], k, loc)
    requires Coherent(gen, rules, Inventory(Flat(regions))) && b == regions[r].blocks[loc.blockIdx]
    ensures b.seqs[loc.seqID].startInstID <= b.seqs[loc.seqID].endInstID < |b.patches|
    ensures k in prog.insns && 1 <= |SequenceCode(b, loc.seqID)| <= BlockLength(prog, k)
    ensures SequenceCode(b, loc.seqID) == Fresh(prog, gen, rules, k, |SequenceCode(b, loc.seqID)|)
    ensures loc.seqStart == k.address && loc.bbEnd == BlockEnd(prog, k)
    ensures loc.seqEnd == SequenceCode(b, loc.seqID)[|SequenceCode(b, loc.seqID)| - 1].insn.End()
  {
    GoodOne(prog, regions, r);
    CodeChain(prog, b, loc.seqID);
    CodeEnds(b, loc.seqID);
    CoherentCode(prog, gen, regions, r, loc, b, rules);
    FreshChain(prog, gen, rules, SequenceCode(b, loc.seqID));
  }

  lemma CodeChain(prog: Program, b: Block, s: nat)
    requires Shaped(b) && Decoded(prog, b) && s < |b.seqs|
    ensures b.seqs[s].startInstID <= b.seqs[s].endInstID < |b.patches| && Chain(prog, SequenceCode(b, s))
  {
    SequenceChain(prog, b, s);
  }

  lemma CodeEnds(b: Block, s: nat)
    requires Shaped(b) && s < |b.seqs| && b.seqs[s].startInstID <= b.seqs[s].endInstID < |b.patches|
    ensures SequenceCode(b, s) != []
    ensures SequenceCode(b, s)[0].insn == StartInsn(b, s)
    ensures SequenceCode(b, s)[|SequenceCode(b, s)| - 1].insn == EndInsn(b, s)
  {
  }

  lemma {:induction false} CoherentCode(prog: Program, gen: Generator, regions: seq<Region>, r: nat, loc: SeqLoc, b: Block, rules: seq<Entry>)
    requires r < |regions| && loc.blockIdx < |regions[r].blocks| && b == regions[r].blocks[loc.blockIdx]
    requires loc.seqID < |b.seqs| && b.seqs[loc.seqID].startInstID <= b.seqs[loc.seqID].endInstID < |b.patches|
    requires Coherent(gen, rules, Inventory(Flat(regions)))
    ensures forall i :: 0 <= i < |SequenceCode(b, loc.seqID)| ==>
              SequenceCode(b, loc.seqID)[i] == Instrumented(gen, rules, SequenceCode(b, loc.seqID)[i].insn)
  {
    var start, ps := b.seqs[loc.seqID].startInstID, SequenceCode(b, loc.seqID);
    forall i | 0 <= i < |ps|
      ensures ps[i] == Instrumented(gen, rules, ps[i].insn)
    {
      assert ps[i] == b.patches[start + i];
      PatchIn(regions, r, loc.blockIdx, start + i, ps[i]);
    }
  }

  /** All that a lookup means for the cache, from what it promises. */
  lemma {:induction false} SelectedThere(prog: Program, gen: Generator, rules: seq<Entry>, x: seq<Region>, y: seq<Region>, r: nat, k: Key, loc: SeqLoc)
    requires ProgramOk(prog) && CacheOk(prog, y) && FlagsOk(x, false) && RulesKept(gen, rules, LivePatches(x))
    requires OnlySplit(x, y, r, k) && Selected(prog, y[r], k, loc)
    ensures LivePages(y) == LivePages(x) && FlagsOk(y, false) && LivePatches(y) == LivePatches(x)
    ensures y[r].blocks[loc.blockIdx].base in LivePages(y)
    ensures var b := y[r].blocks[loc.blockIdx];
            && b.seqs[loc.seqID].startInstID <= b.seqs[loc.seqID].endInstID < |b.patches|
            && k in prog.insns && 1 <= |SequenceCode(b, loc.seqID)| <= BlockLength(prog, k)
            && SequenceCode(b, loc.seqID) == Fresh(prog, gen, rules, k, |SequenceCode(b, loc.seqID)|)
  {
    NoFlags(x);
    LookupKeeps(x, y, r, k);
    NoFlags(y);
    KeptIs(gen, rules, LivePatches(x));
    SelectedFresh(prog, gen, y, r, y[r].blocks[loc.blockIdx], k, loc, rules);
  }

  /** A lookup changes no patch. */
  lemma {:induction false} SplitInventory(x: seq<Block>, y: seq<Block>)
    requires |x| == |y| && forall b :: 0 <= b < |x| ==> y[b].patches == x[b].patches
    ensures Inventory(y) == Inventory(x)
  {
    if x != [] {
      SplitInventory(x[1..], y[1..]);
    }
  }

  lemma {:induction false} LookupKeeps(x: seq<Region>, y: seq<Region>, r: nat, k: Key)
    requires OnlySplit(x, y, r, k)
    ensures Inventory(Flat(y)) == Inventory(Flat(x))
    ensures LivePages(y) == LivePages(x)
    ensures forall f :: FlagsOk(x, f) ==> FlagsOk(y, f)
  {
    forall b | 0 <= b < |x[r].blocks|
      ensures y[r].blocks[b].patches == x[r].blocks[b].patches && y[r].blocks[b].base == x[r].blocks[b].base
    {
      assert BlockSplit(x[r].blocks[b], y[r].blocks[b]);
    }
    SplitInventory(x[r].blocks, y[r].blocks);
    InventoryAtRegion(x, r, y[r], multiset{});
    LivePagesSame(x, y, r);
  }

  lemma {:induction false} PagesStay(x: seq<Region>, y: seq<Region>)
    requires Pages(Flat(x)) <= Pages(Flat(y))
    ensures LivePages(x) <= LivePages(y)
  {
    forall a | a in LivePages(x)
      ensures a in LivePages(y)
    {
      var i, b :| 0 <= i < |x| && 0 <= b < |x[i].blocks| && x[i].blocks[b].base == a;
      FlatHas(x, i, b);
      if a !in LivePages(y) {
        LiveAreFlat(y, a);
      }
    }
  }

  lemma {:induction false} FlatHas(regions: seq<Region>, i: nat, b: nat)
    requires i < |regions| && b < |regions[i].blocks|
    ensures regions[i].blocks[b].base in Pages(Flat(regions))
  {
    FlatAt(regions, i);
    var x, y := Flat(regions[..i]), regions[i].blocks + Flat(regions[i + 1..]);
    PagesJoin(x, y);
    PagesJoin(regions[i].blocks, Flat(regions[i + 1..]));
    PagesHas(regions[i].blocks, b);
  }

  lemma LivePagesSame(x: seq<Region>, y: seq<Region>, r: nat)
    requires r < |x| == |y| && y == x[r := y[r]] && |y[r].blocks| == |x[r].blocks|
    requires forall b :: 0 <= b < |x[r].blocks| ==> y[r].blocks[b].base == x[r].blocks[b].base
    ensures LivePages(y) == LivePages(x)
  {
    forall a
      ensures a in LivePages(y) <==> a in LivePages(x)
    {
      if i, b :| 0 <= i < |x| && 0 <= b < |x[i].blocks| && x[i].blocks[b].base == a {
        assert y[i].blocks[b].base == a;
      }
      if i, b :| 0 <= i < |y| && 0 <= b < |y[i].blocks| && y[i].blocks[b].base == a {
        assert x[i].blocks[b].base == a;
      }
    }
  }
}
