/** The guest code as a fixed decoder sees it, and its basic blocks (src/Engine/Engine.cpp,
    Engine::patch). */
module Programs {
  import opened Ranges
  import opened Guest
  import opened Blocks

  /** The decodable instructions, and the instrumented ranges. An address that is not a key stops the
      disassembler, and so may the end of a range. */
  datatype Program = Program(insns: map<Key, Insn>, ranges: seq<Range>) {

    predicate Instruments(a: nat) { exists i :: 0 <= i < |ranges| && ranges[i].Has(a) }
  }

  ghost predicate ProgramOk(prog: Program) {
    forall k :: k in prog.insns ==> prog.insns[k].key == k && prog.insns[k].NoWrap()
  }

  function NextKey(x: Insn): Key { Key(x.End(), x.key.mode) }

  /** Where decoding from an address stops: at the end of the instrumented range it is in. From an
      address in no range it does not stop. */
  function DecodeLimit(ranges: seq<Range>, a: nat): int {
    if ranges == [] then WORD else if ranges[0].Has(a) then ranges[0].end else DecodeLimit(ranges[1..], a)
  }

  /** Decoding up to a limit goes on behind the instruction. */
  predicate Goes(prog: Program, x: Insn, limit: int) {
    !x.modifiesPC && NextKey(x) in prog.insns && prog.insns[NextKey(x)].End() <= limit
  }

  /** The limit for an instruction inside a basic block: the end of its own range, unless it reaches
      across that. */
  function Reach(prog: Program, x: Insn): int {
    var limit := DecodeLimit(prog.ranges, x.key.address);
    if x.End() <= limit then limit else WORD
  }

  /** A basic block goes on behind the instruction. */
  predicate Continues(prog: Program, x: Insn) { Goes(prog, x, Reach(prog, x)) }

  /** Where the basic block that an instruction is in ends. */
  ghost function BlockEnd(prog: Program, k: Key): nat
    requires ProgramOk(prog) && k in prog.insns
    decreases WORD - k.address
  {
    var x := prog.insns[k];
    if Continues(prog, x) then BlockEnd(prog, NextKey(x)) else x.End()
  }

  /** The last instruction of the basic block that an instruction is in. */
  ghost function LastKey(prog: Program, k: Key): Key
    requires ProgramOk(prog) && k in prog.insns
    decreases WORD - k.address
  {
    var x := prog.insns[k];
    if Continues(prog, x) then LastKey(prog, NextKey(x)) else k
  }

  /** How many instructions the basic block has from an instruction on. */
  ghost function BlockLength(prog: Program, k: Key): nat
    requires ProgramOk(prog) && k in prog.insns
    decreases WORD - k.address
  {
    var x := prog.insns[k];
    if Continues(prog, x) then 1 + BlockLength(prog, NextKey(x)) else 1
  }

  predicate Successor(prog: Program, x: Insn, y: Insn) { Continues(prog, x) && y.key == NextKey(x) }

  /** The patches of consecutive instructions, as decoded. */
  ghost predicate Chain(prog: Program, ps: seq<Patch>) {
    && (forall i :: 0 <= i < |ps| ==> ps[i].insn.key in prog.insns && prog.insns[ps[i].insn.key] == ps[i].insn)
    && (forall i, j :: 0 <= i < j < |ps| && j == i + 1 ==> Successor(prog, ps[i].insn, ps[j].insn))
  }

  /** What Engine::patch returns: a chain that goes on as long as it can. */
  ghost predicate IsBasicBlock(prog: Program, ps: seq<Patch>) {
    && ps != [] && Chain(prog, ps)
    && !Continues(prog, ps[|ps| - 1].insn)
  }

  /** Some basic block ends at the address. */
  ghost predicate EndsBlock(prog: Program, e: int) {
    exists k :: k in prog.insns && !Continues(prog, prog.insns[k]) && prog.insns[k].End() == e
  }

  lemma BlockEnds(prog: Program, ps: seq<Patch>)
    requires IsBasicBlock(prog, ps)
    ensures EndsBlock(prog, ps[|ps| - 1].insn.End())
  {
    assert ps[|ps| - 1].insn.key in prog.insns;
  }

  lemma ChainStep(prog: Program, ps: seq<Patch>, i: nat)
    requires Chain(prog, ps) && i + 1 < |ps|
    ensures Continues(prog, ps[i].insn) && NextKey(ps[i].insn) == ps[i + 1].insn.key
  {
    assert Successor(prog, ps[i].insn, ps[i + 1].insn);
  }

  /** Addresses grow along a chain, and the mode does not change. */
  lemma {:induction false} ChainGrows(prog: Program, ps: seq<Patch>, i: nat, j: nat)
    requires ProgramOk(prog) && Chain(prog, ps) && i < j < |ps|
    ensures ps[i].insn.key.address < ps[i].insn.End() <= ps[j].insn.key.address < ps[j].insn.End()
    ensures ps[i].insn.key.mode == ps[j].insn.key.mode
    decreases j - i
  {
    ChainStep(prog, ps, i);
    if i + 1 < j {
      ChainGrows(prog, ps, i + 1, j);
    }
  }

  lemma ChainDistinct(prog: Program, ps: seq<Patch>)
    requires ProgramOk(prog) && Chain(prog, ps)
    ensures forall i, j :: 0 <= i < |ps| && 0 <= j < |ps| && ps[i].insn.key == ps[j].insn.key ==> i == j
  {
    forall i, j | 0 <= i < j < |ps|
      ensures ps[i].insn.key != ps[j].insn.key
    {
      ChainGrows(prog, ps, i, j);
    }
  }

  /** All instructions of a chain are in the same basic block. */
  lemma {:induction false} ChainEnd(prog: Program, ps: seq<Patch>, i: nat, j: nat)
    requires ProgramOk(prog) && Chain(prog, ps) && i <= j < |ps|
    ensures BlockEnd(prog, ps[i].insn.key) == BlockEnd(prog, ps[j].insn.key)
    decreases j - i
  {
    if i < j {
      ChainStep(prog, ps, i);
      ChainEnd(prog, ps, i + 1, j);
    }
  }

  /** The end of the last instruction of a basic block is the end of every block suffix. */
  lemma {:induction false} BasicBlockEnd(prog: Program, ps: seq<Patch>, i: nat)
    requires ProgramOk(prog) && IsBasicBlock(prog, ps) && i < |ps|
    ensures BlockEnd(prog, ps[i].insn.key) == ps[|ps| - 1].insn.End()
  {
    ChainEnd(prog, ps, i, |ps| - 1);
  }

  lemma {:induction false} BasicBlockLast(prog: Program, ps: seq<Patch>, i: nat)
    requires ProgramOk(prog) && IsBasicBlock(prog, ps) && i < |ps|
    ensures LastKey(prog, ps[i].insn.key) == ps[|ps| - 1].insn.key
    decreases |ps| - i
  {
    if i + 1 < |ps| {
      ChainStep(prog, ps, i);
      BasicBlockLast(prog, ps, i + 1);
    }
  }

  lemma ChainSlice(prog: Program, ps: seq<Patch>, lo: nat, hi: nat)
    requires Chain(prog, ps) && lo <= hi <= |ps|
    ensures Chain(prog, ps[lo..hi])
  {
    var part := ps[lo..hi];
    forall i, j | 0 <= i < j < |part| && j == i + 1
      ensures Successor(prog, part[i].insn, part[j].insn)
    {
      assert part[i] == ps[lo + i] && part[j] == ps[lo + j];
    }
  }

  // ------------------------------------------------------------------------
  // Instrumented ranges
  // ------------------------------------------------------------------------

  /** Engine::patch can start at the instruction. */
  predicate Decodes(prog: Program, k: Key) {
    k in prog.insns && prog.insns[k].End() <= DecodeLimit(prog.ranges, k.address)
  }

  /** Decoding from k up to a limit gets to l. */
  ghost predicate Reaches(prog: Program, k: Key, l: Key, limit: int)
    requires ProgramOk(prog) && k in prog.insns
    decreases WORD - k.address
  {
    k == l || (Goes(prog, prog.insns[k], limit) && Reaches(prog, NextKey(prog.insns[k]), l, limit))
  }

  /** Where decoding from k up to a limit ends. */
  ghost function EndWithin(prog: Program, k: Key, limit: int): nat
    requires ProgramOk(prog) && k in prog.insns
    decreases WORD - k.address
  {
    var x := prog.insns[k];
    if Goes(prog, x, limit) then EndWithin(prog, NextKey(x), limit) else x.End()
  }

  /** The end of what Engine::patch decodes from an instruction. */
  ghost function DecodedEnd(prog: Program, k: Key): nat
    requires ProgramOk(prog) && k in prog.insns
  {
    EndWithin(prog, k, DecodeLimit(prog.ranges, k.address))
  }

  /** The instruction is in what Engine::patch decodes from k. */
  ghost predicate InPatch(prog: Program, k: Key, l: Key)
    requires ProgramOk(prog)
  {
    Decodes(prog, k) && Reaches(prog, k, l, DecodeLimit(prog.ranges, k.address))
  }

  /** Basic blocks that share an instruction end alike. */
  ghost predicate EndAlike(prog: Program)
    requires ProgramOk(prog)
  {
    forall s, t, l :: InPatch(prog, s, l) && InPatch(prog, t, l) ==> DecodedEnd(prog, s) == DecodedEnd(prog, t)
  }

  /** From s, which is in no range, decoding gets into the range of l and past its end. */
  ghost predicate Crosses(prog: Program, s: Key, l: Key)
    requires ProgramOk(prog)
  {
    && s in prog.insns && !prog.Instruments(s.address) && Decodes(prog, l) && Reaches(prog, s, l, WORD)
    && DecodeLimit(prog.ranges, l.address) < EndWithin(prog, l, WORD)
  }

  ghost predicate Uncrossed(prog: Program)
    requires ProgramOk(prog)
  {
    forall s, l :: !Crosses(prog, s, l)
  }

  /** Instrumented ranges with which basic blocks are what Engine::patch decodes. */
  ghost predicate RangesOk(prog: Program)
    requires ProgramOk(prog)
  {
    Canonical(prog.ranges) && Uncrossed(prog)
  }

  lemma {:induction false} LimitOutside(ranges: seq<Range>, a: nat)
    requires forall i :: 0 <= i < |ranges| ==> !ranges[i].Has(a)
    ensures DecodeLimit(ranges, a) == WORD
  {
    if ranges != [] {
      LimitOutside(ranges[1..], a);
    }
  }

  lemma {:induction false} LimitInside(ranges: seq<Range>, i: nat, a: nat)
    requires Canonical(ranges) && i < |ranges| && ranges[i].Has(a)
    ensures DecodeLimit(ranges, a) == ranges[i].end
  {
    if i > 0 {
      assert ranges[0].end < ranges[i].start;
      LimitInside(ranges[1..], i - 1, a);
    }
  }

  lemma {:induction false} EndBehind(prog: Program, k: Key, limit: int)
    requires ProgramOk(prog) && k in prog.insns
    ensures prog.insns[k].End() <= EndWithin(prog, k, limit)
    ensures prog.insns[k].End() <= limit ==> EndWithin(prog, k, limit) <= limit
    decreases WORD - k.address
  {
    if Goes(prog, prog.insns[k], limit) {
      EndBehind(prog, NextKey(prog.insns[k]), limit);
    }
  }

  /** Whatever decoding gets to ends where decoding from the start ends. */
  lemma {:induction false} ReachedEnd(prog: Program, k: Key, l: Key, limit: int)
    requires ProgramOk(prog) && k in prog.insns && Reaches(prog, k, l, limit)
    ensures l in prog.insns && EndWithin(prog, l, limit) == EndWithin(prog, k, limit)
    ensures k.address <= l.address && (prog.insns[k].End() <= limit ==> prog.insns[l].End() <= limit)
    decreases WORD - k.address
  {
    if k != l {
      ReachedEnd(prog, NextKey(prog.insns[k]), l, limit);
    }
  }

  lemma {:induction false} ReachesNext(prog: Program, k: Key, l: Key, limit: int)
    requires ProgramOk(prog) && k in prog.insns && Reaches(prog, k, l, limit)
    requires l in prog.insns && Goes(prog, prog.insns[l], limit)
    ensures Reaches(prog, k, NextKey(prog.insns[l]), limit)
    decreases WORD - k.address
  {
    if k == l {
      assert Reaches(prog, NextKey(prog.insns[l]), NextKey(prog.insns[l]), limit);
    } else {
      ReachesNext(prog, NextKey(prog.insns[k]), l, limit);
    }
  }

  /** A limit makes no difference to what is decoded exactly when that ends within it. */
  lemma {:induction false} BoundedIff(prog: Program, k: Key, limit: int)
    requires ProgramOk(prog) && k in prog.insns && prog.insns[k].End() <= limit
    ensures EndWithin(prog, k, limit) == EndWithin(prog, k, WORD) <==> EndWithin(prog, k, WORD) <= limit
    decreases WORD - k.address
  {
    var x := prog.insns[k];
    EndBehind(prog, k, limit);
    if Goes(prog, x, WORD) {
      EndBehind(prog, NextKey(x), WORD);
      if prog.insns[NextKey(x)].End() <= limit {
        BoundedIff(prog, NextKey(x), limit);
      }
    }
  }

  /** What is decoded from inside a range stays inside. */
  lemma StaysInside(prog: Program, k: Key, l: Key)
    requires ProgramOk(prog) && Canonical(prog.ranges) && prog.Instruments(k.address) && InPatch(prog, k, l)
    ensures prog.Instruments(l.address) && Decodes(prog, l)
    ensures DecodeLimit(prog.ranges, l.address) == DecodeLimit(prog.ranges, k.address)
  {
    var i :| 0 <= i < |prog.ranges| && prog.ranges[i].Has(k.address);
    LimitInside(prog.ranges, i, k.address);
    ReachedEnd(prog, k, l, prog.ranges[i].end);
    LimitInside(prog.ranges, i, l.address);
  }

  /** Basic blocks that share an instruction end alike exactly when none that starts in no range
      crosses the end of one. */
  lemma AlikeIff(prog: Program)
    requires ProgramOk(prog) && Canonical(prog.ranges)
    ensures EndAlike(prog) <==> Uncrossed(prog)
  {
    if EndAlike(prog) {
      forall s, l | Crosses(prog, s, l)
        ensures false
      {
        CrossesDiffer(prog, s, l);
      }
    }
    if Uncrossed(prog) {
      forall s, t, l | InPatch(prog, s, l) && InPatch(prog, t, l)
        ensures DecodedEnd(prog, s) == DecodedEnd(prog, t)
      {
        SharedEnd(prog, s, l);
        SharedEnd(prog, t, l);
      }
    }
  }

  lemma CrossesDiffer(prog: Program, s: Key, l: Key)
    requires ProgramOk(prog) && Crosses(prog, s, l)
    ensures InPatch(prog, s, l) && InPatch(prog, l, l) && DecodedEnd(prog, s) != DecodedEnd(prog, l)
  {
    LimitOutside(prog.ranges, s.address);
    ReachedEnd(prog, s, l, WORD);
    EndBehind(prog, l, DecodeLimit(prog.ranges, l.address));
  }

  /** The end of a basic block, from any of its instructions. */
  lemma SharedEnd(prog: Program, s: Key, l: Key)
    requires ProgramOk(prog) && RangesOk(prog) && InPatch(prog, s, l)
    ensures l in prog.insns && DecodedEnd(prog, s) == EndWithin(prog, l, Reach(prog, prog.insns[l]))
  {
    ReachedEnd(prog, s, l, DecodeLimit(prog.ranges, s.address));
    if prog.Instruments(s.address) {
      StaysInside(prog, s, l);
    } else {
      LimitOutside(prog.ranges, s.address);
      if Decodes(prog, l) {
        assert !Crosses(prog, s, l);
        BoundedIff(prog, l, DecodeLimit(prog.ranges, l.address));
      }
    }
  }

  /** Then the limit of the start goes where the limits of the instructions themselves go. */
  lemma GoesIsContinues(prog: Program, k: Key, l: Key)
    requires ProgramOk(prog) && RangesOk(prog) && InPatch(prog, k, l)
    ensures l in prog.insns && (Goes(prog, prog.insns[l], DecodeLimit(prog.ranges, k.address)) <==> Continues(prog, prog.insns[l]))
  {
    ReachedEnd(prog, k, l, DecodeLimit(prog.ranges, k.address));
    if prog.Instruments(k.address) {
      StaysInside(prog, k, l);
    } else {
      LimitOutside(prog.ranges, k.address);
      var x := prog.insns[l];
      if Decodes(prog, l) && Goes(prog, x, WORD) {
        assert !Crosses(prog, k, l);
        EndBehind(prog, NextKey(x), WORD);
      }
    }
  }
}
