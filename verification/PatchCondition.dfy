/** The condition language of instrumentation rules (src/Patch/PatchCondition.h) and the
    rules that carry a condition (src/Patch/InstrRule.h). */
module PatchConditions {
  import opened Ranges
  import opened Guest

  datatype Condition =
    | InstructionInRange(range: Range)
    | AddressIs(breakpoint: nat)
    | And(conditions: seq<Condition>)
    | Or(conditions: seq<Condition>)
    | Not(condition: Condition)
    | Feature(feature: nat) // MnemonicIs, OpIs, UseReg, True, DoesReadAccess, ...

  predicate Test(c: Condition, p: Insn) {
    match c
    case InstructionInRange(range) => range.Contains(Range.Make(p.key.address, p.End()))
    case AddressIs(breakpoint) => p.key.address == breakpoint
    case And(cs) => forall i :: 0 <= i < |cs| ==> Test(cs[i], p)
    case Or(cs) => exists i :: 0 <= i < |cs| && Test(cs[i], p)
    case Not(inner) => !Test(inner, p)
    case Feature(f) => f in p.features
  }

  // ------------------------------------------------------------------------
  // Laws of conditions
  // ------------------------------------------------------------------------

  /** What the conditions that are no combination of others tell. */
  lemma LeafMeaning(p: Insn, range: Range, a: nat, f: nat)
    requires p.NoWrap()
    ensures Test(InstructionInRange(range), p) <==> forall x :: p.key.address <= x < p.End() ==> range.Has(x)
    ensures Test(AddressIs(a), p) <==> p.key.address == a
    ensures Test(Feature(f), p) <==> f in p.features
  {
    if forall x :: p.key.address <= x < p.End() ==> range.Has(x) {
      assert range.Has(p.key.address) && range.Has(p.End() - 1);
    }
  }

  /** A condition or its negation holds, and not both. */
  lemma {:induction false} Complement(c: Condition, p: Insn)
    ensures Test(c, p) != Test(Not(c), p)
    ensures Test(Or([c, Not(c)]), p) && !Test(And([c, Not(c)]), p)
  {
    var both := [c, Not(c)];
    assert both[0] == c && both[1] == Not(c);
    assert Test(both[0], p) || Test(both[1], p);
    assert !(Test(both[0], p) && Test(both[1], p));
  }

  function Negated(cs: seq<Condition>): seq<Condition> { seq(|cs|, i requires 0 <= i < |cs| => Not(cs[i])) }

  lemma {:induction false} DeMorgan(cs: seq<Condition>, p: Insn)
    ensures Test(Not(And(cs)), p) <==> Test(Or(Negated(cs)), p)
    ensures Test(Not(Or(cs)), p) <==> Test(And(Negated(cs)), p)
  {
    var ns := Negated(cs);
    forall i | 0 <= i < |cs|
      ensures Test(ns[i], p) <==> !Test(cs[i], p)
    {
      assert ns[i] == Not(cs[i]);
    }
    if Test(Not(And(cs)), p) {
      assert !Test(And(cs), p);
      var i :| 0 <= i < |cs| && !Test(cs[i], p);
      assert Test(ns[i], p);
    }
    if Test(And(ns), p) {
      forall i | 0 <= i < |cs|
        ensures !Test(cs[i], p)
      {
        assert Test(ns[i], p);
      }
    }
  }

  /** Lists of conditions are tested one part after the other. */
  lemma {:induction false} PartByPart(a: seq<Condition>, b: seq<Condition>, p: Insn)
    ensures Test(And(a + b), p) <==> Test(And(a), p) && Test(And(b), p)
    ensures Test(Or(a + b), p) <==> Test(Or(a), p) || Test(Or(b), p)
    ensures Test(And([]), p) && !Test(Or([]), p)
  {
    var c := a + b;
    forall i | 0 <= i < |c|
      ensures c[i] == if i < |a| then a[i] else b[i - |a|]
    {
    }
    forall i | 0 <= i < |a|
      ensures c[i] == a[i]
    {
    }
    forall i | 0 <= i < |b|
      ensures c[|a| + i] == b[i]
    {
    }
  }

  // ------------------------------------------------------------------------
  // Affected ranges
  // ------------------------------------------------------------------------

  /** The range of the default `affectedRange`. Being half open, it misses the last word. */
  const EVERYTHING := Range(0, WORD - 1)

  /** The addresses a condition declares it may hold at. */
  ghost predicate Affected(c: Condition, x: int) {
    match c
    case InstructionInRange(range) => range.Has(x)
    case AddressIs(breakpoint) => Range.Make(breakpoint, (breakpoint + 1) % WORD).Has(x)
    case And(cs) => EVERYTHING.Has(x) && forall i :: 0 <= i < |cs| ==> Affected(cs[i], x)
    case Or(cs) => exists i :: 0 <= i < |cs| && Affected(cs[i], x)
    case Not(_) => EVERYTHING.Has(x)
    case Feature(_) => EVERYTHING.Has(x)
  }

  /** `affectedRange()`, built by in-place intersection and union. */
  method AffectedRange(c: Condition) returns (r: RangeSet)
    ensures fresh(r) && r.Valid()
    ensures forall x :: Mem(r.ranges, x) <==> Affected(c, x)
    decreases c
  {
    r := new RangeSet();
    match c
    case InstructionInRange(range) =>
      r.Add(range);
    case AddressIs(breakpoint) =>
      r.Add(Range.Make(breakpoint, (breakpoint + 1) % WORD));
    case And(cs) =>
      r.Add(EVERYTHING);
      for i := 0 to |cs|
        invariant fresh(r) && r.Valid()
        invariant forall x :: Mem(r.ranges, x) <==> EVERYTHING.Has(x) && forall j :: 0 <= j < i ==> Affected(cs[j], x)
      {
        var inner := AffectedRange(cs[i]);
        r.IntersectSet(inner);
      }
    case Or(cs) =>
      for i := 0 to |cs|
        invariant fresh(r) && r.Valid()
        invariant forall x :: Mem(r.ranges, x) <==> exists j :: 0 <= j < i && Affected(cs[j], x)
      {
        var inner := AffectedRange(cs[i]);
        r.AddSet(inner);
      }
    case Not(_) =>
      r.Add(EVERYTHING);
    case Feature(_) =>
      r.Add(EVERYTHING);
  }

  /** A condition only holds at addresses it declares, whatever its tree, as long as the
      instruction's bytes do not run past the last word. */
  lemma {:induction false} AffectedSound(c: Condition, p: Insn)
    requires p.NoWrap()
    ensures Test(c, p) ==> Affected(c, p.key.address)
  {
    if Test(c, p) {
      match c
      case InstructionInRange(range) =>
      case AddressIs(breakpoint) =>
      case And(cs) =>
        forall i | 0 <= i < |cs|
          ensures Affected(cs[i], p.key.address)
        {
          AffectedSound(cs[i], p);
        }
      case Or(cs) =>
        var i :| 0 <= i < |cs| && Test(cs[i], p);
        AffectedSound(cs[i], p);
      case Not(_) =>
      case Feature(_) =>
    }
  }

  /** Exactly those instructions are safe: on any other one some condition holds outside the
      range it declares. */
  lemma {:induction false} AffectedSoundIff(p: Insn)
    requires p.key.address < WORD
    ensures (forall c :: Test(c, p) ==> Affected(c, p.key.address)) <==> p.NoWrap()
  {
    if p.NoWrap() {
      forall c
        ensures Test(c, p) ==> Affected(c, p.key.address)
      {
        AffectedSound(c, p);
      }
    } else {
      var c := InstructionInRange(Range(p.key.address, p.key.address));
      assert Test(c, p) && !Affected(c, p.key.address);
    }
  }

  /** The condition looks at nothing but the position of the instruction. */
  predicate Positional(c: Condition) {
    match c
    case And(cs) => forall i :: 0 <= i < |cs| ==> Positional(cs[i])
    case Or(cs) => forall i :: 0 <= i < |cs| ==> Positional(cs[i])
    case Not(_) => false
    case Feature(_) => false
    case _ => true
  }

  /** For such a condition the declared addresses are no more than needed: exactly those where it
      holds for an instruction of one byte. */
  lemma {:induction false} AffectedExact(c: Condition, p: Insn)
    requires Positional(c) && p.size == 1 && p.key.address < WORD - 1
    ensures Test(c, p) <==> Affected(c, p.key.address)
  {
    match c
    case InstructionInRange(range) =>
    case AddressIs(breakpoint) =>
    case And(cs) =>
      forall i | 0 <= i < |cs|
        ensures Test(cs[i], p) <==> Affected(cs[i], p.key.address)
      {
        AffectedExact(cs[i], p);
      }
    case Or(cs) =>
      forall i | 0 <= i < |cs|
        ensures Test(cs[i], p) <==> Affected(cs[i], p.key.address)
      {
        AffectedExact(cs[i], p);
      }
  }

  // ------------------------------------------------------------------------
  // Rules
  // ------------------------------------------------------------------------

  /** `Basic` is InstrRuleBasicCBK and InstrRuleDynamic; `User` is InstrRuleUser, whose
      callback decides from the instruction's analysis whether it adds anything. */
  datatype Rule =
    | Basic(condition: Condition, priority: int)
    | User(range: seq<Range>, wanted: nat, priority: int)

  ghost predicate ValidRule(rule: Rule) {
    rule.User? ==> Canonical(rule.range)
  }

  /** Whether `tryInstrument` instruments the instruction. */
  ghost predicate Applies(rule: Rule, p: Insn) {
    match rule
    case Basic(condition, _) => Test(condition, p)
    case User(range, wanted, _) =>
      && (forall x :: Range.Make(p.key.address, p.End()).Has(x) ==> Mem(range, x))
      && wanted in p.features
  }

  ghost predicate RuleAffected(rule: Rule, x: int) {
    match rule
    case Basic(condition, _) => Affected(condition, x)
    case User(range, _, _) => Mem(range, x)
  }

  /** `InstrRule::tryInstrument` */
  method TryInstrument(rule: Rule, p: Insn) returns (r: bool)
    requires ValidRule(rule)
    ensures r <==> Applies(rule, p)
    ensures rule.Basic? ==> (r <==> Test(rule.condition, p))
    ensures rule.User? && p.NoWrap() ==>
              (r <==> rule.wanted in p.features && forall x :: p.key.address <= x < p.End() ==> Mem(rule.range, x))
  {
    match rule
    case Basic(condition, _) =>
      r := Test(condition, p);
    case User(range, wanted, _) =>
      var s := new RangeSet();
      s.ranges := range;
      var inside := s.ContainsRange(Range.Make(p.key.address, p.End()));
      r := inside && wanted in p.features;
  }

  /** `InstrRule::affectedRange` */
  method RuleAffectedRange(rule: Rule) returns (r: RangeSet)
    requires ValidRule(rule)
    ensures fresh(r) && r.Valid()
    ensures forall x :: Mem(r.ranges, x) <==> RuleAffected(rule, x)
    ensures rule.User? ==> r.ranges == rule.range
    ensures rule.Basic? ==> forall x :: Mem(r.ranges, x) <==> Affected(rule.condition, x)
  {
    match rule
    case Basic(condition, _) =>
      r := AffectedRange(condition);
    case User(range, _, _) =>
      r := new RangeSet();
      r.ranges := range;
  }

  lemma RuleAffectedSound(rule: Rule, p: Insn)
    requires p.NoWrap()
    ensures Applies(rule, p) ==> RuleAffected(rule, p.key.address)
  {
    match rule
    case Basic(condition, _) =>
      AffectedSound(condition, p);
    case User(range, _, _) =>
      assert Range.Make(p.key.address, p.End()).Has(p.key.address);
  }
}
