/** The guest instruction by instruction: what a run comes to when callbacks that change the rules
    break to the VM, as docs/source/api_description.rst asks. */
module Interpreters {
  import opened Guest
  import opened Blocks
  import opened Programs
  import opened Coherence
  import opened Runs

  /** What the code generated for one instruction does, callbacks included. */
  datatype Effect = Effect(regs: Regs, calls: seq<Call>, action: Action)

  type Semantics = (Patch, Regs) -> Effect

  /** Code that does not modify the program counter leads to the next instruction. */
  ghost predicate FallsThrough(step: Semantics) {
    forall p: Patch, r :: !p.insn.modifiesPC && step(p, r).action.Continue? ==> step(p, r).regs.gpr.pc == p.insn.End()
  }

  /** Nothing that changes the rules ends with Continue. */
  ghost predicate Breaks(step: Semantics) {
    forall p, r, s :: step(p, r).action.Continue? ==> AllRequested(step(p, r).calls, s).list == s.list
  }

  ghost predicate StepsOk(w: World, step: Semantics) {
    ProgramOk(w.prog) && GeneratorOk(w.generate) && FallsThrough(step) && Breaks(step)
  }

  /** Instruments the instruction at the program counter with the rules of this moment, and executes it. */
  ghost function OneStep(w: World, step: Semantics, g: Machine): (Machine, Action) {
    if g.Here() !in w.prog.insns then (g, Stop)
    else
      var e := step(Instrumented(w.generate, g.state.rules.list, w.prog.insns[g.Here()]), g.state.regs);
      (Landed(e, g.state.rules), e.action)
  }

  function Landed(e: Effect, s: RuleState): Machine {
    Machine(e.regs.gpr.pc, State(e.regs, AllRequested(e.calls, s)))
  }

  /** n steps. */
  ghost function Interpret(w: World, step: Semantics, n: nat, g: Machine): Machine {
    if n == 0 then g else OneStep(w, step, Interpret(w, step, n - 1, g)).0
  }

  /** Up to n steps, as long as they continue. */
  ghost function Walk(w: World, step: Semantics, n: nat, g: Machine): (Machine, Action) {
    if n == 0 then (g, Continue)
    else
      var (next, action) := OneStep(w, step, g);
      if action.Continue? then Walk(w, step, n - 1, next) else (next, action)
  }

  /** How many these are. */
  ghost function Walked(w: World, step: Semantics, n: nat, g: Machine): nat {
    if n == 0 then 0
    else
      var (next, action) := OneStep(w, step, g);
      if action.Continue? then 1 + Walked(w, step, n - 1, next) else 1
  }

  lemma {:induction false} InterpretMore(w: World, step: Semantics, a: nat, b: nat, g: Machine)
    ensures Interpret(w, step, a + b, g) == Interpret(w, step, b, Interpret(w, step, a, g))
    decreases b
  {
    if b > 0 {
      InterpretMore(w, step, a, b - 1, g);
    }
  }

  lemma {:induction false} WalkInterprets(w: World, step: Semantics, n: nat, g: Machine)
    ensures Walk(w, step, n, g).0 == Interpret(w, step, Walked(w, step, n, g), g)
    decreases n
  {
    if n > 0 {
      var (next, action) := OneStep(w, step, g);
      assert Interpret(w, step, 1, g) == OneStep(w, step, Interpret(w, step, 0, g)).0 == next;
      if action.Continue? {
        WalkInterprets(w, step, n - 1, next);
        InterpretMore(w, step, 1, Walked(w, step, n - 1, next), g);
      }
    }
  }

  // ------------------------------------------------------------------------
  // A piece of straight code
  // ------------------------------------------------------------------------

  /** What a piece of code does: it is left at its end, or at the first action but Continue. */
  function Steps(step: Semantics, code: seq<Patch>, r: Regs): Effect {
    if code == [] then Effect(r, [], Continue)
    else
      var first := step(code[0], r);
      if !first.action.Continue? then first
      else
        var rest := Steps(step, code[1..], first.regs);
        rest.(calls := first.calls + rest.calls)
  }

  /** A part of a basic block does what its instructions do one by one, although all of it was
      instrumented before. */
  lemma {:induction false} PieceWalks(w: World, step: Semantics, n: nat, g: Machine)
    requires StepsOk(w, step) && g.Here() in w.prog.insns && 1 <= n <= BlockLength(w.prog, g.Here())
    ensures var e := Steps(step, Ahead(w, g, n), g.state.regs);
            Walk(w, step, n, g) == (Landed(e, g.state.rules), e.action)
    decreases n
  {
    var x := w.prog.insns[g.Here()];
    var p := Instrumented(w.generate, g.state.rules.list, x);
    var first := step(p, g.state.regs);
    var next := Landed(first, g.state.rules);
    var code, rest := Ahead(w, g, n), Fresh(w.prog, w.generate, g.state.rules.list, NextKey(x), n - 1);
    assert code[0] == p && code[1..] == rest && p.insn == x && OneStep(w, step, g) == (next, first.action);
    if first.action.Continue? {
      assert next.state.rules.list == g.state.rules.list;
      if n > 1 {
        assert Continues(w.prog, x);
        PieceWalks(w, step, n - 1, next);
        assert Ahead(w, next, n - 1) == rest;
      }
      RequestedBoth(first.calls, Steps(step, rest, first.regs).calls, g.state.rules);
    }
  }

  // ------------------------------------------------------------------------
  // Runs
  // ------------------------------------------------------------------------

  /** Executing code does what the instructions in it do. */
  ghost predicate Executes(step: Semantics, code: seq<Patch>, r: Regs, e: Event) {
    Effect(e.effect(r), e.calls, e.action) == Steps(step, code, r)
  }

  ghost predicate ExecutesAll(step: Semantics, turn: Turn) {
    forall code, r :: Executes(step, code, r, turn.body(code, r))
  }

  /** A turn that instruments every instruction when it gets to it. */
  ghost function SteppedTurn(w: World, step: Semantics, turn: Turn, n: nat, g: Machine): (State, Action) {
    var entered := Reacted(turn.enter, g.state);
    if !turn.enter.action.Continue? then (entered, turn.enter.action)
    else if g.Transfers(w) then
      (Reacted(turn.leave, entered.(regs := turn.host(entered.regs))), turn.leave.action)
    else
      var (last, action) := Walk(w, step, n, Machine(g.pc, entered));
      if !action.Continue? then (last.state, action) else (Reacted(turn.leave, last.state), turn.leave.action)
  }

  lemma StepTurn(w: World, step: Semantics, turn: Turn, n: nat, g: Machine)
    requires StepsOk(w, step) && ExecutesAll(step, turn) && Polite(turn.enter, g.state.rules) && CutOk(w, g, n)
    ensures SteppedTurn(w, step, turn, n, g) == Turned(w, g, turn, n)
  {
    var entered := Machine(g.pc, Reacted(turn.enter, g.state));
    if turn.enter.action.Continue? && !g.Transfers(w) {
      PieceWalks(w, step, n, entered);
      var code := Ahead(w, g, n);
      assert Ahead(w, entered, n) == code;
      assert Executes(step, code, entered.state.regs, turn.body(code, entered.state.regs));
    }
  }

  /** Turn t is one that both runs do alike. */
  ghost predicate Steady(w: World, step: Semantics, script: seq<Turn>, cuts: seq<nat>, t: nat, g: Machine)
    requires ProgramOk(w.prog) && t < |cuts| <= |script|
  {
    var here := After(w, script, cuts[..t], g);
    ExecutesAll(step, script[t]) && Polite(script[t].enter, here.state.rules) && CutOk(w, here, cuts[t])
  }

  ghost predicate AllSteady(w: World, step: Semantics, script: seq<Turn>, cuts: seq<nat>, g: Machine)
    requires ProgramOk(w.prog)
  {
    |cuts| <= |script| && forall t :: 0 <= t < |cuts| ==> Steady(w, step, script, cuts, t, g)
  }

  /** The run that instruments every instruction when it gets to it. */
  ghost function Stepwise(w: World, step: Semantics, script: seq<Turn>, cuts: seq<nat>, g: Machine): Machine
    requires |cuts| <= |script|
  {
    if cuts == [] then g
    else
      var m := |cuts| - 1;
      var s := SteppedTurn(w, step, script[m], cuts[m], Stepwise(w, step, script, cuts[..m], g)).0;
      Machine(s.regs.gpr.pc, s)
  }

  lemma SteadyBefore(w: World, step: Semantics, script: seq<Turn>, cuts: seq<nat>, m: nat, g: Machine)
    requires ProgramOk(w.prog) && AllSteady(w, step, script, cuts, g) && m <= |cuts|
    ensures AllSteady(w, step, script, cuts[..m], g)
  {
    forall t | 0 <= t < m
      ensures Steady(w, step, script, cuts[..m], t, g)
    {
      assert Steady(w, step, script, cuts, t, g);
      assert cuts[..m][..t] == cuts[..t] && cuts[..m][t] == cuts[t];
    }
  }

  lemma LastTurn(w: World, step: Semantics, script: seq<Turn>, cuts: seq<nat>, g: Machine)
    requires StepsOk(w, step) && cuts != [] && AllSteady(w, step, script, cuts, g)
    ensures var m := |cuts| - 1;
            var s := SteppedTurn(w, step, script[m], cuts[m], After(w, script, cuts[..m], g)).0;
            After(w, script, cuts, g) == Machine(s.regs.gpr.pc, s)
  {
    var m := |cuts| - 1;
    assert Steady(w, step, script, cuts, m, g);
    StepTurn(w, step, script[m], cuts[m], After(w, script, cuts[..m], g));
  }

  /** When whatever changes the rules breaks to the VM, every instruction is executed with the rules of
      that moment. */
  lemma {:induction false} NeverStale(w: World, step: Semantics, script: seq<Turn>, cuts: seq<nat>, g: Machine)
    requires StepsOk(w, step) && AllSteady(w, step, script, cuts, g)
    ensures After(w, script, cuts, g) == Stepwise(w, step, script, cuts, g)
    decreases |cuts|
  {
    if cuts != [] {
      SteadyBefore(w, step, script, cuts, |cuts| - 1, g);
      NeverStale(w, step, script, cuts[..|cuts| - 1], g);
      LastTurn(w, step, script, cuts, g);
    }
  }

  // ------------------------------------------------------------------------
  // Runs that only the callbacks of instructions watch
  // ------------------------------------------------------------------------

  ghost predicate Silent(e: Event) {
    && e.action.Continue? && (forall r :: e.effect(r) == r)
    && forall s :: AllRequested(e.calls, s) == s
  }

  /** Turn t executes code, and has no events of its own. */
  ghost predicate Quiet(w: World, script: seq<Turn>, cuts: seq<nat>, t: nat, g: Machine)
    requires t < |cuts| <= |script|
  {
    Silent(script[t].enter) && Silent(script[t].leave) && !After(w, script, cuts[..t], g).Transfers(w)
  }

  ghost predicate AllQuiet(w: World, script: seq<Turn>, cuts: seq<nat>, g: Machine) {
    |cuts| <= |script| && forall t :: 0 <= t < |cuts| ==> Quiet(w, script, cuts, t, g)
  }

  /** How many instructions the turns of a run begin. */
  ghost function Executed(w: World, step: Semantics, script: seq<Turn>, cuts: seq<nat>, g: Machine): nat
    requires |cuts| <= |script|
  {
    if cuts == [] then 0
    else
      var m := |cuts| - 1;
      Executed(w, step, script, cuts[..m], g) + Walked(w, step, cuts[m], After(w, script, cuts[..m], g))
  }

  lemma QuietBefore(w: World, script: seq<Turn>, cuts: seq<nat>, m: nat, g: Machine)
    requires AllQuiet(w, script, cuts, g) && m <= |cuts|
    ensures AllQuiet(w, script, cuts[..m], g)
  {
    forall t | 0 <= t < m
      ensures Quiet(w, script, cuts[..m], t, g)
    {
      assert Quiet(w, script, cuts, t, g);
      assert cuts[..m][..t] == cuts[..t];
    }
  }

  lemma LastQuiet(w: World, step: Semantics, script: seq<Turn>, cuts: seq<nat>, g: Machine)
    requires StepsOk(w, step) && cuts != [] && AllSteady(w, step, script, cuts, g) && AllQuiet(w, script, cuts, g)
    ensures var m := |cuts| - 1;
            var here := After(w, script, cuts[..m], g);
            After(w, script, cuts, g) == Interpret(w, step, Walked(w, step, cuts[m], here), here)
  {
    var m := |cuts| - 1;
    assert Quiet(w, script, cuts, m, g);
    assert Steady(w, step, script, cuts, m, g);
    LastTurn(w, step, script, cuts, g);
    QuietTurn(w, step, script[m], cuts[m], After(w, script, cuts[..m], g));
  }

  lemma QuietTurn(w: World, step: Semantics, turn: Turn, n: nat, g: Machine)
    requires StepsOk(w, step) && Silent(turn.enter) && Silent(turn.leave) && !g.Transfers(w) && CutOk(w, g, n)
    ensures var s := SteppedTurn(w, step, turn, n, g).0;
            Machine(s.regs.gpr.pc, s) == Interpret(w, step, Walked(w, step, n, g), g)
  {
    PieceWalks(w, step, n, g);
    WalkInterprets(w, step, n, g);
    assert Machine(g.pc, Reacted(turn.enter, g.state)) == g;
  }

  lemma Joined(w: World, step: Semantics, a: nat, b: nat, n: nat, g: Machine, here: Machine, last: Machine)
    requires n == a + b && here == Interpret(w, step, a, g) && last == Interpret(w, step, b, here)
    ensures last == Interpret(w, step, n, g)
  {
    InterpretMore(w, step, a, b, g);
  }

  lemma ExecutedMore(w: World, step: Semantics, script: seq<Turn>, cuts: seq<nat>, g: Machine)
    requires 0 < |cuts| <= |script|
    requires var here := After(w, script, cuts[..|cuts| - 1], g);
             && here == Interpret(w, step, Executed(w, step, script, cuts[..|cuts| - 1], g), g)
             && After(w, script, cuts, g) == Interpret(w, step, Walked(w, step, cuts[|cuts| - 1], here), here)
    ensures After(w, script, cuts, g) == Interpret(w, step, Executed(w, step, script, cuts, g), g)
  {
    var m := |cuts| - 1;
    var here := After(w, script, cuts[..m], g);
    Joined(w, step, Executed(w, step, script, cuts[..m], g), Walked(w, step, cuts[m], here),
           Executed(w, step, script, cuts, g), g, here, After(w, script, cuts, g));
  }

  /** However such a run is cut into sequences, it is the run instruction by instruction. */
  lemma {:induction false} Transparent(w: World, step: Semantics, script: seq<Turn>, cuts: seq<nat>, g: Machine)
    requires StepsOk(w, step) && AllSteady(w, step, script, cuts, g) && AllQuiet(w, script, cuts, g)
    ensures After(w, script, cuts, g) == Interpret(w, step, Executed(w, step, script, cuts, g), g)
    decreases |cuts|
  {
    if cuts != [] {
      var m := |cuts| - 1;
      SteadyBefore(w, step, script, cuts, m, g);
      QuietBefore(w, script, cuts, m, g);
      Transparent(w, step, script, cuts[..m], g);
      LastQuiet(w, step, script, cuts, g);
      ExecutedMore(w, step, script, cuts, g);
    }
  }
}
