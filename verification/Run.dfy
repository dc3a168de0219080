/** A run of the engine as its environment sees it (src/Engine/Engine.cpp, Engine::run): callbacks
    and guest code act on one register file, turn after turn, and every turn executes code that is
    instrumented with the rules at its beginning. */
module Runs {
  import opened Ranges
  import opened Guest
  import opened PatchConditions
  import opened Blocks
  import opened Programs
  import opened Caches
  import opened Coherence

  datatype Gpr = Gpr(registers: seq<nat>, pc: nat)
  datatype Fpr = Fpr(registers: seq<nat>)

  /** The registers of the guest: the engine has them, and every block has them in its context. */
  datatype Regs = Regs(gpr: Gpr, fpr: Fpr)

  datatype Action = Continue | BreakToVM | Stop

  /** What a callback may ask of a running engine. */
  datatype Call =
    | AddRule(rule: Rule)
    | DeleteRule(id: nat)
    | DeleteAll
    | ClearAll
    | ClearRange(range: Range)
    | ReduceTo(nb: nat)

  /** What happens while the callbacks of one event, or the code of one sequence, run. */
  datatype Event = Event(effect: Regs -> Regs, calls: seq<Call>, action: Action)

  /** One turn of the loop: the entry event, what a piece of code does when it is executed on some
      registers, what the host does if execution is transferred, and the exit event. `fits` are the
      answers of the cost test in this turn. */
  datatype Turn = Turn(enter: Event, body: (seq<Patch>, Regs) -> Event, host: Regs -> Regs, leave: Event,
                       fits: (Region, nat) -> bool)

  /** When execBroker can transfer execution. */
  datatype Environment = Environment(transferable: Regs -> bool)

  /** The guest code, the patch generator and the environment. */
  datatype World = World(prog: Program, generate: Generator, env: Environment)

  // ------------------------------------------------------------------------
  // Requests
  // ------------------------------------------------------------------------

  const EVENTID_VM_MASK: nat := 0x4000_0000
  const INVALID_EVENTID: nat := 0xFFFF_FFFF

  /** The bit that tells VM callbacks from rules. */
  predicate VmEvent(id: nat) { id / EVENTID_VM_MASK % 2 == 1 }

  /** The instrumentation rules, and the counter their identifiers come from. */
  datatype RuleState = RuleState(list: seq<Entry>, counter: nat)

  /** What a request does to the rules. */
  function Requested(call: Call, s: RuleState): RuleState {
    match call
    case AddRule(rule) =>
      RuleState(if s.counter < EVENTID_VM_MASK then Inserted(s.list, Entry(s.counter, rule)) else s.list,
                (s.counter + 1) % WORD32)
    case DeleteRule(id) => if VmEvent(id) then s else s.(list := Without(s.list, id))
    case DeleteAll => RuleState([], 0)
    case ClearAll => s
    case ClearRange(_) => s
    case ReduceTo(_) => s
  }

  function AllRequested(calls: seq<Call>, s: RuleState): RuleState {
    if calls == [] then s
    else Requested(calls[|calls| - 1], AllRequested(calls[..|calls| - 1], s))
  }

  /** A request is made once. */
  lemma RequestedOne(call: Call, s: RuleState)
    ensures AllRequested([call], s) == Requested(call, s)
  {
    assert [call][..0] == [];
  }

  // ------------------------------------------------------------------------
  // Identifiers
  // ------------------------------------------------------------------------

  /** Identifiers below the mask are those of rules; those of VM callbacks are between it and twice
      the mask. */
  lemma IdKinds(id: nat)
    ensures id < EVENTID_VM_MASK ==> !VmEvent(id)
    ensures EVENTID_VM_MASK <= id < 2 * EVENTID_VM_MASK ==> VmEvent(id)
  {
  }

  /** No two rules have the same identifier, and none has one above the limit. */
  ghost predicate Unique(list: seq<Entry>, limit: nat) {
    && (forall i :: 0 <= i < |list| ==> list[i].id < limit && list[i].id < EVENTID_VM_MASK)
    && forall i, j :: 0 <= i < j < |list| ==> list[i].id != list[j].id
  }

  ghost predicate IdsOk(s: RuleState) { Unique(s.list, s.counter) }

  lemma UniqueInserted(list: seq<Entry>, v: Entry, i: nat)
    requires i <= |list| && Unique(list, v.id) && v.id < EVENTID_VM_MASK
    ensures Unique(list[..i] + [v] + list[i..], v.id + 1)
  {
    var all := list[..i] + [v] + list[i..];
    assert forall k :: 0 <= k < |all| ==> all[k] == if k < i then list[k] else if k == i then v else list[k - 1];
  }

  lemma UniqueRemoved(list: seq<Entry>, limit: nat, i: nat)
    requires i < |list| && Unique(list, limit)
    ensures Unique(list[..i] + list[i + 1..], limit)
  {
    var all := list[..i] + list[i + 1..];
    assert forall k :: 0 <= k < |all| ==> all[k] == if k < i then list[k] else list[k + 1];
  }

  lemma IdsKept(call: Call, s: RuleState)
    requires IdsOk(s) && s.counter < WORD32 - 1
    ensures IdsOk(Requested(call, s)) && Requested(call, s).counter <= s.counter + 1
  {
    match call
    case AddRule(rule) =>
      if s.counter < EVENTID_VM_MASK {
        var i := InsertedSomewhere(s.list, Entry(s.counter, rule));
        UniqueInserted(s.list, Entry(s.counter, rule), i);
      }
    case DeleteRule(id) =>
      var i := WithoutSomewhere(s.list, id);
      if i < |s.list| {
        UniqueRemoved(s.list, s.counter, i);
      }
    case _ =>
  }

  /** So it is on an engine that has seen fewer than 2^32 requests. */
  lemma {:induction false} IdsAlways(calls: seq<Call>)
    requires |calls| < WORD32
    ensures IdsOk(AllRequested(calls, RuleState([], 0))) && AllRequested(calls, RuleState([], 0)).counter <= |calls|
  {
    if calls != [] {
      var m := |calls| - 1;
      IdsAlways(calls[..m]);
      IdsKept(calls[m], AllRequested(calls[..m], RuleState([], 0)));
    }
  }

  /** Deleting by identifier then removes the rule that has it and no other. */
  lemma DeletesExactly(id: nat, s: RuleState)
    requires IdsOk(s) && id < EVENTID_VM_MASK
    ensures forall e :: e in Requested(DeleteRule(id), s).list <==> e in s.list && e.id != id
  {
    IdKinds(id);
    var rules := s.list;
    var i := WithoutSomewhere(rules, id);
    if i < |rules| {
      assert rules == rules[..i] + [rules[i]] + rules[i + 1..];
    }
  }

  /** A rule that is added and deleted by the identifier it was given leaves no trace. */
  lemma AddDelete(rule: Rule, s: RuleState)
    requires s.counter < EVENTID_VM_MASK && forall i :: 0 <= i < |s.list| ==> s.list[i].id != s.counter
    ensures Requested(DeleteRule(s.counter), Requested(AddRule(rule), s)).list == s.list
  {
    IdKinds(s.counter);
    var v := Entry(s.counter, rule);
    var i := InsertedSomewhere(s.list, v);
    WithoutAt(Inserted(s.list, v), s.counter, i);
  }

  // ------------------------------------------------------------------------
  // The run without a cache
  // ------------------------------------------------------------------------

  datatype State = State(regs: Regs, rules: RuleState)

  /** The callbacks of an event act on the registers and the rules. */
  function Reacted(e: Event, s: State): State { State(e.effect(s.regs), AllRequested(e.calls, s.rules)) }

  /** What a turn leaves, and the action it ends with. */
  function TurnState(turn: Turn, code: seq<Patch>, transfer: bool, s: State): (State, Action) {
    var entered := Reacted(turn.enter, s);
    if !turn.enter.action.Continue? then (entered, turn.enter.action)
    else if transfer then
      (Reacted(turn.leave, entered.(regs := turn.host(entered.regs))), turn.leave.action)
    else
      var body := turn.body(code, entered.regs);
      var executed := Reacted(body, entered);
      if !body.action.Continue? then (executed, body.action)
      else (Reacted(turn.leave, executed), turn.leave.action)
  }

  /** The events of a turn one after the other: whose turn it is, and what they add up to. */
  lemma TurnFlow(turn: Turn, code: seq<Patch>, transfer: bool, s: State)
    ensures var r := turn.enter.effect(s.regs);
            var body := turn.body(code, r);
            var (after, action) := TurnState(turn, code, transfer, s);
            if !turn.enter.action.Continue? then
              after.regs == r && after.rules == AllRequested(turn.enter.calls, s.rules) && action == turn.enter.action
            else if transfer then
              && after.regs == turn.leave.effect(turn.host(r)) && action == turn.leave.action
              && after.rules == AllRequested(turn.enter.calls + turn.leave.calls, s.rules)
            else if !body.action.Continue? then
              && after.regs == body.effect(r) && action == body.action
              && after.rules == AllRequested(turn.enter.calls + body.calls, s.rules)
            else
              && after.regs == turn.leave.effect(body.effect(r)) && action == turn.leave.action
              && after.rules == AllRequested(turn.enter.calls + body.calls + turn.leave.calls, s.rules)
  {
    var body := turn.body(code, turn.enter.effect(s.regs));
    RequestedBoth(turn.enter.calls, turn.leave.calls, s.rules);
    RequestedBoth(turn.enter.calls, body.calls, s.rules);
    RequestedBoth(turn.enter.calls + body.calls, turn.leave.calls, s.rules);
  }

  lemma {:induction false} RequestedBoth(a: seq<Call>, b: seq<Call>, s: RuleState)
    ensures AllRequested(a + b, s) == AllRequested(b, AllRequested(a, s))
  {
    if b == [] {
      assert a + b == a;
    } else {
      var m := |b| - 1;
      assert (a + b)[..|a| + m] == a + b[..m] && (a + b)[|a| + m] == b[m];
      RequestedBoth(a, b[..m], s);
    }
  }

  datatype Machine = Machine(pc: nat, state: State) {

    function Here(): Key { Key(pc, Default) }

    predicate Transfers(w: World) { !w.prog.Instruments(pc) && w.env.transferable(state.regs) }
  }

  /** Execution is never transferred from an instrumented address. */
  lemma InstrumentedStays(w: World, g: Machine)
    ensures w.prog.Instruments(g.pc) ==> !g.Transfers(w)
    ensures !w.prog.Instruments(g.pc) && w.env.transferable(g.state.regs) ==> g.Transfers(w)
  {
  }

  /** The code of the next n instructions, each instrumented with the rules the machine has. */
  ghost function Ahead(w: World, g: Machine, n: nat): seq<Patch> {
    Fresh(w.prog, w.generate, g.state.rules.list, g.Here(), n)
  }

  /** A turn that executes n instructions, if it executes any. */
  ghost function Turned(w: World, g: Machine, turn: Turn, n: nat): (State, Action) {
    TurnState(turn, Ahead(w, g, n), g.Transfers(w), g.state)
  }

  /** Where the guest is after some turns: one register file, no cache, no contexts. `cuts` tells how
      many instructions each turn executes, for a basic block may be executed in several turns. */
  ghost function After(w: World, script: seq<Turn>, cuts: seq<nat>, g: Machine): Machine
    requires |cuts| <= |script|
  {
    if cuts == [] then g
    else
      var m := |cuts| - 1;
      var s := Turned(w, After(w, script, cuts[..m], g), script[m], cuts[m]).0;
      Machine(s.regs.gpr.pc, s)
  }

  /** A turn that executes anything executes a part of a basic block. */
  ghost predicate CutOk(w: World, g: Machine, n: nat)
    requires ProgramOk(w.prog)
  {
    !g.Transfers(w) ==> g.Here() in w.prog.insns && 1 <= n <= BlockLength(w.prog, g.Here())
  }

  ghost predicate CutsOk(w: World, script: seq<Turn>, cuts: seq<nat>, g: Machine)
    requires ProgramOk(w.prog)
  {
    && |cuts| <= |script|
    && forall t :: 0 <= t < |cuts| ==> CutOk(w, After(w, script, cuts[..t], g), cuts[t])
  }

  /** The last of the turns ends the run: a callback stops it, or the guest is where it should stop. */
  ghost predicate Ends(w: World, script: seq<Turn>, cuts: seq<nat>, g: Machine, stop: nat)
    requires 0 < |cuts| <= |script|
  {
    var m := |cuts| - 1;
    || Turned(w, After(w, script, cuts[..m], g), script[m], cuts[m]).1.Stop?
    || After(w, script, cuts, g).pc == stop
  }

  ghost predicate GoesOn(w: World, script: seq<Turn>, cuts: seq<nat>, g: Machine, stop: nat)
    requires |cuts| <= |script|
  {
    forall m :: 0 < m <= |cuts| ==> !Ends(w, script, cuts[..m], g, stop)
  }

  /** Some turn executed a sequence. */
  ghost predicate RanSome(w: World, script: seq<Turn>, cuts: seq<nat>, g: Machine)
    requires |cuts| <= |script|
  {
    exists t :: 0 <= t < |cuts| && !After(w, script, cuts[..t], g).Transfers(w) && script[t].enter.action.Continue?
  }

  /** One more turn, on top of those before. */
  lemma OneMoreTurn(w: World, script: seq<Turn>, cuts: seq<nat>, n: nat, g: Machine, stop: nat)
    requires ProgramOk(w.prog) && |cuts| < |script| && CutsOk(w, script, cuts, g)
    requires CutOk(w, After(w, script, cuts, g), n)
    ensures var more := cuts + [n];
            var here := After(w, script, cuts, g);
            && CutsOk(w, script, more, g)
            && After(w, script, more, g).state == Turned(w, here, script[|cuts|], n).0
            && After(w, script, more, g).pc == After(w, script, more, g).state.regs.gpr.pc
            && (RanSome(w, script, more, g)
                <==> RanSome(w, script, cuts, g) || (!here.Transfers(w) && script[|cuts|].enter.action.Continue?))
            && (Ends(w, script, more, g, stop)
                <==> Turned(w, here, script[|cuts|], n).1.Stop? || After(w, script, more, g).pc == stop)
            && (GoesOn(w, script, cuts, g, stop) && !Ends(w, script, more, g, stop) ==> GoesOn(w, script, more, g, stop))
            && (GoesOn(w, script, cuts, g, stop) ==> GoesOn(w, script, more[..|cuts|], g, stop))
  {
    assert (cuts + [n])[..|cuts|] == cuts;
    MoreAfter(w, script, cuts, n, g, stop);
    MoreCuts(w, script, cuts, n, g);
    MoreRan(w, script, cuts, n, g);
    if GoesOn(w, script, cuts, g, stop) {
      MoreGoing(w, script, cuts, n, g, stop);
    }
  }

  lemma MoreAfter(w: World, script: seq<Turn>, cuts: seq<nat>, n: nat, g: Machine, stop: nat)
    requires |cuts| < |script|
    ensures var more := cuts + [n];
            var turned := Turned(w, After(w, script, cuts, g), script[|cuts|], n);
            && After(w, script, more, g) == Machine(turned.0.regs.gpr.pc, turned.0)
            && (Ends(w, script, more, g, stop) <==> turned.1.Stop? || After(w, script, more, g).pc == stop)
  {
    var more := cuts + [n];
    assert more[..|cuts|] == cuts && more[|cuts|] == n;
  }

  lemma MoreCuts(w: World, script: seq<Turn>, cuts: seq<nat>, n: nat, g: Machine)
    requires ProgramOk(w.prog) && |cuts| < |script| && CutsOk(w, script, cuts, g)
    requires CutOk(w, After(w, script, cuts, g), n)
    ensures CutsOk(w, script, cuts + [n], g)
  {
    var more := cuts + [n];
    forall t | 0 <= t < |more|
      ensures CutOk(w, After(w, script, more[..t], g), more[t])
    {
      assert more[..t] == cuts[..t];
      if t == |cuts| {
        assert cuts[..t] == cuts;
      }
    }
  }

  lemma MoreRan(w: World, script: seq<Turn>, cuts: seq<nat>, n: nat, g: Machine)
    requires |cuts| < |script|
    ensures RanSome(w, script, cuts + [n], g)
            <==> RanSome(w, script, cuts, g)
                 || (!After(w, script, cuts, g).Transfers(w) && script[|cuts|].enter.action.Continue?)
  {
    var more := cuts + [n];
    assert more[..|cuts|] == cuts;
    assert forall t :: 0 <= t <= |cuts| ==> more[..t] == cuts[..t];
  }

  lemma MoreGoing(w: World, script: seq<Turn>, cuts: seq<nat>, n: nat, g: Machine, stop: nat)
    requires |cuts| < |script| && GoesOn(w, script, cuts, g, stop)
    ensures !Ends(w, script, cuts + [n], g, stop) ==> GoesOn(w, script, cuts + [n], g, stop)
  {
    var more := cuts + [n];
    forall m | 0 < m <= |cuts|
      ensures !Ends(w, script, more[..m], g, stop)
    {
      assert more[..m] == cuts[..m];
    }
    assert more[..|more|] == more;
  }

  // ------------------------------------------------------------------------
  // Rules that change within a turn
  // ------------------------------------------------------------------------

  /** The code of the next n instructions under other rules. */
  ghost function AheadUnder(w: World, g: Machine, rules: seq<Entry>, n: nat): seq<Patch> {
    Fresh(w.prog, w.generate, rules, g.Here(), n)
  }

  /** A turn executes the code that was selected before its entry event. A rule added by that event is
      in it exactly when the rule applies to none of the instructions. */
  lemma StaleAdd(w: World, g: Machine, rule: Rule, n: nat)
    requires GeneratorOk(w.generate) && g.state.rules.counter < EVENTID_VM_MASK
    ensures Ahead(w, g, n) == AheadUnder(w, g, Requested(AddRule(rule), g.state.rules).list, n)
            <==> Untouched(w.prog, rule, g.Here(), n)
  {
    var rules, v := g.state.rules.list, Entry(g.state.rules.counter, rule);
    var i := InsertedSomewhere(rules, v);
    assert rules[..i] + rules[i..] == rules;
    OneRuleIff(w.prog, w.generate, rules[..i], v, rules[i..], g.Here(), n);
  }

  /** The same for a rule that the event deletes. */
  lemma StaleDelete(w: World, g: Machine, id: nat, i: nat, n: nat)
    requires GeneratorOk(w.generate) && !VmEvent(id) && i < |g.state.rules.list| && g.state.rules.list[i].id == id
    requires forall j :: 0 <= j < i ==> g.state.rules.list[j].id != id
    ensures Ahead(w, g, n) == AheadUnder(w, g, Requested(DeleteRule(id), g.state.rules).list, n)
            <==> Untouched(w.prog, g.state.rules.list[i].rule, g.Here(), n)
  {
    var rules := g.state.rules.list;
    WithoutAt(rules, id, i);
    assert rules[..i] + [rules[i]] + rules[i + 1..] == rules;
    OneRuleIff(w.prog, w.generate, rules[..i], rules[i], rules[i + 1..], g.Here(), n);
  }

  /** Without rules, a callback that adds one for the instruction about to be executed and continues is
      too late for it. */
  lemma StaleEntry(w: World, g: Machine, rule: Rule)
    requires GeneratorOk(w.generate) && g.state.rules == RuleState([], 0)
    requires g.Here() in w.prog.insns && Applies(rule, w.prog.insns[g.Here()])
    ensures Ahead(w, g, 1) != AheadUnder(w, g, Reacted(Event(r => r, [AddRule(rule)], Continue), g.state).rules.list, 1)
  {
    RequestedOne(AddRule(rule), g.state.rules);
    assert Insns(w.prog, g.Here(), 1)[0] == w.prog.insns[g.Here()];
    StaleAdd(w, g, rule, 1);
  }

  /** An event that changes the rules does not end with Continue. */
  ghost predicate Polite(e: Event, s: RuleState) {
    e.action.Continue? ==> AllRequested(e.calls, s).list == s.list
  }
}
