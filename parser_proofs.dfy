/**
 * Properties of the predictive parser, proved about its specification
 * `Run` (module Parser), to which `LL1Parser.Parse` is proved equal: the
 * stack invariant, the effect of one step, the shape of the trace and the
 * verdict, and independence from earlier calls.
 */
module ParserProofs {
  import opened Grammar
  import opened Stacks
  import opened Parser

  /** The actions of a trace, in order. */
  function Actions(t: seq<TraceStep>): (r: seq<Action>)
    ensures |r| == |t|
  {
    if t == [] then [] else Actions(t[..|t| - 1]) + [t[|t| - 1].action]
  }

  lemma ActionsAppend(t: seq<TraceStep>, e: TraceStep)
    ensures Actions(t + [e]) == Actions(t) + [e.action]
  {
    assert (t + [e])[..|t|] == t;
  }

  /** The configuration an iteration leaves behind, whether the loop goes on or returns. */
  function Reached(o: Outcome): Config
  {
    match o
    case Continue(n) => n
    case Halt(n, _) => n
  }

  /**
   * The end marker stays at the bottom of the stack, and every other stack
   * symbol is a declared terminal or non-terminal other than the end marker
   * (ε is never on the stack).
   */
  lemma StackInvariant(c: Config)
    requires Inv(c)
    ensures c.stack[0] == EndMarker
    ensures forall i :: 0 < i < |c.stack| ==>
      c.stack[i] != EndMarker && c.stack[i] != Epsilon && (c.stack[i] in Terminals || c.stack[i] in NonTerminals)
  {
  }

  /**
   * One iteration: the tokens never change, the counter goes up by one and
   * exactly one entry is appended, a snapshot of the new stack and of the
   * input from the new cursor on. A match pops exactly its terminal (never
   * the end marker) and advances the cursor by one; an expansion pops the
   * non-terminal and pushes the table's body reversed (nothing for ε); a
   * return leaves stack and cursor as they were, and never reports an
   * invalid stack symbol.
   */
  lemma StepEffects(c: Config)
    requires Inv(c)
    ensures var o := Step(c); var n := Reached(o); var e := Last(n.trace);
      && n.tokens == c.tokens
      && n.iterations == c.iterations + 1
      && n.trace == c.trace + [e]
      && e.stack == n.stack && e.input == Slice(n.tokens, n.position)
      && (o.Continue? ==> e.matched && (e.action.Match? || e.action.Expand?))
      && (o.Continue? && e.action.Match? ==>
            && e.action.terminal == c.stack[|c.stack| - 1] == c.tokens[c.position]
            && e.action.terminal != EndMarker
            && n.stack == Pop(c.stack) && n.position == c.position + 1)
      && (o.Continue? && e.action.Expand? ==>
            && e.action.nonTerminal == c.stack[|c.stack| - 1]
            && e.action.nonTerminal in ParsingTable && c.tokens[c.position] in ParsingTable[e.action.nonTerminal]
            && e.action.body == ParsingTable[e.action.nonTerminal][c.tokens[c.position]]
            && n.stack == Pop(c.stack) + Pushed(e.action.body) && n.position == c.position)
      && (o.Halt? ==> n.stack == c.stack && n.position == c.position && !e.action.InvalidSymbol?)
  {
  }

  predicate IsInitialEntry(e: TraceStep)
  {
    e.action == Initial && !e.matched && e.currentSymbol == ""
  }

  /** An entry of a step that let the loop go on. */
  predicate IsProgressEntry(e: TraceStep)
  {
    e.matched && (e.action.Match? || e.action.Expand?)
  }

  /** The trace while the loop runs: the initial entry, then only successful matches and expansions, every snapshot well shaped. */
  predicate RunningTrace(t: seq<TraceStep>)
  {
    && |t| > 0
    && IsInitialEntry(t[0])
    && (forall i :: 0 < i < |t| ==> IsProgressEntry(t[i]))
    && (forall i :: 0 <= i < |t| ==> StackShape(t[i].stack))
  }

  /**
   * The trace as `Parse` returns it: the initial entry, successful matches
   * and expansions, and one last entry that is the accepting entry exactly
   * when the input is accepted and otherwise a failed mismatch or
   * missing-table-entry entry.
   */
  predicate FinalTrace(t: seq<TraceStep>, accepted: bool)
  {
    && |t| >= 2
    && IsInitialEntry(t[0])
    && (forall i :: 0 < i < |t| - 1 ==> IsProgressEntry(t[i]))
    && (forall i :: 0 <= i < |t| ==> StackShape(t[i].stack))
    && (accepted <==> (Last(t).action == Accept && Last(t).matched && Last(t).currentSymbol == [EndMarker]))
    && (!accepted ==> !Last(t).matched && (Last(t).action.Mismatch? || Last(t).action.NoEntry?))
  }

  /**
   * Running the loop to its return from a configuration whose trace has
   * one entry more than iterations were counted keeps that relation,
   * extends the trace and ends it in a verdict entry; in particular the
   * fallback return after the loop is never taken.
   */
  lemma {:induction false} RunFromTrace(c: Config)
    requires Inv(c) && RunningTrace(c.trace) && |c.trace| == c.iterations + 1
    ensures var h := RunFrom(c);
      && FinalTrace(h.final.trace, h.accepted)
      && |h.final.trace| == h.final.iterations + 1
      && |c.trace| < |h.final.trace| && h.final.trace[..|c.trace|] == c.trace
    decreases Measure(c)
  {
    StepPreservesInv(c);
    StepEffects(c);
    var o := Step(c);
    var n := Reached(o);
    assert RunFrom(c) == if o.Halt? then o else RunFrom(o.next);
    if o.Continue? {
      assert RunningTrace(n.trace);
      RunFromTrace(n);
      var t := RunFrom(n).final.trace;
      assert t[..|c.trace|] == t[..|n.trace|][..|c.trace|];
    } else {
      assert n.trace[..|c.trace|] == c.trace;
    }
  }

  /** Every iteration that goes on lowers the measure, so the loop counts at most Measure(c) + 1 more iterations. */
  lemma {:induction false} RunFromIterations(c: Config)
    requires Inv(c)
    ensures RunFrom(c).final.iterations <= c.iterations + Measure(c) + 1
    decreases Measure(c)
  {
    StepPreservesInv(c);
    StepEffects(c);
    var o := Step(c);
    assert RunFrom(c) == if o.Halt? then o else RunFrom(o.next);
    if o.Continue? {
      RunFromIterations(o.next);
    }
  }

  /** The iteration count of a parse is linear in the length of the input. */
  lemma RunIterations(input: string)
    ensures Run(input).final.iterations <= 3 * |input| + 6
  {
    StartInv(input);
    RunFromIterations(Start(input));
  }

  /**
   * The trace of a parse: its first entry is the initial configuration
   * (stack "$S", the whole input followed by "$", no symbol, not
   * matched), it has one more entry than iterations were counted, and it
   * ends in the verdict entry described by `FinalTrace`.
   */
  lemma ParseTrace(input: string)
    ensures var h := Run(input); var t := h.final.trace;
      && FinalTrace(t, h.accepted)
      && |t| == h.final.iterations + 1
      && t[0] == TraceStep([EndMarker, StartSymbol], Tokenize(input), Initial, "", false)
  {
    StartInv(input);
    var c := Start(input);
    RunFromTrace(c);
    var t := RunFrom(c).final.trace;
    assert t[0] == t[..1][0];
  }

  /** The verdict `Parse` returns agrees with the trace it returns, in both directions. */
  lemma ParseVerdict(input: string)
    ensures var r := ResultOf(Run(input));
      && |r.trace| == r.iterations + 1
      && (r.accepted <==> Last(r.trace).action == Accept && Last(r.trace).matched)
      && (!r.accepted <==> Last(r.trace).action.IsError() && !Last(r.trace).matched)
  {
    ParseTrace(input);
  }

  /**
   * A client of the class: whatever a parser object went through before,
   * parsing the same input twice gives identical results.
   */
  method ParseTwice(p: LL1Parser, input: string) returns (first: ParseResult, second: ParseResult)
    modifies p
    ensures first == second == ResultOf(Run(input))
  {
    first := p.Parse(input);
    second := p.Parse(input);
  }
}
