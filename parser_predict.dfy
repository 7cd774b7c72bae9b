/**
 * A second, trace-free definition of what the parser decides, and the
 * proof that `Run` agrees with it. `Predict(n, rest)` is the verdict and
 * the sequence of actions of the parser when the stack holds the end
 * marker with the non-terminal n above it and `rest` is the input still to
 * be read (ending in the end marker). It follows the three stack shapes
 * (see `Parser.StackShape`) and carries no stack, cursor or trace.
 */
module ParserPrediction {
  import opened Grammar
  import opened Stacks
  import opened Parser
  import opened ParserProofs

  /** A verdict and the actions that led to it, in order. */
  datatype Verdict = Verdict(accepted: bool, actions: seq<Action>)
  {
    /** The same verdict, reached after one more action first. */
    function After(a: Action): Verdict
    {
      Verdict(accepted, [a] + actions)
    }
  }

  /** The input still to be read always ends in the end marker. */
  predicate Remaining(rest: seq<Symbol>)
  {
    |rest| > 0 && rest[|rest| - 1] == EndMarker
  }

  /** Only the end marker on the stack: accept at the end of the input, otherwise a mismatch against the end marker. */
  function AtBottom(t: Symbol): Verdict
  {
    if t == EndMarker then Verdict(true, [Accept]) else Verdict(false, [Mismatch(EndMarker, t)])
  }

  /**
   * A non-terminal n above the end marker: look the lookahead up in the
   * table, expand, and continue with the shape the body leaves (the
   * second test only makes the function total; every cell is
   * well shaped).
   */
  function Predict(n: Symbol, rest: seq<Symbol>): Verdict
    requires Remaining(rest)
    decreases |rest|, 1
  {
    var t := rest[0];
    if !(n in ParsingTable && t in ParsingTable[n]) then Verdict(false, [NoEntry(n, t)])
    else
      var body := ParsingTable[n][t];
      if body == EpsilonBody || |body| != 2 then AtBottom(t).After(Expand(n, body))
      else MatchThen(body[0], body[1], rest).After(Expand(n, body))
  }

  /** A terminal above the non-terminal n: match it against the lookahead and continue with n, or stop with a mismatch. */
  function MatchThen(top: Symbol, n: Symbol, rest: seq<Symbol>): Verdict
    requires Remaining(rest)
    decreases |rest|, 0
  {
    var t := rest[0];
    if top == t && t != EndMarker then Predict(n, rest[1..]).After(Match(t))
    else Verdict(false, [Mismatch(top, t)])
  }

  /** What an accepting prediction from "$n" went through first: the table cell for the lookahead, then either the end or a match. */
  lemma PredictAccepts(n: Symbol, rest: seq<Symbol>)
    requires Remaining(rest) && Predict(n, rest).accepted
    ensures n in ParsingTable && rest[0] in ParsingTable[n]
    ensures var body := ParsingTable[n][rest[0]];
      && (body == EpsilonBody || |body| != 2 ==> rest[0] == EndMarker)
      && (body != EpsilonBody && |body| == 2 ==>
            body[0] == rest[0] && rest[0] != EndMarker && Remaining(rest[1..]) && Predict(body[1], rest[1..]).accepted)
  {
  }

  /** With a table cell for the lookahead, the prediction expands first and goes on with the shape the body leaves. */
  lemma PredictExpands(n: Symbol, rest: seq<Symbol>)
    requires Remaining(rest) && n in ParsingTable && rest[0] in ParsingTable[n]
    requires WellShapedBody(ParsingTable[n][rest[0]])
    ensures var body := ParsingTable[n][rest[0]];
      && (body == EpsilonBody ==> Predict(n, rest) == AtBottom(rest[0]).After(Expand(n, body)))
      && (body != EpsilonBody ==> Predict(n, rest) == MatchThen(body[0], body[1], rest).After(Expand(n, body)))
  {
  }

  /** A return of the loop agrees with a verdict: same verdict, and the trace grew by exactly its actions. */
  predicate Agrees(h: Outcome, before: seq<TraceStep>, v: Verdict)
  {
    h.Halt? && h.accepted == v.accepted && Actions(h.final.trace) == Actions(before) + v.actions
  }

  lemma AgreesAfter(h: Outcome, before: seq<TraceStep>, e: TraceStep, v: Verdict)
    requires Agrees(h, before + [e], v)
    ensures Agrees(h, before, v.After(e.action))
  {
    ActionsAppend(before, e);
  }

  /** With only the end marker on the stack the loop returns at once, accepting exactly at the end marker. */
  lemma BottomStep(c: Config)
    requires Inv(c) && |c.stack| == 1
    ensures var t := c.tokens[c.position];
      var a := if t == EndMarker then Accept else Mismatch(EndMarker, t);
      RunFrom(c) == Halt(c.(iterations := c.iterations + 1, trace := c.trace + [TraceStep(c.stack, Slice(c.tokens, c.position), a, [t], t == EndMarker)]), t == EndMarker)
  {
    assert c.stack == [EndMarker];
    assert EndMarker in Terminals;
  }

  lemma AtBottomAgrees(c: Config)
    requires Inv(c) && |c.stack| == 1
    ensures Agrees(RunFrom(c), c.trace, AtBottom(c.tokens[c.position]))
  {
    var t := c.tokens[c.position];
    var a := if t == EndMarker then Accept else Mismatch(EndMarker, t);
    BottomStep(c);
    ActionsAppend(c.trace, TraceStep(c.stack, Slice(c.tokens, c.position), a, [t], t == EndMarker));
  }

  lemma {:induction false} MatchThenAgrees(c: Config)
    requires Inv(c) && |c.stack| == 3
    ensures Agrees(RunFrom(c), c.trace, MatchThen(c.stack[2], c.stack[1], c.tokens[c.position..]))
    decreases Measure(c), 0
  {
    var top := c.stack[2];
    var t := c.tokens[c.position];
    assert Top(c) == top && top in Terminals && top != EndMarker;
    if top == t {
      RunMatch(c);
      var c1 := Matched(Counted(c), top);
      var e := TraceStep(c1.stack, Slice(c1.tokens, c1.position), Match(top), [top], true);
      assert c1.trace == c.trace + [e];
      assert c1.stack == c.stack[..2] && c1.tokens[c1.position..] == c.tokens[c.position..][1..];
      PredictAgrees(c1);
      AgreesAfter(RunFrom(c1), c.trace, e, Predict(c.stack[1], c1.tokens[c1.position..]));
    } else {
      RunMismatch(c);
      ActionsAppend(c.trace, TraceStep(c.stack, Slice(c.tokens, c.position), Mismatch(top, t), [t], false));
    }
  }

  /** With a non-terminal on top and a table cell for the lookahead, the loop expands and goes on. */
  lemma ExpandStep(c: Config)
    requires Inv(c) && |c.stack| == 2
    requires c.stack[1] in ParsingTable && c.tokens[c.position] in ParsingTable[c.stack[1]]
    ensures var n := c.stack[1]; var body := ParsingTable[n][c.tokens[c.position]];
      var c1 := Expanded(Counted(c), n, body);
      && Inv(c1) && Measure(c1) < Measure(c)
      && c1.stack == [EndMarker] + Pushed(body)
      && c1.tokens == c.tokens && c1.position == c.position
      && c1.trace == c.trace + [TraceStep(c1.stack, Slice(c.tokens, c.position), Expand(n, body), [n], true)]
      && RunFrom(c) == RunFrom(c1)
  {
    NonTerminalIsNotTerminal(c.stack[1]);
    RunExpand(c);
    assert Pop(c.stack) == [c.stack[0]] == [EndMarker];
  }

  lemma NoEntryAgrees(c: Config)
    requires Inv(c) && |c.stack| == 2
    requires !(c.stack[1] in ParsingTable && c.tokens[c.position] in ParsingTable[c.stack[1]])
    ensures Agrees(RunFrom(c), c.trace, Predict(c.stack[1], c.tokens[c.position..]))
  {
    VocabulariesConsistent();
    var o := Step(c);
    var n := c.stack[1];
    var t := c.tokens[c.position];
    var e := TraceStep(c.stack, Slice(c.tokens, c.position), NoEntry(n, t), [t], false);
    assert o == Halt(c.(iterations := c.iterations + 1, trace := c.trace + [e]), false);
    assert RunFrom(c) == o;
    ActionsAppend(c.trace, e);
  }

  /** From the stack "$n", the loop returns the verdict `Predict` gives and appends exactly its actions. */
  lemma {:induction false} PredictAgrees(c: Config)
    requires Inv(c) && |c.stack| == 2
    ensures Agrees(RunFrom(c), c.trace, Predict(c.stack[1], c.tokens[c.position..]))
    decreases Measure(c), 2
  {
    if c.stack[1] in ParsingTable && c.tokens[c.position] in ParsingTable[c.stack[1]] {
      ExpandAgrees(c);
    } else {
      NoEntryAgrees(c);
    }
  }

  /** The expansion case of `PredictAgrees`: the body leaves the end marker alone, or a terminal above a non-terminal. */
  lemma {:induction false} ExpandAgrees(c: Config)
    requires Inv(c) && |c.stack| == 2
    requires c.stack[1] in ParsingTable && c.tokens[c.position] in ParsingTable[c.stack[1]]
    ensures Agrees(RunFrom(c), c.trace, Predict(c.stack[1], c.tokens[c.position..]))
    decreases Measure(c), 1
  {
    var n := c.stack[1];
    var t := c.tokens[c.position];
    var rest := c.tokens[c.position..];
    assert Remaining(rest) && rest[0] == t;
    var body := ParsingTable[n][t];
    assert WellShapedBody(body) by { TableWellShaped(); }
    if body == EpsilonBody {
      ExpandEpsilonAgrees(c);
    } else {
      ExpandStep(c);
      PredictExpands(n, rest);
      var c1 := Expanded(Counted(c), n, body);
      var e := TraceStep(c1.stack, Slice(c.tokens, c.position), Expand(n, body), [n], true);
      assert c1.stack == [EndMarker, body[1], body[0]];
      MatchThenAgrees(c1);
      AgreesAfter(RunFrom(c1), c.trace, e, MatchThen(body[0], body[1], rest));
    }
  }

  /** The ε case of ExpandAgrees: after the expansion only the end marker is left. */
  lemma ExpandEpsilonAgrees(c: Config)
    requires Inv(c) && |c.stack| == 2
    requires c.stack[1] in ParsingTable && c.tokens[c.position] in ParsingTable[c.stack[1]]
    requires ParsingTable[c.stack[1]][c.tokens[c.position]] == EpsilonBody
    ensures Agrees(RunFrom(c), c.trace, Predict(c.stack[1], c.tokens[c.position..]))
  {
    var n := c.stack[1];
    var t := c.tokens[c.position];
    var rest := c.tokens[c.position..];
    assert Remaining(rest) && rest[0] == t;
    var body := EpsilonBody;
    ExpandStep(c);
    PredictExpands(n, rest);
    var c1 := Expanded(Counted(c), n, body);
    var e := TraceStep(c1.stack, Slice(c.tokens, c.position), Expand(n, body), [n], true);
    assert c1.stack == [EndMarker];
    AtBottomAgrees(c1);
    AgreesAfter(RunFrom(c1), c.trace, e, AtBottom(t));
  }

  /**
   * A parse returns the verdict `Predict` gives for the start symbol on
   * the input followed by the end marker, and its trace is the initial
   * entry followed by exactly `Predict`'s actions.
   */
  lemma RunPredicts(input: string)
    ensures var v := Predict(StartSymbol, Tokenize(input)); var h := Run(input);
      h.accepted == v.accepted && Actions(h.final.trace) == [Initial] + v.actions
  {
    var c := Start(input);
    StartInv(input);
    PredictAgrees(c);
    assert Actions(c.trace) == [Initial] by { ActionsAppend([], c.trace[0]); }
  }
}
