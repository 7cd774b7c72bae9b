/**
 * The table-driven predictive (LL(1)) parser.
 *
 * The engine is an object whose private fields (the trace, the iteration
 * counter, the stack, the tokenized input and the input cursor) are
 * updated in place by `Parse` and its helpers `Reset`, `Accept`, `Match`,
 * `Expand` and `Error`. `Parse` is proved against a specification on
 * values: `Step` is one iteration of its loop on a `Config` (a copy of the
 * five fields), `RunFrom` iterates it to a verdict, and `Run(input)` is the
 * whole parse. The properties of `Run` are proved in module ParserProofs.
 */
module Parser {
  import opened Grammar
  import opened Stacks

  /** What one trace entry records; `ActionText` gives the text the trace displays. */
  datatype Action =
    | Initial
    | Accept
    | Match(terminal: Symbol)
    | Expand(nonTerminal: Symbol, body: seq<Symbol>)
    | Mismatch(expected: Symbol, found: Symbol)
    | NoEntry(nonTerminal: Symbol, lookahead: Symbol)
    | InvalidSymbol(symbol: Symbol)
  {
    predicate IsError()
    {
      Mismatch? || NoEntry? || InvalidSymbol?
    }
  }

  /** A body as the table writes it: its symbols joined by single spaces. */
  function Spaced(body: seq<Symbol>): (r: string)
    ensures |r| == if body == [] then 0 else 2 * |body| - 1
  {
    if |body| <= 1 then body else [body[0], ' '] + Spaced(body[1..])
  }

  const ErrorPrefix: string := "Error: "

  /** The action text each trace entry displays. */
  function ActionText(a: Action): string
  {
    match a
    case Initial => "Initial configuration"
    case Accept => "Accept"
    case Match(t) => "Match " + [t]
    case Expand(n, body) => "Expand " + [n] + " → " + Spaced(body)
    case Mismatch(e, f) => ErrorPrefix + "Mismatch. Expected " + [e] + ", but found " + [f]
    case NoEntry(n, t) => ErrorPrefix + "No parsing table entry for Non-Terminal " + [n] + " and Input " + [t]
    case InvalidSymbol(s) => ErrorPrefix + "Invalid symbol in stack: " + [s]
  }

  /** w occurs in s starting at index i. */
  predicate OccursAt(s: string, w: string, i: int)
  {
    0 <= i <= |s| - |w| && s[i..i + |w|] == w
  }

  /** `s.includes(w)`: w occurs in s at some index. */
  predicate Includes(s: string, w: string)
  {
    exists i :: 0 <= i <= |s| - |w| && OccursAt(s, w, i)
  }

  /** No "Er" anywhere in s, so s cannot include "Error". */
  predicate NoErrorStart(s: string)
  {
    forall i :: 0 <= i < |s| - 1 ==> !(s[i] == 'E' && s[i + 1] == 'r')
  }

  lemma NoErrorStartExcludes(s: string)
    requires NoErrorStart(s)
    ensures !Includes(s, "Error")
  {
    var w := "Error";
    forall i | 0 <= i <= |s| - |w|
      ensures !OccursAt(s, w, i)
    {
      assert s[i..i + |w|][0] == s[i] && s[i..i + |w|][1] == s[i + 1];
    }
  }

  /** A spaced body has a space at every odd index. */
  lemma {:induction false} SpacedOddIsSpace(body: seq<Symbol>)
    ensures forall j :: 0 <= j < |Spaced(body)| && j % 2 == 1 ==> Spaced(body)[j] == ' '
  {
    if |body| > 1 {
      SpacedOddIsSpace(body[1..]);
      var r := Spaced(body);
      var t := Spaced(body[1..]);
      assert r == [body[0], ' '] + t;
      forall j | 0 <= j < |r| && j % 2 == 1
        ensures r[j] == ' '
      {
        if j > 1 {
          assert r[j] == t[j - 2];
        }
      }
    }
  }

  /** The text of an expansion has no "Er": "Expand" has no r after its E, and a spaced body alternates symbols with spaces. */
  lemma ExpandTextNoErrorStart(n: Symbol, body: seq<Symbol>)
    ensures NoErrorStart(ActionText(Expand(n, body)))
  {
    var r := ActionText(Expand(n, body));
    var p := "Expand " + [n] + " → ";
    var q := Spaced(body);
    assert r == p + q && |p| == 11;
    SpacedOddIsSpace(body);
    forall i | 0 <= i < |r| - 1
      ensures !(r[i] == 'E' && r[i + 1] == 'r')
    {
      if i >= 11 {
        if (i - 11) % 2 == 1 {
          assert r[i] == q[i - 11];
        } else {
          assert r[i + 1] == q[i - 10];
        }
      } else if i == 0 {
        assert r[1] == 'x';
      } else {
        assert r[i] == p[i];
      }
    }
  }

  /** The text of an action that is not an error neither starts with "Error: " nor has an "Er" anywhere. */
  lemma NonErrorText(a: Action)
    requires !a.IsError()
    ensures NoErrorStart(ActionText(a)) && !(ErrorPrefix <= ActionText(a))
  {
    var r := ActionText(a);
    match a
    case Initial => assert r[0] != 'E';
    case Accept => assert r[0] != 'E';
    case Match(t) => assert r[0] != 'E';
    case Expand(n, body) =>
      assert r[1] != 'r';
      ExpandTextNoErrorStart(n, body);
  }

  /** The text of an error action starts with "Error: ". */
  lemma ErrorText(a: Action)
    requires a.IsError()
    ensures ErrorPrefix <= ActionText(a) && OccursAt(ActionText(a), "Error", 0)
  {
    var r := ActionText(a);
    match a
    case Mismatch(e, f) => assert r[..7] == ErrorPrefix;
    case NoEntry(n, t) => assert r[..7] == ErrorPrefix;
    case InvalidSymbol(s) => assert r[..7] == ErrorPrefix;
  }

  /**
   * The display tells error entries by their text: an entry's text
   * includes "Error" exactly when its action is an error, and then it
   * starts with "Error: ".
   */
  lemma ErrorTextIffError(a: Action)
    ensures Includes(ActionText(a), "Error") <==> a.IsError()
    ensures ErrorPrefix <= ActionText(a) <==> a.IsError()
  {
    if a.IsError() {
      ErrorText(a);
    } else {
      NonErrorText(a);
      NoErrorStartExcludes(ActionText(a));
    }
  }

  /**
   * One row of the execution trace: a copy of the stack (top last), the
   * unconsumed input, the action, the symbol it concerns ("" for the
   * initial entry) and whether the step succeeded.
   */
  datatype TraceStep = TraceStep(stack: seq<Symbol>, input: string, action: Action, currentSymbol: string, matched: bool)

  datatype ParseResult = ParseResult(accepted: bool, iterations: nat, trace: seq<TraceStep>)

  /** The parser's five fields, as a value. */
  datatype Config = Config(stack: seq<Symbol>, tokens: seq<Symbol>, position: nat, iterations: nat, trace: seq<TraceStep>)

  /** What one loop iteration leads to: another iteration, or a return with a verdict. */
  datatype Outcome = Continue(next: Config) | Halt(final: Config, accepted: bool)

  function ResultOf(h: Outcome): ParseResult
  {
    match h
    case Continue(c) => ParseResult(false, c.iterations, c.trace)
    case Halt(c, accepted) => ParseResult(accepted, c.iterations, c.trace)
  }

  /** The input split into one-character tokens, followed by the end marker. */
  function Tokenize(input: string): seq<Symbol>
  {
    input + [EndMarker]
  }

  /** What `Expand` pushes for a body: nothing for ε, otherwise the body reversed, so that its first symbol is on top. */
  function Pushed(body: seq<Symbol>): seq<Symbol>
  {
    if body == EpsilonBody then [] else Reverse(body)
  }

  /** The snapshot every helper appends: a copy of the current stack and the input from the cursor on. */
  function Record(c: Config, a: Action, current: string, matched: bool): Config
  {
    c.(trace := c.trace + [TraceStep(c.stack, Slice(c.tokens, c.position), a, current, matched)])
  }

  function Counted(c: Config): Config
  {
    c.(iterations := c.iterations + 1)
  }

  /** What `match` leaves behind: the top popped, the cursor one token further, the step recorded. */
  function Matched(c: Config, t: Symbol): Config
  {
    Record(c.(stack := Pop(c.stack), position := c.position + 1), Match(t), [t], true)
  }

  /** What `expand` leaves behind: the top replaced by the pushed body, the step recorded. */
  function Expanded(c: Config, n: Symbol, body: seq<Symbol>): Config
  {
    Record(c.(stack := Pop(c.stack) + Pushed(body)), Expand(n, body), [n], true)
  }

  /** The configuration `Parse` sets up before its loop. */
  function Start(input: string): Config
  {
    var c := Config([EndMarker, StartSymbol], Tokenize(input), 0, 0, []);
    Record(c, Initial, "", false)
  }

  /**
   * One iteration of the loop of `Parse`, on a non-empty stack and an
   * in-range cursor: count the iteration, then accept, match, expand or
   * stop with an error, appending exactly one trace entry.
   */
  function Step(c: Config): Outcome
    requires |c.stack| > 0 && c.position < |c.tokens|
  {
    var c' := Counted(c);
    var top := c.stack[|c.stack| - 1];
    var cur := c.tokens[c.position];
    if top == EndMarker && cur == EndMarker then
      Halt(Record(c', Accept, [EndMarker], true), true)
    else if top in Terminals then
      if top == cur then
        Continue(Matched(c', top))
      else
        Halt(Record(c', Mismatch(top, cur), [cur], false), false)
    else if top in NonTerminals then
      if top in ParsingTable && cur in ParsingTable[top] then
        var body := ParsingTable[top][cur];
        Continue(Expanded(c', top, body))
      else
        Halt(Record(c', NoEntry(top, cur), [cur], false), false)
    else
      Halt(Record(c', InvalidSymbol(top), [top], false), false)
  }

  /**
   * The stack shapes the parser can reach on this grammar: the end marker
   * alone, or with one non-terminal above it, or with a non-terminal and
   * then an input terminal above it.
   */
  predicate StackShape(s: seq<Symbol>)
  {
    && 0 < |s| <= 3
    && s[0] == EndMarker
    && (|s| >= 2 ==> s[1] in NonTerminals)
    && (|s| == 3 ==> s[2] in InputAlphabet)
  }

  /** The loop invariant of `Parse`: the tokens end in the end marker, the cursor is on a token, the stack is well shaped. */
  predicate Inv(c: Config)
  {
    && |c.tokens| > 0
    && c.tokens[|c.tokens| - 1] == EndMarker
    && c.position < |c.tokens|
    && StackShape(c.stack)
  }

  /** Decreases on every iteration that continues: a match consumes a token, an expansion replaces a non-terminal on top by a terminal or by nothing. */
  function Measure(c: Config): int
  {
    3 * (|c.tokens| - c.position) + (if |c.stack| == 3 then 1 else if |c.stack| == 2 then 2 else 0)
  }

  /** The symbol on top of the parser's stack. */
  function Top(c: Config): Symbol
    requires |c.stack| > 0
  {
    Last(c.stack)
  }

  /** Acceptance: the end marker on top meets the end marker as lookahead. */
  lemma StepAccept(c: Config)
    requires Inv(c) && Top(c) == EndMarker && c.tokens[c.position] == EndMarker
    ensures Step(c) == Halt(Record(Counted(c), Accept, [EndMarker], true), true)
  {
    assert c.stack[|c.stack| - 1] == EndMarker;
  }

  /** A match: the top is the input terminal above the non-terminal, so the lookahead is not the last token. */
  lemma StepMatch(c: Config)
    requires Inv(c) && !(Top(c) == EndMarker && c.tokens[c.position] == EndMarker)
    requires Top(c) in Terminals && Top(c) == c.tokens[c.position]
    ensures |c.stack| == 3 && Top(c) in InputAlphabet
    ensures var n := Matched(Counted(c), Top(c));
      Step(c) == Continue(n) && Inv(n) && 0 <= Measure(n) < Measure(c)
  {
    assert |c.stack| == 3 && c.position < |c.tokens| - 1;
    assert Pop(c.stack) == c.stack[..2];
  }

  /** A non-terminal with a table entry for the lookahead lets the loop go on with the expansion. */
  lemma StepExpandContinues(c: Config)
    requires Inv(c) && Top(c) !in Terminals && Top(c) in NonTerminals
    requires Top(c) in ParsingTable && c.tokens[c.position] in ParsingTable[Top(c)]
    ensures Step(c) == Continue(Expanded(Counted(c), Top(c), ParsingTable[Top(c)][c.tokens[c.position]]))
  {
    assert c.stack[|c.stack| - 1] == Top(c);
  }

  /** An expansion: the non-terminal sits right above the end marker and is replaced by nothing or by a terminal above a non-terminal. */
  lemma StepExpand(c: Config)
    requires Inv(c) && Top(c) !in Terminals && Top(c) in NonTerminals
    requires Top(c) in ParsingTable && c.tokens[c.position] in ParsingTable[Top(c)]
    ensures var body := ParsingTable[Top(c)][c.tokens[c.position]];
      var n := Expanded(Counted(c), Top(c), body);
      && Step(c) == Continue(n) && Inv(n) && 0 <= Measure(n) < Measure(c)
      && |c.stack| == 2
      && (n.stack == [EndMarker] || (|n.stack| == 3 && n.stack[2] in InputAlphabet))
  {
    var body := ParsingTable[Top(c)][c.tokens[c.position]];
    StepExpandContinues(c);
    TableWellShaped();
    assert WellShapedBody(body);
    assert |c.stack| == 2;
    if body == EpsilonBody {
      assert Pop(c.stack) + Pushed(body) == [c.stack[0]];
    } else {
      assert Pop(c.stack) + Pushed(body) == [c.stack[0], body[1], body[0]];
    }
  }

  /** An iteration that continues keeps the invariant and lowers the measure. */
  lemma StepPreservesInv(c: Config)
    requires Inv(c)
    ensures Step(c).Continue? ==> Inv(Step(c).next) && 0 <= Measure(Step(c).next) < Measure(c)
  {
    if Step(c).Continue? {
      if Top(c) in Terminals {
        StepMatch(c);
      } else {
        StepExpand(c);
      }
    }
  }

  /** The symbol on top of a well-shaped stack is a declared terminal or non-terminal. */
  lemma TopDeclared(c: Config)
    requires Inv(c)
    ensures c.stack[|c.stack| - 1] in Terminals || c.stack[|c.stack| - 1] in NonTerminals
  {
    var top := c.stack[|c.stack| - 1];
    assert top == EndMarker || top in NonTerminals || top in InputAlphabet;
  }

  /**
   * The loop of `Parse`, run to its return. The first branch is the
   * fallback after the loop, which the invariant makes unreachable.
   */
  function RunFrom(c: Config): (h: Outcome)
    requires Inv(c)
    ensures h.Halt?
    decreases Measure(c), 1
  {
    if |c.stack| == 0 then Halt(c, false) else Iterate(c)
  }

  /** One iteration of the loop, then the loop again if it goes on. */
  function Iterate(c: Config): (h: Outcome)
    requires Inv(c) && |c.stack| > 0
    ensures h.Halt?
    decreases Measure(c), 0
  {
    var o := Step(c);
    if o.Halt? then o
    else
      StepPreservesInv(c);
      RunFrom(o.next)
  }

  /** Running the loop from c returns h. */
  predicate LeadsTo(c: Config, h: Outcome)
  {
    Inv(c) && RunFrom(c) == h
  }

  // `RunFrom` unfolded once, one lemma per branch of `Step`, with the
  // iteration counted: each return gives its verdict, and each step that
  // goes on keeps the invariant.

  lemma RunAccept(c: Config)
    requires Inv(c) && Top(c) == EndMarker && c.tokens[c.position] == EndMarker
    ensures RunFrom(c) == Halt(Record(Counted(c), Accept, [EndMarker], true), true)
  {
    assert RunFrom(c) == Iterate(c);
    StepAccept(c);
  }

  lemma RunMatch(c: Config)
    requires Inv(c) && !(Top(c) == EndMarker && c.tokens[c.position] == EndMarker)
    requires Top(c) in Terminals && Top(c) == c.tokens[c.position]
    ensures var n := Matched(Counted(c), Top(c));
      Inv(n) && Measure(n) < Measure(c) && RunFrom(c) == RunFrom(n)
  {
    assert RunFrom(c) == Iterate(c);
    StepMatch(c);
  }

  lemma RunMismatch(c: Config)
    requires Inv(c) && !(Top(c) == EndMarker && c.tokens[c.position] == EndMarker)
    requires Top(c) in Terminals && Top(c) != c.tokens[c.position]
    ensures RunFrom(c) == Halt(Record(Counted(c), Mismatch(Top(c), c.tokens[c.position]), [c.tokens[c.position]], false), false)
  {
    assert RunFrom(c) == Iterate(c);
  }

  lemma RunExpand(c: Config)
    requires Inv(c) && Top(c) !in Terminals && Top(c) in NonTerminals
    requires Top(c) in ParsingTable && c.tokens[c.position] in ParsingTable[Top(c)]
    ensures var body := ParsingTable[Top(c)][c.tokens[c.position]];
      var n := Expanded(Counted(c), Top(c), body);
      Inv(n) && Measure(n) < Measure(c) && RunFrom(c) == RunFrom(n)
  {
    assert RunFrom(c) == Iterate(c);
    StepExpand(c);
  }

  lemma RunNoEntry(c: Config)
    requires Inv(c) && Top(c) !in Terminals && Top(c) in NonTerminals
    requires !(Top(c) in ParsingTable && c.tokens[c.position] in ParsingTable[Top(c)])
    ensures RunFrom(c) == Halt(Record(Counted(c), NoEntry(Top(c), c.tokens[c.position]), [c.tokens[c.position]], false), false)
  {
    assert RunFrom(c) == Iterate(c);
  }

  lemma StartInv(input: string)
    ensures Inv(Start(input))
  {
  }

  /** The whole parse of an input, as it ends. */
  function Run(input: string): (h: Outcome)
    ensures h.Halt?
  {
    StartInv(input);
    RunFrom(Start(input))
  }

  class LL1Parser {
    var trace: seq<TraceStep>
    var iterations: nat
    var stackContent: seq<Symbol>
    var inputTokens: seq<Symbol>
    var position: nat

    constructor ()
      ensures trace == [] && iterations == 0 && stackContent == [] && inputTokens == [] && position == 0
    {
      trace, iterations, stackContent, inputTokens, position := [], 0, [], [], 0;
    }

    /** The five fields as a value. */
    function State(): Config
      reads this
    {
      Config(stackContent, inputTokens, position, iterations, trace)
    }

    method Reset()
      modifies this
      ensures trace == [] && iterations == 0 && stackContent == [] && inputTokens == [] && position == 0
    {
      trace := [];
      iterations := 0;
      stackContent := [];
      inputTokens := [];
      position := 0;
    }

    /** Records the accepting entry and returns the positive verdict. */
    method Accept() returns (r: ParseResult)
      modifies this
      ensures State() == Record(old(State()), Action.Accept, [EndMarker], true)
      ensures r == ParseResult(true, iterations, trace)
    {
      trace := trace + [TraceStep(stackContent, Slice(inputTokens, position), Action.Accept, [EndMarker], true)];
      r := ParseResult(true, iterations, trace);
    }

    /** Pops the matched terminal, advances the cursor by one and records the step. */
    method Match(top: Symbol)
      modifies this
      ensures State() == Matched(old(State()), top)
    {
      stackContent := Pop(stackContent);
      position := position + 1;
      trace := trace + [TraceStep(stackContent, Slice(inputTokens, position), Action.Match(top), [top], true)];
    }

    /** Replaces the non-terminal on top by the table's body for the lookahead (nothing for ε) and records the step. */
    method Expand(top: Symbol, currentInput: Symbol)
      requires top in ParsingTable && currentInput in ParsingTable[top]
      modifies this
      ensures var body := ParsingTable[top][currentInput];
        State() == Expanded(old(State()), top, body)
    {
      var production := ParsingTable[top][currentInput];
      stackContent := Pop(stackContent);
      if production != EpsilonBody {
        var symbols := Reverse(production);
        stackContent := stackContent + symbols;
      }
      assert stackContent == Pop(old(stackContent)) + Pushed(production);
      trace := trace + [TraceStep(stackContent, Slice(inputTokens, position), Action.Expand(top, production), [top], true)];
    }

    /** Records a failed step and returns the negative verdict. */
    method Error(action: Action, currentSymbol: string) returns (r: ParseResult)
      modifies this
      ensures State() == Record(old(State()), action, currentSymbol, false)
      ensures r == ParseResult(false, iterations, trace)
    {
      trace := trace + [TraceStep(stackContent, Slice(inputTokens, position), action, currentSymbol, false)];
      r := ParseResult(false, iterations, trace);
    }

    /**
     * Parses the input from a fresh configuration. The verdict and the
     * fields afterwards depend on the input alone, whatever earlier calls
     * left behind.
     */
    method Parse(inputStr: string) returns (r: ParseResult)
      modifies this
      ensures r == ResultOf(Run(inputStr))
      ensures State() == Run(inputStr).final
      ensures r.iterations == iterations && r.trace == trace
    {
      Reset();
      inputTokens := Tokenize(inputStr);
      stackContent := [EndMarker, StartSymbol];
      position := 0;
      trace := trace + [TraceStep(stackContent, Slice(inputTokens, position), Initial, "", false)];
      ghost var goal := Run(inputStr);

      while |stackContent| > 0
        invariant LeadsTo(State(), goal)
        decreases Measure(State())
      {
        ghost var before := State();
        iterations := iterations + 1;
        ghost var counted := State();
        assert counted == Counted(before);
        var top := stackContent[|stackContent| - 1];
        var currentInput := inputTokens[position];
        assert top == Last(before.stack) == Top(before);
        assert currentInput == before.tokens[before.position];

        if top == EndMarker && currentInput == EndMarker {
          RunAccept(before);
          r := Accept();
          assert State() == Record(counted, Action.Accept, [EndMarker], true);
          return;
        }

        if top in Terminals {
          if top == currentInput {
            RunMatch(before);
            Match(top);
            assert State() == Matched(counted, top);
          } else {
            RunMismatch(before);
            r := Error(Mismatch(top, currentInput), [currentInput]);
            assert State() == Record(counted, Mismatch(top, currentInput), [currentInput], false);
            return;
          }
        } else if top in NonTerminals {
          if top in ParsingTable && currentInput in ParsingTable[top] {
            RunExpand(before);
            Expand(top, currentInput);
            ghost var body := ParsingTable[top][currentInput];
            assert State() == Expanded(counted, top, body);
          } else {
            RunNoEntry(before);
            r := Error(NoEntry(top, currentInput), [currentInput]);
            assert State() == Record(counted, NoEntry(top, currentInput), [currentInput], false);
            return;
          }
        } else {
          // The source returns Error(InvalidSymbol(top), [top]) here, as Step
          // does; the stack invariant rules this branch out.
          TopDeclared(before);
          assert false;
        }
      }
      // The fallback return: the invariant keeps the end marker on the stack.
      assert false;
    }
  }
}
