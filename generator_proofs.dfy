/**
 * What the generator produces: exactly the sentences without an end
 * marker that the parser accepts. Every sentence it returns uses only the
 * input terminals, is the yield of a leftmost derivation from the start
 * symbol, and is accepted by `Parse`; conversely every end-marker-free
 * input `Parse` accepts is returned for some oracle.
 */
module GeneratorProofs {
  import opened Wrappers
  import opened Grammar
  import opened Stacks
  import opened Derivations
  import opened Generator
  import opened Parser
  import opened ParserPrediction

  /** The end marker alone is emitted and ends the generation. */
  lemma EmitBottom(ch: seq<nat>)
    ensures Emitted([EndMarker], ch) == Some([EndMarker])
  {
    assert Pop([EndMarker]) == [];
    assert Emitted([], ch) == Some([]);
    assert [EndMarker] + [] == [EndMarker];
  }

  /** An oracle value below the number of alternatives selects that alternative. */
  lemma ChooseIndex(n: Symbol, k: nat)
    requires n in NonTerminals && n in Productions && k < |Productions[n]|
    ensures Choose(n, k) == Productions[n][k]
  {
    assert k % |Productions[n]| == k;
  }

  /** The position, among the non-terminal's alternatives, of the one an oracle value selects. */
  lemma ChoiceIndex(n: Symbol, choice: nat) returns (k: nat)
    requires n in NonTerminals
    ensures n in Productions && k < |Productions[n]| && Productions[n][k] == Choose(n, choice)
  {
    VocabulariesConsistent();
    ProductionsWellShaped();
    k := choice % |Productions[n]|;
  }

  /** A non-terminal cannot be expanded without a choice. */
  lemma NeedsChoice(n: Symbol)
    requires n in NonTerminals
    ensures Emitted([EndMarker, n], []) == None
  {
    VocabulariesConsistent();
  }

  /**
   * One expansion from the stack "$n": the ε-alternative leaves only the
   * end marker to emit, any other alternative emits its terminal and goes
   * on from "$" and its non-terminal.
   */
  lemma EmitStep(n: Symbol, ch: seq<nat>)
    requires n in NonTerminals && ch != []
    ensures var body := Choose(n, ch[0]);
      && WellShapedBody(body)
      && body in Productions[n]
      && (body == EpsilonBody ==> Emitted([EndMarker, n], ch) == Some([EndMarker]))
      && (body != EpsilonBody ==> Emitted([EndMarker, n], ch) == Prepend([body[0]], Emitted([EndMarker, body[1]], ch[1..])))
  {
    var k := ChoiceIndex(n, ch[0]);
    ProductionsWellShaped();
    var body := Choose(n, ch[0]);
    assert WellShapedBody(Productions[n][k]);
    EmitExpansion(n, ch);
    if body == EpsilonBody {
      assert [EndMarker] + Reverse(body) == [EndMarker, Epsilon];
      EmitEpsilon(ch[1..]);
    } else {
      assert [EndMarker] + Reverse(body) == [EndMarker, body[1], body[0]];
      EmitTerminal(body[0], body[1], ch[1..]);
    }
  }

  /** A non-terminal above the end marker is replaced by its chosen alternative, reversed. */
  lemma EmitExpansion(n: Symbol, ch: seq<nat>)
    requires n in NonTerminals && ch != []
    ensures Emitted([EndMarker, n], ch) == Emitted([EndMarker] + Reverse(Choose(n, ch[0])), ch[1..])
  {
    NonTerminalIsNotTerminal(n);
    assert Pop([EndMarker, n]) == [EndMarker];
  }

  /** The ε symbol above the end marker is dropped, and then only the end marker is emitted. */
  lemma EmitEpsilon(ch: seq<nat>)
    ensures Emitted([EndMarker, Epsilon], ch) == Some([EndMarker])
  {
    VocabulariesConsistent();
    assert Pop([EndMarker, Epsilon]) == [EndMarker];
    EmitBottom(ch);
  }

  /** An input terminal on top is emitted first. */
  lemma EmitTerminal(a: Symbol, m: Symbol, ch: seq<nat>)
    requires a in InputAlphabet
    ensures Emitted([EndMarker, m, a], ch) == Prepend([a], Emitted([EndMarker, m], ch))
  {
    assert a in Terminals;
    assert Pop([EndMarker, m, a]) == [EndMarker, m];
  }

  /**
   * From the stack "$n" the generator emits input terminals followed by
   * the end marker, and the parser accepts that from the stack "$n".
   */
  lemma {:induction false} EmittedIsPredicted(n: Symbol, ch: seq<nat>)
    requires n in NonTerminals && Emitted([EndMarker, n], ch).Some?
    ensures var e := Emitted([EndMarker, n], ch).value;
      && Remaining(e) && IsSentence(e[..|e| - 1])
      && Predict(n, e).accepted
    decreases |ch|
  {
    NeedsChoice(n);
    EmitStep(n, ch);
    var e := Emitted([EndMarker, n], ch).value;
    var body := Choose(n, ch[0]);
    TableCell(n, body);
    if body == EpsilonBody {
      assert e == [EndMarker];
      assert SelectingLookahead(body) == EndMarker;
      assert Predict(n, e) == AtBottom(EndMarker).After(Expand(n, body));
    } else {
      var t, m := body[0], body[1];
      assert SelectingLookahead(body) == t;
      EmittedIsPredicted(m, ch[1..]);
      var e' := Emitted([EndMarker, m], ch[1..]).value;
      assert e == [t] + e' && e[0] == t && e[1..] == e';
      assert e[..|e| - 1] == [t] + e'[..|e'| - 1];
      assert MatchThen(t, m, e) == Predict(m, e').After(Match(t));
      assert Predict(n, e) == MatchThen(t, m, e).After(Expand(n, body));
    }
  }

  /**
   * From the stack "$n", behind the finished terminals w, the generator
   * follows a leftmost derivation from w + [n] to w followed by what it
   * emits (without the end marker).
   */
  lemma {:induction false} EmittedIsDerived(w: seq<Symbol>, n: Symbol, ch: seq<nat>) returns (ds: seq<seq<Symbol>>)
    requires IsSentence(w) && n in NonTerminals && Emitted([EndMarker, n], ch).Some?
    ensures var e := Emitted([EndMarker, n], ch).value;
      && |e| > 0
      && IsLeftmostDerivation(ds) && ds[0] == w + [n] && ds[|ds| - 1] == w + e[..|e| - 1]
    decreases |ch|
  {
    NeedsChoice(n);
    EmitStep(n, ch);
    var e := Emitted([EndMarker, n], ch).value;
    var body := Choose(n, ch[0]);
    var k := ChoiceIndex(n, ch[0]);
    RewriteAfterSentence(w, n, k);
    if body == EpsilonBody {
      assert w + Yield(body) == w;
      ds := [w + [n], w];
      assert LeftmostStep(ds[0], ds[1]);
      assert e[..|e| - 1] == [];
    } else {
      var t, m := body[0], body[1];
      var e' := Emitted([EndMarker, m], ch[1..]).value;
      assert e == [t] + e';
      assert IsSentence(w + [t]);
      var ds' := EmittedIsDerived(w + [t], m, ch[1..]);
      assert |body| == 2 && Yield(body) == body;
      assert body == [t] + [m];
      assert w + Yield(body) == w + [t] + [m];
      ds := DerivationCons(w + [n], ds');
      SentenceTail(w, t, e');
    }
  }

  lemma SentenceTail(w: seq<Symbol>, t: Symbol, e: seq<Symbol>)
    requires |e| > 0
    ensures w + [t] + e[..|e| - 1] == w + ([t] + e)[..|e|]
  {
    assert ([t] + e)[..|e|] == [t] + e[..|e| - 1];
  }

  lemma {:induction false} StripEndMarker(w: seq<Symbol>)
    requires NoEndMarker(w)
    ensures Strip(w + [EndMarker]) == w
  {
    if w != [] {
      assert (w + [EndMarker])[1..] == w[1..] + [EndMarker];
      StripEndMarker(w[1..]);
    } else {
      assert Strip([EndMarker]) == [] + Strip([]);
    }
  }

  /**
   * Soundness of the generator: every sentence it returns consists of
   * input terminals, is derived from the start symbol by a leftmost
   * derivation, and is accepted by the parser.
   */
  lemma GeneratedIsAccepted(ch: seq<nat>)
    requires Generated(ch).Some?
    ensures var w := Generated(ch).value;
      && IsSentence(w)
      && DerivesFromStart(w)
      && Run(w).accepted
  {
    VocabulariesConsistent();
    EmittedIsPredicted(StartSymbol, ch);
    var e := Emitted([EndMarker, StartSymbol], ch).value;
    var w := e[..|e| - 1];
    assert e == w + [EndMarker];
    StripEndMarker(w);
    assert Generated(ch).value == w;
    var ds := EmittedIsDerived([], StartSymbol, ch);
    assert ds[0] == [StartSymbol] && ds[|ds| - 1] == w;
    assert Tokenize(w) == e;
    RunPredicts(w);
  }

  /**
   * From the stack "$n", every input the parser accepts without an end
   * marker before its last symbol is what the generator emits for some
   * oracle.
   */
  lemma {:induction false} PredictedIsEmitted(n: Symbol, rest: seq<Symbol>) returns (ch: seq<nat>)
    requires n in NonTerminals && Remaining(rest) && NoEndMarker(rest[..|rest| - 1])
    requires Predict(n, rest).accepted
    ensures Emitted([EndMarker, n], ch) == Some(rest)
    decreases |rest|
  {
    PredictAccepts(n, rest);
    var t := rest[0];
    var body := ParsingTable[n][t];
    assert WellShapedBody(body) by { TableWellShaped(); }
    assert n in Productions && body in Productions[n] by { TableFromGrammar(); }
    var k :| 0 <= k < |Productions[n]| && Productions[n][k] == body;
    ChooseIndex(n, k);
    if body == EpsilonBody {
      assert |rest| == 1;
      ch := [k];
      EmitStep(n, ch);
      assert rest == [EndMarker];
    } else {
      var a, m := body[0], body[1];
      assert rest[1..][..|rest[1..]| - 1] == rest[..|rest| - 1][1..];
      var ch' := PredictedIsEmitted(m, rest[1..]);
      ch := [k] + ch';
      assert ch[0] == k && ch[1..] == ch';
      EmitStep(n, ch);
      FirstAndRest(rest);
    }
  }

  lemma FirstAndRest(s: seq<Symbol>)
    requires |s| > 0
    ensures [s[0]] + s[1..] == s
  {
  }

  /** Completeness of the generator: every input without an end marker that the parser accepts is generated for some oracle. */
  lemma AcceptedIsGenerated(w: string)
    requires NoEndMarker(w) && Run(w).accepted
    ensures exists ch :: Generated(ch) == Some(w)
  {
    RunPredicts(w);
    var e := Tokenize(w);
    assert e[..|e| - 1] == w;
    var ch := PredictedIsEmitted(StartSymbol, e);
    StripEndMarker(w);
    assert e == w + [EndMarker];
    assert Generated(ch) == Some(w);
  }

  /**
   * The language the parser accepts, on inputs without an end marker, is
   * exactly the set of sentences the generator can return; all of them
   * consist of input terminals and derive from the start symbol.
   */
  lemma AcceptedIffGenerated(w: string)
    requires NoEndMarker(w)
    ensures Run(w).accepted <==> exists ch :: Generated(ch) == Some(w)
    ensures Run(w).accepted ==> IsSentence(w) && DerivesFromStart(w)
  {
    if Run(w).accepted {
      AcceptedIsGenerated(w);
      var ch :| Generated(ch) == Some(w);
      GeneratedIsAccepted(ch);
    } else {
      forall ch | Generated(ch) == Some(w)
        ensures false
      {
        GeneratedIsAccepted(ch);
      }
    }
  }
}
