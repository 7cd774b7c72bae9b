/**
 * The curated example sentences, run through the parser: the four valid
 * ones are accepted and the three invalid ones are rejected at the error
 * their meaning describes. Each verdict is computed on `Predict` and
 * carried over to `Run` (and so to `LL1Parser.Parse`) by `RunPredicts`.
 */
module ParserExamples {
  import opened Grammar
  import opened Stacks
  import opened Parser
  import opened ParserProofs
  import opened ParserPrediction

  /** The actions that accept "a" from A: expand A by ε, then accept at the end marker. */
  lemma AFromA()
    ensures Predict('A', "$") == Verdict(true, [Expand('A', "ε"), Accept])
  {
  }

  /** S -> aA -> aε. */
  lemma SentenceA()
    ensures Predict('S', "a$") == Verdict(true, [Expand('S', "aA"), Match('a'), Expand('A', "ε"), Accept])
  {
    AFromA();
  }

  /** The tail "caa" from B: B -> cC -> caS -> caaA -> caaε. */
  lemma CaaFromB()
    ensures Predict('B', "caa$") == Verdict(true, [Expand('B', "cC"), Match('c'), Expand('C', "aS"), Match('a'), Expand('S', "aA"), Match('a'), Expand('A', "ε"), Accept])
  {
    SentenceA();
    assert Predict('C', "aa$") == Verdict(true, [Expand('C', "aS"), Match('a'), Expand('S', "aA"), Match('a'), Expand('A', "ε"), Accept]);
  }

  /** The actions that accept "bcaa": S -> bB -> bcC -> bcaS -> bcaaA -> bcaaε, each expansion followed by the match of its terminal. */
  const BcaaDerivation: seq<Action> := [Expand('S', "bB"), Match('b'), Expand('B', "cC"), Match('c'), Expand('C', "aS"), Match('a'), Expand('S', "aA"), Match('a'), Expand('A', "ε"), Accept]

  lemma SentenceBcaa()
    ensures Predict('S', "bcaa$") == Verdict(true, BcaaDerivation)
  {
    CaaFromB();
  }

  /** S -> aA -> acC -> acaS -> acaaA -> acaaε. */
  lemma SentenceAcaa()
    ensures Predict('S', "acaa$").accepted
  {
    SentenceA();
    assert Predict('C', "aa$").accepted;
    assert Predict('A', "caa$").accepted;
  }

  /** S -> bB -> bdD -> bdbB -> bdbcC -> ... -> bdbcaaε. */
  lemma SentenceBdbcaa()
    ensures Predict('S', "bdbcaa$").accepted
  {
    CaaFromB();
    assert Predict('D', "bcaa$").accepted;
    assert Predict('B', "dbcaa$").accepted;
  }

  /** "c": S has no table entry for c. */
  lemma SentenceC()
    ensures Predict('S', "c$") == Verdict(false, [NoEntry('S', 'c')])
  {
  }

  /** "ab": after S -> aA and the match of a, A has no table entry for b. */
  lemma SentenceAb()
    ensures Predict('S', "ab$") == Verdict(false, [Expand('S', "aA"), Match('a'), NoEntry('A', 'b')])
  {
    assert Predict('A', "b$") == Verdict(false, [NoEntry('A', 'b')]);
  }

  /** "bda": after b and d, D -> bB requires a b and the table has no entry for D and a. */
  lemma SentenceBda()
    ensures Predict('S', "bda$") == Verdict(false, [Expand('S', "bB"), Match('b'), Expand('B', "dD"), Match('d'), NoEntry('D', 'a')])
  {
    assert Predict('D', "a$") == Verdict(false, [NoEntry('D', 'a')]);
    assert Predict('B', "da$").actions == [Expand('B', "dD"), Match('d'), NoEntry('D', 'a')];
  }

  /**
   * A parse follows `Predict` on the input followed by the end marker: same
   * verdict, the initial entry and then exactly its actions, one iteration
   * per action.
   */
  lemma ParseFollows(s: string, v: Verdict)
    requires Predict(StartSymbol, Tokenize(s)) == v
    ensures var h := Run(s);
      && h.accepted == v.accepted
      && Actions(h.final.trace) == [Initial] + v.actions
      && h.final.iterations == |v.actions|
  {
    RunPredicts(s);
    ParseTrace(s);
  }

  // The concrete parses below take the sentence as a parameter fixed by
  // their precondition, so that the verifier reasons about `Run` through
  // `ParseFollows` rather than by evaluating it on a literal.

  /** The parse of "bcaa": accepted after ten iterations, through exactly the derivation its meaning names. */
  lemma ParseBcaa(s: string)
    requires s == "bcaa"
    ensures var h := Run(s);
      && h.accepted
      && h.final.iterations == 10
      && Actions(h.final.trace) == [Initial] + BcaaDerivation
  {
    assert Tokenize(s) == "bcaa$";
    SentenceBcaa();
    ParseFollows(s, Predict('S', "bcaa$"));
  }

  /** The parse of "bda" is rejected at its fifth iteration with the missing entry for D and a. */
  lemma ParseBda(s: string)
    requires s == "bda"
    ensures var h := Run(s);
      && !h.accepted
      && h.final.iterations == 5
      && |h.final.trace| == 6
      && Last(h.final.trace).action == NoEntry('D', 'a')
  {
    assert Tokenize(s) == "bda$";
    SentenceBda();
    ParseFollows(s, Predict('S', "bda$"));
    ActionsLast(Run(s).final.trace);
  }

  lemma ActionsLast(t: seq<TraceStep>)
    requires |t| > 0
    ensures Actions(t)[|t| - 1] == t[|t| - 1].action
  {
  }

  /** A literal end marker inside the input ends the sentence: "a$b" is accepted and its "b" is never read. */
  lemma ParseEmbeddedEndMarker(s: string)
    requires s == "a$b"
    ensures var h := Run(s);
      && h.accepted
      && Actions(h.final.trace) == [Initial, Expand('S', "aA"), Match('a'), Expand('A', "ε"), Accept]
  {
    assert Tokenize(s) == "a$b$";
    assert Predict('A', "$b$") == Verdict(true, [Expand('A', "ε"), Accept]);
    assert Predict('S', "a$b$") == Verdict(true, [Expand('S', "aA"), Match('a'), Expand('A', "ε"), Accept]);
    ParseFollows(s, Predict('S', "a$b$"));
  }

  /** The i-th curated example gets the verdict it is marked with. */
  lemma ExampleVerdict(i: nat)
    requires i < |ExampleSentences|
    ensures Run(ExampleSentences[i].sentence).accepted == ExampleSentences[i].valid
  {
    var s := ExampleSentences[i].sentence;
    if i == 0 { assert Tokenize(s) == "a$"; SentenceA(); }
    else if i == 1 { assert Tokenize(s) == "bcaa$"; SentenceBcaa(); }
    else if i == 2 { assert Tokenize(s) == "acaa$"; SentenceAcaa(); }
    else if i == 3 { assert Tokenize(s) == "bdbcaa$"; SentenceBdbcaa(); }
    else if i == 4 { assert Tokenize(s) == "c$"; SentenceC(); }
    else if i == 5 { assert Tokenize(s) == "ab$"; SentenceAb(); }
    else { assert Tokenize(s) == "bda$"; SentenceBda(); }
    RunPredicts(s);
  }

  /** Only sentences the parser accepts have a description. */
  lemma DescribedSentencesParse(s: string)
    requires GetSentenceDescription(s) != NoDescription
    ensures Run(s).accepted
  {
    var i :| 0 <= i < |ExampleSentences| && Describes(ExampleSentences[i], s);
    ExampleVerdict(i);
  }
}
