/**
 * The fixed LL(1) grammar the parser runs on, as constant data:
 *
 *   S -> a A | b B
 *   A -> c C | d D | ε
 *   B -> c C | d D
 *   C -> a S
 *   D -> b B
 *
 * together with its predictive parsing table, its two vocabularies, the
 * curated example sentences and the description lookup over them.
 *
 * Every symbol of the grammar is a single character, so a symbol is a
 * `char`. A production body is kept already split at its spaces: the
 * body written "a A" is the symbol sequence "aA", and the body written
 * "ε" is the one-symbol sequence "ε".
 */
module Grammar {
  import opened Wrappers

  type Symbol = char

  const EndMarker: Symbol := '$'
  const Epsilon: Symbol := 'ε'
  const StartSymbol: Symbol := 'S'

  /** The ε-body as the split of the string "ε": one symbol, not an empty sequence. */
  const EpsilonBody: seq<Symbol> := [Epsilon]

  /** The alternatives of every non-terminal, in their declared order. */
  const Productions: map<Symbol, seq<seq<Symbol>>> := map[
    'S' := ["aA", "bB"],
    'A' := ["cC", "dD", EpsilonBody],
    'B' := ["cC", "dD"],
    'C' := ["aS"],
    'D' := ["bB"]
  ]

  /** The predictive table: non-terminal, then lookahead, to the body to expand; a missing cell is a syntax error. */
  const ParsingTable: map<Symbol, map<Symbol, seq<Symbol>>> := map[
    'S' := map['a' := "aA", 'b' := "bB"],
    'A' := map['c' := "cC", 'd' := "dD", '$' := EpsilonBody],
    'B' := map['c' := "cC", 'd' := "dD"],
    'C' := map['a' := "aS"],
    'D' := map['b' := "bB"]
  ]

  /** The terminal vocabulary; it includes the end marker. */
  const Terminals: seq<Symbol> := "abcd$"

  const NonTerminals: seq<Symbol> := "SABCD"

  /** The terminals that can occur in a sentence: every terminal but the end marker. */
  const InputAlphabet: seq<Symbol> := "abcd"

  /**
   * A body the table or the grammar can hand out: the ε-body, or an input
   * terminal followed by one non-terminal.
   */
  predicate WellShapedBody(body: seq<Symbol>)
  {
    body == EpsilonBody || (|body| == 2 && body[0] in InputAlphabet && body[1] in NonTerminals)
  }

  /** The lookahead that selects a body: its first symbol, or the end marker (the FOLLOW set of A) for ε. */
  function SelectingLookahead(body: seq<Symbol>): Symbol
  {
    if body == EpsilonBody || body == [] then EndMarker else body[0]
  }

  /** The two vocabularies are disjoint, and the non-terminals are exactly the rows of both tables. */
  lemma VocabulariesConsistent()
    ensures forall x :: x in Terminals ==> x !in NonTerminals
    ensures forall x :: x in NonTerminals <==> x in Productions
    ensures forall x :: x in NonTerminals <==> x in ParsingTable
    ensures Epsilon !in Terminals && Epsilon !in NonTerminals
    ensures forall x :: x in InputAlphabet <==> x in Terminals && x != EndMarker
  {
  }

  /** A non-terminal is never a terminal. */
  lemma NonTerminalIsNotTerminal(x: Symbol)
    requires x in NonTerminals
    ensures x !in Terminals
  {
  }

  /** Every non-terminal has at least one alternative, and every alternative only uses declared symbols or is ε. */
  lemma ProductionsWellShaped()
    ensures forall n :: n in Productions ==> |Productions[n]| > 0
    ensures forall n, i :: n in Productions && 0 <= i < |Productions[n]| ==> WellShapedBody(Productions[n][i])
  {
    forall n, i | n in Productions && 0 <= i < |Productions[n]|
      ensures WellShapedBody(Productions[n][i])
    {
      assert n in "SABCD";
    }
  }

  /** Every table cell is well shaped, so the parser never pushes ε nor an undeclared symbol. */
  lemma TableWellShaped()
    ensures forall n, t :: n in ParsingTable && t in ParsingTable[n] ==> WellShapedBody(ParsingTable[n][t])
  {
    forall n, t | n in ParsingTable && t in ParsingTable[n]
      ensures WellShapedBody(ParsingTable[n][t])
    {
      assert n in "SABCD";
    }
  }

  /** The table is built from the grammar: every cell holds one of that non-terminal's alternatives, selected by that alternative's own lookahead. */
  lemma TableFromGrammar()
    ensures forall n, t :: n in ParsingTable && t in ParsingTable[n] ==>
      n in Productions && ParsingTable[n][t] in Productions[n] && SelectingLookahead(ParsingTable[n][t]) == t
  {
    forall n, t | n in ParsingTable && t in ParsingTable[n]
      ensures n in Productions && ParsingTable[n][t] in Productions[n] && SelectingLookahead(ParsingTable[n][t]) == t
    {
      assert n in "SABCD";
    }
  }

  /** Conversely, the table predicts every alternative: its cell at the alternative's selecting lookahead holds it. */
  lemma TablePredictsGrammar()
    ensures forall n, body :: n in Productions && body in Productions[n] ==>
      n in ParsingTable && SelectingLookahead(body) in ParsingTable[n] && ParsingTable[n][SelectingLookahead(body)] == body
  {
    forall n, body | n in Productions && body in Productions[n]
      ensures n in ParsingTable && SelectingLookahead(body) in ParsingTable[n] && ParsingTable[n][SelectingLookahead(body)] == body
    {
      assert n in "SABCD";
    }
  }

  /** The cell of the table that predicts one given alternative. */
  lemma TableCell(n: Symbol, body: seq<Symbol>)
    requires n in Productions && body in Productions[n]
    ensures n in ParsingTable && SelectingLookahead(body) in ParsingTable[n]
    ensures ParsingTable[n][SelectingLookahead(body)] == body
  {
    TablePredictsGrammar();
  }

  /** One curated example: a sentence, its human-readable meaning and whether the grammar accepts it. */
  datatype Example = Example(sentence: string, meaning: string, valid: bool)

  const ExampleSentences: seq<Example> := [
    Example("a", "Sentença válida (S -> aA -> aε)", true),
    Example("bcaa", "Sentença válida (S -> bB -> bcC -> bcaS -> bcaaA -> bcaaε)", true),
    Example("acaa", "Sentença válida (S -> aA -> acC -> acaS -> acaaA -> acaaε)", true),
    Example("bdbcaa", "Sentença válida com mais recursão.", true),
    Example("c", "Sentença inválida (deve começar com 'a' ou 'b').", false),
    Example("ab", "Sentença inválida (após 'a', espera-se 'c', 'd' ou fim da sentença).", false),
    Example("bda", "Sentença inválida (após 'd', a regra D->bB exige um 'b').", false)
  ]

  const NoDescription: string := "No valid description found."

  /** The test the lookup applies to each example: same sentence, and marked valid. */
  predicate Describes(ex: Example, s: string)
  {
    ex.sentence == s && ex.valid
  }

  /** `Array.prototype.find` with the test `Describes`: the index of the first example that passes it. */
  function FindDescribing(examples: seq<Example>, s: string): (r: Option<nat>)
    ensures r.Some? ==> r.value < |examples| && Describes(examples[r.value], s)
    ensures r.Some? ==> forall j :: 0 <= j < r.value ==> !Describes(examples[j], s)
    ensures r.None? ==> forall j :: 0 <= j < |examples| ==> !Describes(examples[j], s)
  {
    if examples == [] then None
    else if Describes(examples[0], s) then Some(0)
    else
      match FindDescribing(examples[1..], s)
      case None => None
      case Some(i) => Some(i + 1)
  }

  /** No two examples share a sentence. */
  lemma ExampleSentencesDistinct()
    ensures forall i, j :: 0 <= i < j < |ExampleSentences| ==> ExampleSentences[i].sentence != ExampleSentences[j].sentence
  {
  }

  /**
   * The meaning of the valid example whose sentence is s, and the fixed
   * fallback text when there is none, including for the invalid examples.
   */
  function GetSentenceDescription(s: string): (r: string)
    ensures forall i :: 0 <= i < |ExampleSentences| && Describes(ExampleSentences[i], s) ==> r == ExampleSentences[i].meaning
    ensures (forall i :: 0 <= i < |ExampleSentences| ==> !Describes(ExampleSentences[i], s)) ==> r == NoDescription
    ensures r != NoDescription ==> exists i :: 0 <= i < |ExampleSentences| && Describes(ExampleSentences[i], s)
  {
    ExampleSentencesDistinct();
    match FindDescribing(ExampleSentences, s)
    case Some(i) => ExampleSentences[i].meaning
    case None => NoDescription
  }
}
