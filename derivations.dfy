/**
 * Leftmost derivations in the grammar. A sentential form is a sequence of
 * symbols read left to right; a leftmost step rewrites its first
 * non-terminal (everything before it is an input terminal) by one of that
 * non-terminal's alternatives, the ε-alternative contributing nothing.
 */
module Derivations {
  import opened Grammar

  /** The symbols an alternative contributes to a sentential form. */
  function Yield(body: seq<Symbol>): seq<Symbol>
  {
    if body == EpsilonBody then [] else body
  }

  /** A sequence of input terminals only. */
  predicate IsSentence(w: seq<Symbol>)
  {
    forall i :: 0 <= i < |w| ==> w[i] in InputAlphabet
  }

  /** y is x with its leftmost symbol, at index i, a non-terminal rewritten by that non-terminal's k-th alternative. */
  predicate Rewrites(x: seq<Symbol>, y: seq<Symbol>, i: nat, k: nat)
  {
    && i < |x|
    && x[i] in Productions
    && k < |Productions[x[i]]|
    && IsSentence(x[..i])
    && y == x[..i] + Yield(Productions[x[i]][k]) + x[i + 1..]
  }

  ghost predicate LeftmostStep(x: seq<Symbol>, y: seq<Symbol>)
  {
    exists i: nat, k: nat :: Rewrites(x, y, i, k)
  }

  ghost predicate IsLeftmostDerivation(ds: seq<seq<Symbol>>)
  {
    && |ds| > 0
    && forall i :: 0 <= i < |ds| - 1 ==> LeftmostStep(ds[i], ds[i + 1])
  }

  /** w is derived from the start symbol by a leftmost derivation. */
  ghost predicate DerivesFromStart(w: seq<Symbol>)
  {
    exists ds :: IsLeftmostDerivation(ds) && ds[0] == [StartSymbol] && ds[|ds| - 1] == w
  }

  /** Behind a sentence, the non-terminal n is the leftmost one: rewriting it by its k-th alternative is a leftmost step. */
  lemma RewriteAfterSentence(w: seq<Symbol>, n: Symbol, k: nat)
    requires IsSentence(w) && n in Productions && k < |Productions[n]|
    ensures LeftmostStep(w + [n], w + Yield(Productions[n][k]))
  {
    var x := w + [n];
    assert x[..|w|] == w && x[|w|] == n && x[|w| + 1..] == [];
    assert w + Yield(Productions[n][k]) == x[..|w|] + Yield(Productions[n][k]) + x[|w| + 1..];
    assert Rewrites(x, w + Yield(Productions[n][k]), |w|, k);
  }

  /** A leftmost step in front of a leftmost derivation is a leftmost derivation with the same last form. */
  lemma DerivationCons(x: seq<Symbol>, ds: seq<seq<Symbol>>) returns (es: seq<seq<Symbol>>)
    requires IsLeftmostDerivation(ds) && LeftmostStep(x, ds[0])
    ensures IsLeftmostDerivation(es) && es[0] == x && es[|es| - 1] == ds[|ds| - 1]
  {
    es := [x] + ds;
    forall i | 0 <= i < |es| - 1
      ensures LeftmostStep(es[i], es[i + 1])
    {
      if i > 0 {
        assert es[i] == ds[i - 1] && es[i + 1] == ds[i];
      }
    }
  }
}
