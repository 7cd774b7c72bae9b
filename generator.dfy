/**
 * The random sentence generator: it rewrites the stack "$S" from the top,
 * emitting every terminal it pops, replacing every non-terminal by one of
 * its alternatives (pushed reversed) and dropping anything else (the ε
 * symbol), until the stack is empty; the end marker it emits last is then
 * removed from the result.
 *
 * The random pick among the alternatives is drawn from an oracle: a
 * sequence of numbers, one per expansion, each taken modulo the number of
 * alternatives. When the oracle runs out before the stack is empty the
 * generator gives no sentence.
 */
module Generator {
  import opened Wrappers
  import opened Grammar
  import opened Stacks

  function Prepend(prefix: seq<Symbol>, o: Option<seq<Symbol>>): Option<seq<Symbol>>
  {
    match o
    case None => None
    case Some(e) => Some(prefix + e)
  }

  /** The alternative an oracle value selects for a non-terminal. */
  function Choose(n: Symbol, choice: nat): seq<Symbol>
    requires n in NonTerminals
  {
    VocabulariesConsistent();
    ProductionsWellShaped();
    Productions[n][choice % |Productions[n]|]
  }

  /** Everything the loop appends to the sentence from the given stack on, drawing the choices in order; None when they run out. */
  function Emitted(stack: seq<Symbol>, choices: seq<nat>): Option<seq<Symbol>>
    decreases |choices|, |stack|
  {
    if stack == [] then Some([])
    else
      var top := stack[|stack| - 1];
      if top in Terminals then Prepend([top], Emitted(Pop(stack), choices))
      else if top in NonTerminals then
        if choices == [] then None
        else Emitted(Pop(stack) + Reverse(Choose(top, choices[0])), choices[1..])
      else Emitted(Pop(stack), choices)
  }

  /** No end marker anywhere in w. */
  predicate NoEndMarker(w: seq<Symbol>)
  {
    forall i :: 0 <= i < |w| ==> w[i] != EndMarker
  }

  /** The string with every end marker removed (the global replace of the source). */
  function Strip(s: seq<Symbol>): (r: seq<Symbol>)
    ensures NoEndMarker(r)
    ensures NoEndMarker(s) ==> r == s
  {
    if s == [] then []
    else (if s[0] == EndMarker then [] else [s[0]]) + Strip(s[1..])
  }

  /** A single character survives Strip exactly when it is not the end marker. */
  lemma StripSingle(x: Symbol)
    ensures Strip([x]) == if x == EndMarker then [] else [x]
  {
    assert [x][1..] == [];
  }

  /** Strip takes a string apart at its first character. */
  lemma StripCons(x: Symbol, s: seq<Symbol>)
    ensures Strip([x] + s) == (if x == EndMarker then [] else [x]) + Strip(s)
  {
    assert ([x] + s)[0] == x && ([x] + s)[1..] == s;
  }

  /**
   * Strip works character by character: stripping a concatenation strips
   * each part and keeps their order.
   */
  lemma {:induction false} StripAppend(a: seq<Symbol>, b: seq<Symbol>)
    ensures Strip(a + b) == Strip(a) + Strip(b)
    decreases |a|
  {
    if a == [] {
      assert a + b == b;
    } else {
      var x, t := a[0], a[1..];
      var h := if x == EndMarker then [] else [x];
      assert a == [x] + t;
      assert a + b == [x] + (t + b);
      calc {
        Strip(a + b);
      == { StripCons(x, t + b); }
        h + Strip(t + b);
      == { StripAppend(t, b); }
        h + (Strip(t) + Strip(b));
      ==
        (h + Strip(t)) + Strip(b);
      == { StripCons(x, t); }
        Strip(a) + Strip(b);
      }
    }
  }

  /** The sentence the generator returns for an oracle. */
  function Generated(choices: seq<nat>): Option<string>
  {
    match Emitted([EndMarker, StartSymbol], choices)
    case None => None
    case Some(e) => Some(Strip(e))
  }

  method GenerateSentence(choices: seq<nat>) returns (r: Option<string>)
    ensures r == Generated(choices)
  {
    var sentence: seq<Symbol> := [];
    var stack: seq<Symbol> := [EndMarker, StartSymbol];
    var k := 0;
    assert choices[k..] == choices;
    PrependEmpty(Emitted(stack, choices));
    while |stack| > 0
      invariant k <= |choices|
      invariant Emitted([EndMarker, StartSymbol], choices) == Prepend(sentence, Emitted(stack, choices[k..]))
      decreases |choices| - k, |stack|
    {
      var top := stack[|stack| - 1];
      ghost var before := stack;
      stack := Pop(stack);
      if top in Terminals {
        assert sentence + ([top] + []) == sentence + [top];
        PrependTwice(sentence, [top], Emitted(stack, choices[k..]));
        sentence := sentence + [top];
      } else if top in NonTerminals {
        if k == |choices| {
          // The oracle has run out.
          return None;
        }
        VocabulariesConsistent();
        ProductionsWellShaped();
        var productions := Productions[top];
        var production := productions[choices[k] % |productions|];
        var symbols := Reverse(production);
        assert choices[k..][1..] == choices[k + 1..];
        stack := stack + symbols;
        k := k + 1;
      }
    }
    assert Emitted(stack, choices[k..]) == Some([]);
    assert sentence + [] == sentence;
    r := Some(Strip(sentence));
  }

  lemma PrependEmpty(o: Option<seq<Symbol>>)
    ensures Prepend([], o) == o
  {
    if o.Some? {
      assert [] + o.value == o.value;
    }
  }

  lemma PrependTwice(a: seq<Symbol>, b: seq<Symbol>, o: Option<seq<Symbol>>)
    ensures Prepend(a, Prepend(b, o)) == Prepend(a + b, o)
  {
    if o.Some? {
      assert a + (b + o.value) == (a + b) + o.value;
    }
  }
}
