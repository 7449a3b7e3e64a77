/** Greedy decoding: `predictTest` extends the typed text one vocabulary entry at a
    time, asking the trained network for the best next entry, until it predicts
    `<end>` or the text reaches the sequence length. The network and its argmax
    are an oracle from the encoded context to a vocabulary index. */
module Decoding {
  import opened Vocabulary
  import opened Encoding

  /** Every entry except `<end>` has at least one character, so appending one
      always lengthens the context. `generateDict` builds only such vocabularies. */
  predicate EntriesNonEmpty(dict: seq<string>)
  {
    forall w :: w in dict && w != END ==> |w| > 0
  }

  /** The oracle always names an entry of the vocabulary, as an argmax over
      `dict.length` scores does. */
  ghost predicate PredictsIndex(dict: seq<string>, predictor: seq<int> -> nat)
  {
    forall s :: predictor(s) < |dict|
  }

  /** `predict(context)`: the vocabulary entry at the index the network picks
      for `generateSequence(context, len)`. */
  function Predict(dict: seq<string>, len: nat, predictor: seq<int> -> nat, context: string): (w: string)
    requires PredictsIndex(dict, predictor)
    ensures w in dict
  {
    dict[predictor(Sequence(dict, context, len))]
  }

  /** The text `predictTest` shows for the typed text `context`. */
  function Greedy(dict: seq<string>, len: nat, predictor: seq<int> -> nat, context: string): string
    requires PredictsIndex(dict, predictor) && EntriesNonEmpty(dict)
    decreases len - |context|
  {
    if |context| >= len then context
    else
      var w := Predict(dict, len, predictor, context);
      if w == END then context else Greedy(dict, len, predictor, context + w)
  }

  /** The entries the predictor returns, one per call, in the order of the calls. */
  function Outputs(dict: seq<string>, len: nat, predictor: seq<int> -> nat, context: string): seq<string>
    requires PredictsIndex(dict, predictor) && EntriesNonEmpty(dict)
    decreases len - |context|
  {
    if |context| >= len then []
    else
      var w := Predict(dict, len, predictor, context);
      if w == END then [w] else [w] + Outputs(dict, len, predictor, context + w)
  }

  /** The concatenation of a list of entries. */
  function Flatten(ws: seq<string>): string
  {
    if |ws| == 0 then [] else ws[0] + Flatten(ws[1..])
  }

  /** `predictTest`, with the seed taken from the input box as a parameter and the
      result returned instead of written to the output box. `calls` counts the
      predictor calls. */
  method PredictTest(dict: seq<string>, len: nat, predictor: seq<int> -> nat, seed: string)
    returns (context: string, ghost calls: nat)
    requires PredictsIndex(dict, predictor) && EntriesNonEmpty(dict)
    ensures context == Greedy(dict, len, predictor, seed)
    ensures calls == |Outputs(dict, len, predictor, seed)|
    ensures calls <= if |seed| < len then len - |seed| else 0
  {
    context := seed;
    calls := 0;
    var stop := false;
    DecodeCallBound(dict, len, predictor, seed);
    while |context| < len && !stop
      invariant !stop ==> Greedy(dict, len, predictor, context) == Greedy(dict, len, predictor, seed)
      invariant !stop ==> calls + |Outputs(dict, len, predictor, context)| == |Outputs(dict, len, predictor, seed)|
      invariant stop ==> context == Greedy(dict, len, predictor, seed)
      invariant stop ==> calls == |Outputs(dict, len, predictor, seed)|
      decreases len - |context|, !stop
    {
      var result := Predict(dict, len, predictor, context);
      calls := calls + 1;
      if result == END {
        stop := true;
      } else {
        context := context + result;
      }
    }
  }

  /** Decoding makes at most `len - |seed|` predictor calls, and none when the
      seed is already `len` long. */
  lemma {:induction false} DecodeCallBound(dict: seq<string>, len: nat, predictor: seq<int> -> nat, seed: string)
    requires PredictsIndex(dict, predictor) && EntriesNonEmpty(dict)
    ensures |Outputs(dict, len, predictor, seed)| <= if |seed| < len then len - |seed| else 0
    decreases len - |seed|
  {
    if |seed| < len {
      var w := Predict(dict, len, predictor, seed);
      if w != END {
        DecodeCallBound(dict, len, predictor, seed + w);
      }
    }
  }

  /** What decoding returns, in terms of the calls it makes: every call returns a
      vocabulary entry and only the last one can be `<end>`, which is never appended.
      When it does, the result is the seed
      followed by the earlier entries and is shorter than `len`; otherwise the result
      is the seed followed by every entry and has reached `len`. */
  lemma {:induction false} DecodeTrace(dict: seq<string>, len: nat, predictor: seq<int> -> nat, seed: string)
    requires PredictsIndex(dict, predictor) && EntriesNonEmpty(dict)
    ensures var outs := Outputs(dict, len, predictor, seed);
            forall i :: 0 <= i < |outs| ==> outs[i] in dict && (i < |outs| - 1 ==> outs[i] != END)
    ensures var outs := Outputs(dict, len, predictor, seed);
            var r := Greedy(dict, len, predictor, seed);
            if |outs| > 0 && outs[|outs| - 1] == END
            then r == seed + Flatten(outs[..|outs| - 1]) && |r| < len
            else r == seed + Flatten(outs) && |r| >= len
    decreases len - |seed|
  {
    if |seed| < len {
      var w := Predict(dict, len, predictor, seed);
      if w != END {
        var next := seed + w;
        DecodeTrace(dict, len, predictor, next);
        var rest := Outputs(dict, len, predictor, next);
        var outs := Outputs(dict, len, predictor, seed);
        assert outs == [w] + rest;
        assert outs[1..] == rest;
        if |rest| > 0 && rest[|rest| - 1] == END {
          assert outs[..|outs| - 1][1..] == rest[..|rest| - 1];
        }
      } else {
        assert Outputs(dict, len, predictor, seed)[..0] == [];
      }
    }
  }

  /** Each call is greedy: the entry call i returns is the one predicted for the seed
      followed by the entries of the i earlier calls. */
  lemma {:induction false} DecodeSteps(dict: seq<string>, len: nat, predictor: seq<int> -> nat, seed: string)
    requires PredictsIndex(dict, predictor) && EntriesNonEmpty(dict)
    ensures forall i :: 0 <= i < |Outputs(dict, len, predictor, seed)| ==>
              Outputs(dict, len, predictor, seed)[i] ==
              Predict(dict, len, predictor, seed + Flatten(Outputs(dict, len, predictor, seed)[..i]))
    decreases len - |seed|
  {
    if |seed| < len {
      var w := Predict(dict, len, predictor, seed);
      var outs := Outputs(dict, len, predictor, seed);
      assert outs[..0] == [] && seed + [] == seed;
      if w != END {
        var next := seed + w;
        DecodeSteps(dict, len, predictor, next);
        var rest := Outputs(dict, len, predictor, next);
        assert outs == [w] + rest;
        forall i | 1 <= i < |outs|
          ensures outs[i] == Predict(dict, len, predictor, seed + Flatten(outs[..i]))
        {
          assert outs[..i] == [w] + rest[..i - 1];
          assert seed + Flatten(outs[..i]) == next + Flatten(rest[..i - 1]);
        }
      }
    }
  }

  /** The typed text is never altered: it is a prefix of the decoded text, which is
      the seed itself when the seed is already `len` long. */
  lemma DecodeKeepsSeed(dict: seq<string>, len: nat, predictor: seq<int> -> nat, seed: string)
    requires PredictsIndex(dict, predictor) && EntriesNonEmpty(dict)
    ensures seed <= Greedy(dict, len, predictor, seed)
    ensures |seed| >= len ==> Greedy(dict, len, predictor, seed) == seed
  {
    DecodeTrace(dict, len, predictor, seed);
  }
}
