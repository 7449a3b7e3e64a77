/** Sequence encoding: the sequence length of a corpus (`getSequenceLength`) and
    the index sequence of a context (`generateSequence`). */
module Encoding {
  import opened JsBuiltins
  import opened Vocabulary

  /** `getSequenceLength`: `lines.map(line => line.length).reduce(Math.max)`.
      `reduce` without an initial value throws on an empty array, so the lines
      must be non-empty; they always are when they come from `split('\n')`. */
  function GetSequenceLength(lines: seq<string>): (n: nat)
    requires |lines| > 0
    ensures forall i :: 0 <= i < |lines| ==> |lines[i]| <= n
    ensures exists i :: 0 <= i < |lines| && |lines[i]| == n
  {
    var lengths := seq(|lines|, i requires 0 <= i < |lines| => |lines[i]|);
    var n := ReduceMax(lengths);
    assert forall i :: 0 <= i < |lines| ==> lengths[i] == |lines[i]|;
    n
  }

  /** The sequence length of the lines of a text is defined at all: a split is never empty. */
  lemma SequenceLengthOfText(text: string)
    ensures |Split(text, '\n')| > 0
    ensures GetSequenceLength(Split(text, '\n')) <= |text|
  {
  }

  /** `context.split('').map(ch => dict.indexOf(ch))`. */
  function IndicesOf(dict: seq<string>, context: string): (r: seq<int>)
  {
    seq(|context|, i requires 0 <= i < |context| => IndexOf(dict, [context[i]]))
  }

  /** The sequence `generateSequence(context, len)` returns: one index per character
      of the context, then `END_INDEX` up to `len` positions. A context longer than
      `len` is kept whole. */
  function Sequence(dict: seq<string>, context: string, len: nat): (r: seq<int>)
    ensures |r| == if |context| <= len then len else |context|
    ensures forall i :: 0 <= i < |context| ==> r[i] == IndexOf(dict, [context[i]])
    ensures forall i :: |context| <= i < |r| ==> r[i] == END_INDEX
  {
    var padding := if |context| < len then len - |context| else 0;
    IndicesOf(dict, context) + seq(padding, _ => END_INDEX)
  }

  /** `generateSequence`: maps the context, then pushes `endIndex` while the
      result is shorter than the sequence length. */
  method GenerateSequence(dict: seq<string>, context: string, len: nat) returns (result: seq<int>)
    ensures result == Sequence(dict, context, len)
  {
    ghost var target := Sequence(dict, context, len);
    result := IndicesOf(dict, context);
    var i := |result|;
    while i < len
      invariant |context| <= i <= |target|
      invariant result == target[..i]
    {
      result := result + [END_INDEX];
      i := i + 1;
    }
  }

  /** A character missing from the vocabulary is encoded as -1, not as `UNKNOWN_INDEX`. */
  lemma MissingCharacterEncodesAsMinusOne(dict: seq<string>, context: string, len: nat, i: nat)
    requires i < |context| && [context[i]] !in dict
    ensures Sequence(dict, context, len)[i] == -1
  {
  }

  /** When every character of the context is in the vocabulary, every element of
      its sequence is a valid vocabulary index. */
  lemma SequenceInRange(dict: seq<string>, context: string, len: nat)
    requires |dict| > END_INDEX
    requires forall ch :: ch in context ==> [ch] in dict
    ensures forall i :: 0 <= i < |Sequence(dict, context, len)| ==>
              0 <= Sequence(dict, context, len)[i] < |dict|
  {
  }
}
