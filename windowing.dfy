/** Dataset windowing: every non-empty line becomes its prefix/next-symbol training
    pairs (`convertLineToData`), and the corpus the in-order concatenation of those
    (`convertLinesToDataset`). Targets are flattened from `[[index]]` to `index`. */
module Windowing {
  import opened JsBuiltins
  import opened Vocabulary
  import opened Encoding

  /** The `{xs, ys}` accumulator: encoded contexts and their target indices. */
  datatype Dataset = Dataset(xs: seq<seq<int>>, ys: seq<int>)

  /** Appending with `push(...)`: the pairs of `a`, then those of `b`. */
  function Concat(a: Dataset, b: Dataset): Dataset
  {
    Dataset(a.xs + b.xs, a.ys + b.ys)
  }

  /** The pairs `convertLineToData(line, len)` returns: for each `k < |line|` the
      sequence of the prefix of length `k` paired with the index of `line[k]`, and
      last the sequence of the whole line paired with `END_INDEX`. */
  function LineData(dict: seq<string>, line: string, len: nat): Dataset
  {
    Dataset(seq(|line| + 1, k requires 0 <= k <= |line| => Sequence(dict, line[..k], len)),
            seq(|line|, k requires 0 <= k < |line| => IndexOf(dict, [line[k]])) + [END_INDEX])
  }

  /** `convertLineToData`: walks the line, pushing the current context's sequence,
      extending the context by the character and pushing that character's index;
      then pushes the whole line's sequence with `endIndex`. */
  method ConvertLineToData(dict: seq<string>, line: string, len: nat) returns (result: Dataset)
    ensures result == LineData(dict, line, len)
  {
    ghost var target := LineData(dict, line, len);
    var xs: seq<seq<int>> := [];
    var ys: seq<int> := [];
    var context: string := "";
    for k := 0 to |line|
      invariant context == line[..k]
      invariant xs == target.xs[..k]
      invariant ys == target.ys[..k]
    {
      var output := line[k];
      var sequence := GenerateSequence(dict, context, len);
      xs := xs + [sequence];
      context := context + [output];
      ys := ys + [IndexOf(dict, [output])];
      assert line[..k + 1] == line[..k] + [line[k]];
    }
    assert context == line;
    var last := GenerateSequence(dict, context, len);
    xs := xs + [last];
    ys := ys + [END_INDEX];
    result := Dataset(xs, ys);
  }

  /** A line of length N gives N + 1 pairs. Pair k holds the prefix of length k and
      the index of the character after it; the last pair has target `END_INDEX`.
      Successive contexts that fit in `len` agree except at the one new position,
      which holds the previous pair's target. */
  lemma LineDataWindows(dict: seq<string>, line: string, len: nat)
    ensures |LineData(dict, line, len).xs| == |LineData(dict, line, len).ys| == |line| + 1
    ensures forall k :: 0 <= k <= |line| ==> LineData(dict, line, len).xs[k] == Sequence(dict, line[..k], len)
    ensures forall k :: 0 <= k < |line| ==> LineData(dict, line, len).ys[k] == IndexOf(dict, [line[k]])
    ensures LineData(dict, line, len).ys[|line|] == END_INDEX
    ensures forall k :: 0 <= k < |line| && k < len ==>
              LineData(dict, line, len).xs[k + 1][k] == LineData(dict, line, len).ys[k] &&
              LineData(dict, line, len).xs[k][k] == END_INDEX
    ensures forall k :: 0 <= k < |line| && k < len ==>
              LineData(dict, line, len).xs[k + 1][..k] == LineData(dict, line, len).xs[k][..k] &&
              LineData(dict, line, len).xs[k + 1][k + 1..] == LineData(dict, line, len).xs[k][k + 1..]
  {
  }

  /** The dataset `convertLinesToDataset(lines, len)` returns: the pairs of every
      non-empty line, in order, defined over growing prefixes of the lines. */
  function DatasetOf(dict: seq<string>, lines: seq<string>, len: nat): Dataset
    decreases |lines|
  {
    if |lines| == 0 then Dataset([], [])
    else
      var init := DatasetOf(dict, lines[..|lines| - 1], len);
      var line := lines[|lines| - 1];
      if line == [] then init else Concat(init, LineData(dict, line, len))
  }

  /** `convertLinesToDataset`: for each line that is not empty, pushes its pairs. */
  method ConvertLinesToDataset(dict: seq<string>, lines: seq<string>, len: nat) returns (result: Dataset)
    ensures result == DatasetOf(dict, lines, len)
  {
    result := Dataset([], []);
    for i := 0 to |lines|
      invariant result == DatasetOf(dict, lines[..i], len)
    {
      assert lines[..i + 1][..i] == lines[..i];
      var line := lines[i];
      if line != [] {
        var data := ConvertLineToData(dict, line, len);
        result := Dataset(result.xs + data.xs, result.ys + data.ys);
      }
    }
    assert lines[..|lines|] == lines;
  }

  /** The dataset of two runs of lines is the dataset of the first followed by that of the second. */
  lemma {:induction false} DatasetOfAppend(dict: seq<string>, a: seq<string>, b: seq<string>, len: nat)
    ensures DatasetOf(dict, a + b, len) == Concat(DatasetOf(dict, a, len), DatasetOf(dict, b, len))
    decreases |b|
  {
    if |b| == 0 {
      assert a + b == a;
    } else {
      var b' := b[..|b| - 1];
      assert (a + b)[..|a + b| - 1] == a + b';
      DatasetOfAppend(dict, a, b', len);
    }
  }

  /** Empty lines contribute nothing; every other line contributes |line| + 1 pairs. */
  function PairCount(lines: seq<string>): nat
  {
    if |lines| == 0 then 0
    else (if lines[0] == [] then 0 else |lines[0]| + 1) + PairCount(lines[1..])
  }

  /** `|xs| = |ys| =` the sum of `|line| + 1` over the non-empty lines. */
  lemma {:induction false} DatasetSize(dict: seq<string>, lines: seq<string>, len: nat)
    ensures |DatasetOf(dict, lines, len).xs| == |DatasetOf(dict, lines, len).ys| == PairCount(lines)
    decreases |lines|
  {
    if |lines| > 0 {
      assert lines == [lines[0]] + lines[1..];
      DatasetOfAppend(dict, [lines[0]], lines[1..], len);
      DatasetSize(dict, lines[1..], len);
      assert [lines[0]][..0] == [];
    }
  }

  /** When no line is longer than `len`, every context in the dataset has exactly `len` elements. */
  lemma {:induction false} DatasetUniformLength(dict: seq<string>, lines: seq<string>, len: nat)
    requires forall i :: 0 <= i < |lines| ==> |lines[i]| <= len
    ensures forall k :: 0 <= k < |DatasetOf(dict, lines, len).xs| ==> |DatasetOf(dict, lines, len).xs[k]| == len
    decreases |lines|
  {
    if |lines| > 0 {
      DatasetUniformLength(dict, lines[..|lines| - 1], len);
    }
  }

  /** When every character of every line is in the vocabulary, every context element
      and every target of the dataset is a valid vocabulary index. */
  lemma {:induction false} DatasetInRange(dict: seq<string>, lines: seq<string>, len: nat)
    requires |dict| > END_INDEX
    requires forall i, ch :: 0 <= i < |lines| && ch in lines[i] ==> [ch] in dict
    ensures forall k :: 0 <= k < |DatasetOf(dict, lines, len).ys| ==>
              0 <= DatasetOf(dict, lines, len).ys[k] < |dict|
    ensures forall k, j :: 0 <= k < |DatasetOf(dict, lines, len).xs| && 0 <= j < |DatasetOf(dict, lines, len).xs[k]| ==>
              0 <= DatasetOf(dict, lines, len).xs[k][j] < |dict|
    decreases |lines|
  {
    if |lines| > 0 {
      var init := lines[..|lines| - 1];
      var line := lines[|lines| - 1];
      DatasetInRange(dict, init, len);
      if line != [] {
        var d := LineData(dict, line, len);
        forall k | 0 <= k <= |line|
          ensures forall j :: 0 <= j < |d.xs[k]| ==> 0 <= d.xs[k][j] < |dict|
        {
          SequenceInRange(dict, line[..k], len);
        }
        forall k | 0 <= k < |line|
          ensures 0 <= d.ys[k] < |dict|
        {
          assert line[k] in line;
        }
      }
    }
  }
}
