/** The data path of `train`: the corpus text with every '\r' removed feeds both
    the sequence length (over its lines) and the vocabulary (over its characters),
    and the dataset is built from the same lines. */
module Pipeline {
  import opened JsBuiltins
  import opened Vocabulary
  import opened Encoding
  import opened Windowing
  import opened Decoding

  /** What one training session prepares before it calls the trainer. */
  datatype Session = Session(dict: seq<string>, sequenceLength: nat, dataset: Dataset)

  /** The values `train` computes from the corpus text, in the order it computes them.
      Everything is derived from the text with every '\r' removed: the vocabulary from
      its characters other than line endings, in order, and the sequence length and
      the dataset from its lines. */
  function PrepareSession(text: string): (s: Session)
    ensures s.dict == DictOf(RemoveAll(RemoveAll(text, '\r'), '\n'))
    ensures s.sequenceLength == GetSequenceLength(Split(RemoveAll(text, '\r'), '\n'))
    ensures s.dataset == DatasetOf(s.dict, Split(RemoveAll(text, '\r'), '\n'), s.sequenceLength)
  {
    var input := Join(Split(text, '\r'), "");
    SplitJoinEmptyRemoves(text, '\r');
    ListCharsInOrder(input);
    RemoveAllKeeps(text, '\r');
    RemoveAllAbsent(input, '\r');
    var lines := Split(input, '\n');
    var len := GetSequenceLength(lines);
    var dict := DictOf(ListChars(input));
    Session(dict, len, DatasetOf(dict, lines, len))
  }

  /** The vocabulary of a text without line endings has the two sentinels, then
      one-character entries that are not line endings, so it suits the decoder. */
  lemma {:induction false} VocabularyWellFormed(chars: seq<char>)
    requires '\r' !in chars && '\n' !in chars
    ensures |DictOf(chars)| >= 2 && DictOf(chars)[UNKNOWN_INDEX] == UNKNOWN && DictOf(chars)[END_INDEX] == END
    ensures forall k :: 2 <= k < |DictOf(chars)| ==>
              |DictOf(chars)[k]| == 1 && DictOf(chars)[k][0] != '\r' && DictOf(chars)[k][0] != '\n'
    ensures EntriesNonEmpty(DictOf(chars))
  {
    var dict := DictOf(chars);
    DictOfEntries(chars);
    forall w | w in dict && w != END
      ensures |w| > 0
    {
      var k :| 0 <= k < |dict| && dict[k] == w;
    }
  }

  /** The dataset of lines whose characters all have entries, at the lines' own
      sequence length, pairs every context with one target, has contexts of exactly
      that length, and holds only valid vocabulary indices. */
  lemma {:induction false} DatasetWellFormed(dict: seq<string>, lines: seq<string>)
    requires |lines| > 0 && |dict| > END_INDEX
    requires forall i, ch :: 0 <= i < |lines| && ch in lines[i] ==> [ch] in dict
    ensures var d := DatasetOf(dict, lines, GetSequenceLength(lines));
            |d.xs| == |d.ys|
    ensures var d := DatasetOf(dict, lines, GetSequenceLength(lines));
            forall k :: 0 <= k < |d.xs| ==> |d.xs[k]| == GetSequenceLength(lines)
    ensures var d := DatasetOf(dict, lines, GetSequenceLength(lines));
            forall k :: 0 <= k < |d.ys| ==> 0 <= d.ys[k] < |dict|
    ensures var d := DatasetOf(dict, lines, GetSequenceLength(lines));
            forall k, j :: 0 <= k < |d.xs| && 0 <= j < |d.xs[k]| ==> 0 <= d.xs[k][j] < |dict|
  {
    var len := GetSequenceLength(lines);
    DatasetSize(dict, lines, len);
    DatasetUniformLength(dict, lines, len);
    DatasetInRange(dict, lines, len);
  }

  /** A session built from any corpus is consistent: its vocabulary has the two
      sentinels, holds no line ending and suits the decoder; its dataset pairs every
      context with one target, every context has exactly the session's sequence
      length, and every index in it is a valid vocabulary index. */
  lemma {:induction false} SessionWellFormed(text: string)
    ensures var s := PrepareSession(text);
            |s.dict| >= 2 && s.dict[UNKNOWN_INDEX] == UNKNOWN && s.dict[END_INDEX] == END
    ensures var s := PrepareSession(text);
            forall k :: 2 <= k < |s.dict| ==> |s.dict[k]| == 1 && s.dict[k][0] != '\r' && s.dict[k][0] != '\n'
    ensures EntriesNonEmpty(PrepareSession(text).dict)
    ensures var d := PrepareSession(text).dataset;
            |d.xs| == |d.ys|
    ensures var s := PrepareSession(text);
            forall k :: 0 <= k < |s.dataset.xs| ==> |s.dataset.xs[k]| == s.sequenceLength
    ensures var s := PrepareSession(text);
            forall k :: 0 <= k < |s.dataset.ys| ==> 0 <= s.dataset.ys[k] < |s.dict|
    ensures var s := PrepareSession(text);
            forall k, j :: 0 <= k < |s.dataset.xs| && 0 <= j < |s.dataset.xs[k]| ==>
              0 <= s.dataset.xs[k][j] < |s.dict|
  {
    var input := RemoveAll(text, '\r');
    RemoveAllKeeps(text, '\r');
    var lines := Split(input, '\n');
    var chars := RemoveAll(input, '\n');
    RemoveAllKeeps(input, '\n');
    var dict := DictOf(chars);
    VocabularyWellFormed(chars);
    DictOfComplete(chars);
    forall i, ch | 0 <= i < |lines| && ch in lines[i]
      ensures [ch] in dict
    {
      SplitPiecesFromText(input, '\n', i, ch);
      assert ch in chars;
    }
    DatasetWellFormed(dict, lines);
  }

  /** The lines of the example corpus "1+1=2\n2+2=4" have sequence length 5, the
      length of the longest. */
  lemma ExampleSequenceLength()
    ensures GetSequenceLength(["1+1=2", "2+2=4"]) == 5
  {
  }

  /** The example corpus has no '\r' and consists of two lines. */
  lemma ExampleCorpusLines(text: string)
    requires text == "1+1=2\n2+2=4"
    ensures RemoveAll(text, '\r') == text
    ensures Split(text, '\n') == ["1+1=2", "2+2=4"]
  {
    var a, b := "1+1=2", "2+2=4";
    assert text == a + ['\n'] + b;
    RemoveAllAbsent(text, '\r');
    SplitAtFirst(a, '\n', b);
    SplitAbsent(b, '\n');
  }

  /** The vocabulary of the first line of the example, built one value at a time. */
  lemma ExampleVocabularyFirstLine(values: seq<char>)
    requires |values| == 5
    requires values[0] == '1' && values[1] == '+' && values[2] == '1' && values[3] == '=' && values[4] == '2'
    ensures DictOf(values) == [UNKNOWN, END, "1", "+", "=", "2"]
  {
    var v0: seq<char> :| v0 == [];
    var v1 := v0 + ['1'];
    DictOfSnoc(v0, '1', [UNKNOWN, END]);
    var v2 := v1 + ['+'];
    DictOfSnoc(v1, '+', [UNKNOWN, END, "1"]);
    var v3 := v2 + ['1'];
    DictOfSnoc(v2, '1', [UNKNOWN, END, "1", "+"]);
    var v4 := v3 + ['='];
    DictOfSnoc(v3, '=', [UNKNOWN, END, "1", "+"]);
    var v5 := v4 + ['2'];
    DictOfSnoc(v4, '2', [UNKNOWN, END, "1", "+", "="]);
    assert v5 == values;
  }

  /** The vocabulary of the example's characters: the second line adds only '4'. */
  lemma ExampleVocabularySteps(values: seq<char>)
    requires |values| == 10
    requires values[0] == '1' && values[1] == '+' && values[2] == '1' && values[3] == '=' && values[4] == '2'
    requires values[5] == '2' && values[6] == '+' && values[7] == '2' && values[8] == '=' && values[9] == '4'
    ensures DictOf(values) == [UNKNOWN, END, "1", "+", "=", "2", "4"]
  {
    var v5 := values[..5];
    ExampleVocabularyFirstLine(v5);
    var v6 := v5 + ['2'];
    DictOfSnoc(v5, '2', [UNKNOWN, END, "1", "+", "=", "2"]);
    var v7 := v6 + ['+'];
    DictOfSnoc(v6, '+', [UNKNOWN, END, "1", "+", "=", "2"]);
    var v8 := v7 + ['2'];
    DictOfSnoc(v7, '2', [UNKNOWN, END, "1", "+", "=", "2"]);
    var v9 := v8 + ['='];
    DictOfSnoc(v8, '=', [UNKNOWN, END, "1", "+", "=", "2"]);
    var v10 := v9 + ['4'];
    DictOfSnoc(v9, '4', [UNKNOWN, END, "1", "+", "=", "2"]);
    assert v10 == values;
  }

  /** The characters of the example corpus give the vocabulary
      `[<unknown>, <end>, 1, +, =, 2, 4]`. */
  lemma ExampleVocabulary(values: seq<char>)
    requires values == "1+1=22+2=4"
    ensures DictOf(values) == [UNKNOWN, END, "1", "+", "=", "2", "4"]
  {
    ExampleVocabularySteps(values);
  }

  /** The example corpus goes through the whole data path: its vocabulary is the two
      sentinels followed by '1', '+', '=', '2' and '4' in order of first appearance,
      and its sequence length is 5. */
  lemma ExampleSession(text: string)
    requires text == "1+1=2\n2+2=4"
    ensures PrepareSession(text).dict == [UNKNOWN, END, "1", "+", "=", "2", "4"]
    ensures PrepareSession(text).sequenceLength == 5
  {
    ExampleCorpusLines(text);
    ExampleSequenceLength();
    SplitJoinEmptyRemoves(text, '\n');
    assert Join(["1+1=2", "2+2=4"], "") == "1+1=22+2=4";
    ExampleVocabulary(RemoveAll(text, '\n'));
  }

  /** Against the example's vocabulary "1+" is encoded as the indices of '1' and '+'
      followed by three end indices. */
  lemma ExampleEncoding()
    ensures Sequence([UNKNOWN, END, "1", "+", "=", "2", "4"], "1+", 5) == [2, 3, 1, 1, 1]
  {
  }

  /** A character outside the vocabulary is encoded as -1. */
  lemma ExampleMissingCharacter()
    ensures Sequence([UNKNOWN, END, "a"], "ab", 3) == [2, -1, 1]
  {
  }

  /** With a predictor that always answers `<end>`, decoding the empty seed stops at once. */
  lemma ExampleDecodeStopsOnEnd()
    ensures Greedy([UNKNOWN, END, "a"], 3, _ => 1, "") == ""
    ensures |Outputs([UNKNOWN, END, "a"], 3, _ => 1, "")| == 1
  {
  }

  /** With a predictor that always answers "a", decoding the empty seed stops at the
      sequence length after three calls. */
  lemma ExampleDecodeStopsAtLength()
    ensures Greedy([UNKNOWN, END, "a"], 3, _ => 2, "") == "aaa"
    ensures |Outputs([UNKNOWN, END, "a"], 3, _ => 2, "")| == 3
  {
    var dict := [UNKNOWN, END, "a"];
    var predictor: seq<int> -> nat := _ => 2;
    assert PredictsIndex(dict, predictor);
    assert EntriesNonEmpty(dict);
    forall context: string
      ensures Predict(dict, 3, predictor, context) == "a"
    {
      assert predictor(Sequence(dict, context, 3)) == 2;
    }
    assert "" + "a" == "a" && "a" + "a" == "aa" && "aa" + "a" == "aaa";
  }
}
