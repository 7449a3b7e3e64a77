# Character-level autocomplete: data preparation and greedy decoding

This project models the deterministic core of a browser toy that learns to complete
lines of text one character at a time (`main.js`). It covers:

- **Symbol extraction** (`listChars`): the corpus with every `'\r'` and `'\n'` removed, split into characters.
- **Vocabulary building** (`generateDict`): the sentinels `'<unknown>'` (index 0) and `'<end>'` (index 1), then each distinct corpus character once, in order of first appearance.
- **Sequence length** (`getSequenceLength`): the length of the longest line.
- **Sequence encoding** (`generateSequence`): one `dict.indexOf(ch)` per character of
  the context, then right-padding with the end index up to the sequence length.
- **Windowing** (`convertLineToData`, `convertLinesToDataset`): every non-empty line
  becomes its prefix/next-character training pairs, plus one pair for the whole line
  with the end index as its target.
- **Greedy decoding** (`predict`, `predictTest`): extends the typed text with the
  network's best next vocabulary entry until it predicts `'<end>'` or the text
  reaches the sequence length.

The globals `dict`, `endIndex` and `sequenceLength` are explicit parameters. Their
constants are `UNKNOWN_INDEX = 0` and `END_INDEX = 1`. Since every function takes
the vocabulary and the length it works with, a decode always runs against one fixed
vocabulary. Where the code nests a target as `[[index]]`, the model keeps the plain
index. Strings are Dafny `string`s, and each `char` is one unit of JavaScript's `split('')`.

Modules, one per component: `JsBuiltins` holds the string and array built-ins the
code uses (`split`, `join`, `indexOf`, `Math.max`, `reduce`). Then come `Vocabulary`,
`Encoding`, `Windowing` and `Decoding`. `Pipeline` holds the data path of `train`
and some concrete examples.

The loops of the source are methods. Each is proved equal to a specification
function: `GenerateDict` to `DictOf`, `GenerateSequence` to `Sequence`,
`ConvertLineToData` to `LineData`, `ConvertLinesToDataset` to `DatasetOf`, and
`PredictTest` to `Greedy`. The properties are proved as lemmas about those functions.

Two behaviours worth knowing. First, `indexOf` gives -1 for a character that is not in
the vocabulary, not `UNKNOWN_INDEX`. Second, a context longer than the sequence
length is kept whole, neither truncated nor rejected. The model follows the code
here (`MissingCharacterEncodesAsMinusOne`, `ExampleMissingCharacter`, and the
length clause of `Sequence`).

## Model

| member | source | states |
|---|---|---|
| `JsBuiltins.Split` | main.js:35 | `split('\n')` always yields at least one piece, and no piece contains the separator |
| `JsBuiltins.SplitAbsent` | main.js:35 | a text without the separator splits into the one-piece list holding the text |
| `JsBuiltins.SplitAtFirst` | main.js:35 | the first separator ends the first piece; the remaining pieces are those of the rest of the text |
| `JsBuiltins.Join` | main.js:33 | `join(sep)` starts with the first part, and its length is the parts' total length plus one `sep` per gap |
| `JsBuiltins.SplitJoinRoundTrip` | main.js:33 | joining the pieces of `split(c)` with `c` gives back the original text |
| `JsBuiltins.SplitJoinEmptyRemoves` | main.js:171 | `split(c).join('')` equals the text with every `c` removed and the rest in order |
| `JsBuiltins.RemoveAll` | main.js:171 | removing characters never lengthens the text |
| `JsBuiltins.RemoveAllKeeps` | main.js:171 | a character survives removal of `c` exactly when it occurs in the text and is not `c` |
| `JsBuiltins.RemoveAllAbsent` | main.js:33 | removing a character the text does not hold leaves the text unchanged |
| `JsBuiltins.SplitPiecesFromText` | main.js:35 | every character of every line comes from the text and is not the separator |
| `JsBuiltins.IndexOf` | main.js:159 | `indexOf` is -1 exactly when the element is absent; otherwise it is the position of the first occurrence |
| `JsBuiltins.IndexOfFirst` | main.js:151 | a position holding the first occurrence is exactly what `indexOf` returns |
| `JsBuiltins.IndexOfAppend` | main.js:182-185 | pushing onto an array keeps the `indexOf` of every element already present, and an absent element pushed is found at the old length |
| `JsBuiltins.Max` | main.js:167 | `Math.max` is at least both arguments and equal to one of them |
| `JsBuiltins.ReduceMax` | main.js:167 | `reduce(Math.max)` on a non-empty array is at least every element and equal to some element |
| `Vocabulary.ListChars` | main.js:170-172 | the result holds no `'\r'` and no `'\n'`, and holds a character exactly when the text has it and it is not a line ending |
| `Vocabulary.ListCharsInOrder` | main.js:170-172 | the result is the text with `'\r'` and `'\n'` removed, in the original order |
| `Vocabulary.GenerateDict` | main.js:178-188 | the loop with its `includes` check builds exactly the vocabulary `DictOf(values)` |
| `Vocabulary.DictOfSnoc` | main.js:182-185 | one more value adds a one-character entry exactly when it has none yet |
| `Vocabulary.DictOfEntries` | main.js:179-185 | the vocabulary starts with `'<unknown>'` and `'<end>'`, and every later entry is one character of the input |
| `Vocabulary.DictOfComplete` | main.js:182-185 | every input character has an entry |
| `Vocabulary.DictOfNoDuplicates` | main.js:183-184 | no entry appears twice, including the sentinels |
| `Vocabulary.DictOfFirstAppearance` | main.js:182-185 | the entries after the sentinels are in strictly increasing order of first appearance in the input |
| `Encoding.GetSequenceLength` | main.js:166-168 | the result is at least the length of every line and equal to the length of some line |
| `Encoding.SequenceLengthOfText` | main.js:35 | the lines of a text are never an empty list, so the sequence length is defined; it is at most the text's length |
| `Encoding.Sequence` | main.js:158-164 | the result has as many elements as the longer of the context and L: each position within the context holds `indexOf(dict, context[i])`, and every later position holds `END_INDEX` |
| `Encoding.GenerateSequence` | main.js:158-164 | the map plus the padding loop produce exactly `Sequence(dict, context, L)` |
| `Encoding.MissingCharacterEncodesAsMinusOne` | main.js:159 | a character absent from the vocabulary is encoded as -1 |
| `Encoding.SequenceInRange` | main.js:159-162 | when every context character is in the vocabulary, every encoded element is a valid index, from 0 to the vocabulary size minus one |
| `Windowing.ConvertLineToData` | main.js:145-156 | the loop that grows the context produces exactly `LineData(dict, line, L)` |
| `Windowing.LineDataWindows` | main.js:145-156 | a line of length N gives N+1 contexts and N+1 targets; pair k pairs the prefix of length k with `indexOf(line[k])`; the last target is `END_INDEX`; the next context differs only at position k, where it holds pair k's target |
| `Windowing.ConvertLinesToDataset` | main.js:133-143 | the loop skipping empty lines produces exactly `DatasetOf(dict, lines, L)` |
| `Windowing.DatasetOfAppend` | main.js:135-140 | the dataset of two runs of lines is the in-order concatenation of their datasets |
| `Windowing.DatasetSize` | main.js:133-156 | `xs` and `ys` both have as many elements as the sum of (line length + 1) over the non-empty lines |
| `Windowing.DatasetUniformLength` | main.js:133-164 | when no line is longer than L, every context in the dataset has exactly L elements |
| `Windowing.DatasetInRange` | main.js:136-154 | when every line character is in the vocabulary, every context element and every target is a valid vocabulary index |
| `Decoding.Predict` | main.js:81-87 | `predict` returns one of the vocabulary entries |
| `Decoding.PredictTest` | main.js:89-102 | the decode loop returns `Greedy(dict, L, predictor, seed)` after as many predictor calls as `Outputs` lists, at most L minus the seed length, and none when the seed already has length L or more |
| `Decoding.DecodeCallBound` | main.js:93-99 | decoding makes at most L minus the seed length predictor calls, because every entry except `'<end>'` is non-empty |
| `Decoding.DecodeTrace` | main.js:93-99 | every call returns a vocabulary entry, and only the last call can return `'<end>'`. If it does, the result is the seed plus the earlier entries and is shorter than L; otherwise the result is the seed plus all entries and has reached L |
| `Decoding.DecodeSteps` | main.js:93-97 | each call is greedy: call i returns the entry predicted for the seed followed by the entries of the i earlier calls |
| `Decoding.DecodeKeepsSeed` | main.js:91-101 | the seed is a prefix of the result, and the result is the seed itself when the seed already has length L or more |
| `Pipeline.PrepareSession` | main.js:33-51 | the session is derived from the text with every `'\r'` removed: the vocabulary is `DictOf` of its characters other than `'\n'`, in order, and the sequence length and dataset come from its `'\n'`-separated lines |
| `Pipeline.VocabularyWellFormed` | main.js:178-188 | the vocabulary of a text without line endings has both sentinels first, then one-character entries that are not line endings, and no empty entry except `'<end>'` |
| `Pipeline.DatasetWellFormed` | main.js:133-168 | when every line character has an entry, the dataset at the lines' own sequence length has as many targets as contexts, every context of exactly that length, and only valid indices |
| `Pipeline.SessionWellFormed` | main.js:33-51 | for any corpus, the vocabulary built from the `'\r'`-stripped text has both sentinels, no line ending, and no empty non-end entry. Its dataset has as many targets as contexts, every context has exactly the session's sequence length, and every index is a valid vocabulary index |
| `Pipeline.ExampleSequenceLength` | main.js:166-168 | the lines `"1+1=2"` and `"2+2=4"` have sequence length 5 |
| `Pipeline.ExampleCorpusLines` | main.js:33-35 | the corpus `"1+1=2\n2+2=4"` holds no `'\r'` and splits into the lines `"1+1=2"` and `"2+2=4"` |
| `Pipeline.ExampleVocabularyFirstLine` | main.js:178-188 | the characters of `"1+1=2"` give the vocabulary `[<unknown>, <end>, 1, +, =, 2]` |
| `Pipeline.ExampleVocabularySteps` | main.js:178-188 | the ten characters of `"1+1=22+2=4"`, given one by one, give `[<unknown>, <end>, 1, +, =, 2, 4]` |
| `Pipeline.ExampleVocabulary` | main.js:170-188 | the characters `"1+1=22+2=4"` give the vocabulary `[<unknown>, <end>, 1, +, =, 2, 4]` |
| `Pipeline.ExampleSession` | main.js:33-40 | the corpus `"1+1=2\n2+2=4"`, taken through the whole data path, gives the vocabulary `[<unknown>, <end>, 1, +, =, 2, 4]` and sequence length 5 |
| `Pipeline.ExampleEncoding` | main.js:158-164 | against `[<unknown>, <end>, 1, +, =, 2, 4]` with L = 5, `"1+"` is encoded as `[2, 3, 1, 1, 1]` |
| `Pipeline.ExampleMissingCharacter` | main.js:159-162 | against `[<unknown>, <end>, a]` with L = 3, `"ab"` is encoded as `[2, -1, 1]` |
| `Pipeline.ExampleDecodeStopsOnEnd` | main.js:93-97 | a predictor that always answers `'<end>'` leaves the empty seed unchanged after one call |
| `Pipeline.ExampleDecodeStopsAtLength` | main.js:93-99 | a predictor that always answers `"a"` extends the empty seed to `"aaa"` at L = 3, in three calls |

## Left out

- DOM wiring, button visibility, `onkeyup`, `setInterval` and log buffering (`main`, `log`; main.js:1-29, 174-176): user interface and timer I/O.
- The rest of `train` (main.js:31-74): the asynchronous orchestration, the DOM reads, `parseInt` of the hidden-layer size, the model-regeneration check on `oldInput`, the test calls `predict(dict[2])` and the try/catch. `PrepareSession` models only its data path (main.js:33, 35, 40, 51).
- `generateModel`, `fitDataset` and `stopTrain` with the `stopTraining` flag (main.js:76-79, 104-131): TensorFlow.js layers, training with floating-point loss and accuracy callbacks. These are foreign library calls and floating point.
- The tensors and the floating-point `tf.argMax` inside `predict` (main.js:81-87). They are replaced by an oracle `predictor` from the encoded context to an index below `|dict|`. Tie-breaking among equal scores is therefore not modelled.
- Writing the decoded text to the output box (main.js:90, 101) is left out: `PredictTest` returns it instead. Its count of predictor calls is a ghost out-parameter, since the source keeps no such count.
- GetSequenceLength, ReduceMax: both require a non-empty list: `reduce` without an initial value throws a `TypeError` on an empty array. That error path is not modelled, because the only caller passes the result of `split('\n')`, which is never empty (`SequenceLengthOfText`).
- `generateFirstSource` (main.js:190-202): it only produces a constant demo corpus through number-to-string templates.
- The case where `dict` or `sequenceLength` is still `undefined` (decoding before any training) is not modelled. The model always receives a vocabulary and a length.
- JavaScript strings are UTF-16: `split('')` separates the two halves of a surrogate pair. Dafny's `char` is one Unicode scalar value. The two agree on text within the Basic Multilingual Plane.
