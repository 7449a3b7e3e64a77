/** Vocabulary building: the symbols of the corpus (`listChars`) and the symbol
    table built from them (`generateDict`), whose first two entries are sentinels. */
module Vocabulary {
  import opened JsBuiltins

  /** The sentinel at index 0, for a symbol the network does not know. */
  const UNKNOWN: string := "<unknown>"
  /** The sentinel at index 1, the target that marks the end of a line. */
  const END: string := "<end>"
  /** `unknownIndex` and `endIndex`, fixed by `generateDict`. */
  const UNKNOWN_INDEX: int := 0
  const END_INDEX: int := 1

  /** `listChars`: `text.split('\r').join('').split('\n').join('').split('')`.
      Splitting with '' yields the characters themselves, so the last step is the identity. */
  function ListChars(text: string): (r: seq<char>)
    ensures '\r' !in r && '\n' !in r
    ensures forall ch :: ch in r <==> ch in text && ch != '\r' && ch != '\n'
  {
    var noReturns := Join(Split(text, '\r'), "");
    SplitJoinEmptyRemoves(text, '\r');
    SplitJoinEmptyRemoves(noReturns, '\n');
    RemoveAllKeeps(text, '\r');
    RemoveAllKeeps(noReturns, '\n');
    Join(Split(noReturns, '\n'), "")
  }

  /** `listChars` keeps every other character, in the order of the text. */
  lemma ListCharsInOrder(text: string)
    ensures ListChars(text) == RemoveAll(RemoveAll(text, '\r'), '\n')
  {
    SplitJoinEmptyRemoves(text, '\r');
    SplitJoinEmptyRemoves(RemoveAll(text, '\r'), '\n');
  }

  /** The symbol table `generateDict(values)` returns, described prefix by prefix:
      each value not yet present is appended as a one-character entry. */
  function DictOf(values: seq<char>): seq<string>
    decreases |values|
  {
    if |values| == 0 then [UNKNOWN, END]
    else
      var dict := DictOf(values[..|values| - 1]);
      var entry := [values[|values| - 1]];
      if entry in dict then dict else dict + [entry]
  }

  /** One more value: it is appended as an entry unless it already has one. */
  lemma DictOfSnoc(values: seq<char>, v: char, dict: seq<string>)
    requires DictOf(values) == dict
    ensures DictOf(values + [v]) == if [v] in dict then dict else dict + [[v]]
  {
  }

  /** `generateDict`: starts from the two sentinels and pushes every value that
      `result.includes` does not find yet. */
  method GenerateDict(values: seq<char>) returns (result: seq<string>)
    ensures result == DictOf(values)
  {
    result := [UNKNOWN, END];
    for i := 0 to |values|
      invariant result == DictOf(values[..i])
    {
      assert values[..i + 1][..i] == values[..i];
      var val := [values[i]];
      if val !in result {
        result := result + [val];
      }
    }
    assert values[..|values|] == values;
  }

  /** The sentinels come first, and every other entry is one character of the input. */
  lemma {:induction false} DictOfEntries(values: seq<char>)
    ensures |DictOf(values)| >= 2
    ensures DictOf(values)[0] == UNKNOWN && DictOf(values)[1] == END
    ensures forall k :: 2 <= k < |DictOf(values)| ==>
              |DictOf(values)[k]| == 1 && DictOf(values)[k][0] in values
    decreases |values|
  {
    if |values| > 0 {
      var init := values[..|values| - 1];
      DictOfEntries(init);
      assert forall x :: x in init ==> x in values;
    }
  }

  /** Every input character has an entry. */
  lemma {:induction false} DictOfComplete(values: seq<char>)
    ensures forall ch :: ch in values ==> [ch] in DictOf(values)
    decreases |values|
  {
    if |values| > 0 {
      var init := values[..|values| - 1];
      DictOfComplete(init);
      assert values == init + [values[|values| - 1]];
    }
  }

  /** No symbol appears twice; in particular a corpus character never collides with a sentinel. */
  lemma {:induction false} DictOfNoDuplicates(values: seq<char>)
    ensures forall i, j :: 0 <= i < j < |DictOf(values)| ==> DictOf(values)[i] != DictOf(values)[j]
    decreases |values|
  {
    DictOfEntries(values);
    if |values| > 0 {
      DictOfNoDuplicates(values[..|values| - 1]);
    }
  }

  /** The entries after the sentinels are in order of first appearance in the input. */
  lemma {:induction false} DictOfFirstAppearance(values: seq<char>)
    ensures forall k :: 2 <= k < |DictOf(values)| ==> |DictOf(values)[k]| == 1
    ensures forall a, b :: 2 <= a < b < |DictOf(values)| ==>
              IndexOf(values, DictOf(values)[a][0]) < IndexOf(values, DictOf(values)[b][0])
    decreases |values|
  {
    DictOfEntries(values);
    if |values| > 0 {
      var init := values[..|values| - 1];
      var last := values[|values| - 1];
      var dict := DictOf(init);
      assert values == init + [last];
      DictOfFirstAppearance(init);
      DictOfEntries(init);
      DictOfComplete(init);
      forall k | 2 <= k < |dict|
        ensures IndexOf(values, dict[k][0]) == IndexOf(init, dict[k][0])
      {
        IndexOfAppend(init, last, dict[k][0]);
      }
      if [last] !in dict {
        IndexOfAppend(init, last, last);
        assert last !in init;
      }
    }
  }
}
