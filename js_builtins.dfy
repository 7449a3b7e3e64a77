/** The JavaScript string and array built-ins the autocomplete relies on,
    written out over Dafny strings (sequences of `char`, one Unicode scalar value each). */
module JsBuiltins {

  /** `s.split(c)` for a one-character separator: the pieces of `s` between
      occurrences of `c`. There is always at least one piece, and a separator
      at either end or two in a row gives an empty piece. */
  function Split(s: string, c: char): (r: seq<string>)
    ensures |r| >= 1
    ensures forall i :: 0 <= i < |r| ==> c !in r[i]
  {
    if s == [] then [[]]
    else
      var rest := Split(s[1..], c);
      if s[0] == c then [[]] + rest
      else [[s[0]] + rest[0]] + rest[1..]
  }

  /** The summed length of a list of strings. */
  function TotalLength(parts: seq<string>): nat
  {
    if |parts| == 0 then 0 else |parts[0]| + TotalLength(parts[1..])
  }

  /** `parts.join(sep)`: the parts with `sep` between neighbours; `[].join(sep)` is "".
      The result starts with the first part and holds every part plus one `sep` per gap. */
  function Join(parts: seq<string>, sep: string): (r: string)
    ensures |parts| > 0 ==> parts[0] <= r
    ensures |r| == TotalLength(parts) + (if |parts| > 0 then (|parts| - 1) * |sep| else 0)
  {
    if |parts| == 0 then []
    else if |parts| == 1 then parts[0]
    else
      var r := parts[0] + sep + Join(parts[1..], sep);
      assert (|parts| - 1) * |sep| == |sep| + (|parts| - 2) * |sep|;
      r
  }

  /** Reference definition: `s` with every occurrence of `c` dropped, order kept. */
  function RemoveAll(s: string, c: char): (r: string)
    ensures |r| <= |s|
  {
    if s == [] then []
    else (if s[0] == c then [] else [s[0]]) + RemoveAll(s[1..], c)
  }

  /** Removing `c` keeps exactly the characters other than `c`. */
  lemma {:induction false} RemoveAllKeeps(s: string, c: char)
    ensures forall x :: x in RemoveAll(s, c) <==> x in s && x != c
  {
    if s != [] {
      RemoveAllKeeps(s[1..], c);
      assert s == [s[0]] + s[1..];
    }
  }

  /** Removing a character the text does not hold changes nothing. */
  lemma {:induction false} RemoveAllAbsent(s: string, c: char)
    requires c !in s
    ensures RemoveAll(s, c) == s
  {
    if s != [] {
      assert forall x :: x in s[1..] ==> x in s;
      RemoveAllAbsent(s[1..], c);
      assert [s[0]] + s[1..] == s;
    }
  }

  /** A text without the separator splits into itself. */
  lemma {:induction false} SplitAbsent(s: string, c: char)
    requires c !in s
    ensures Split(s, c) == [s]
  {
    if s != [] {
      assert forall x :: x in s[1..] ==> x in s;
      SplitAbsent(s[1..], c);
      assert [s[0]] + s[1..] == s;
    }
  }

  /** The first separator ends the first piece. */
  lemma {:induction false} SplitAtFirst(a: string, c: char, b: string)
    requires c !in a
    ensures Split(a + [c] + b, c) == [a] + Split(b, c)
  {
    if a == [] {
      assert a + [c] + b == [c] + b;
      assert ([c] + b)[1..] == b;
    } else {
      assert forall x :: x in a[1..] ==> x in a;
      SplitAtFirst(a[1..], c, b);
      assert (a + [c] + b)[1..] == a[1..] + [c] + b;
      assert [a[0]] + a[1..] == a;
    }
  }

  /** Joining the pieces of a split with the separator gives back the text. */
  lemma {:induction false} SplitJoinRoundTrip(s: string, c: char)
    ensures Join(Split(s, c), [c]) == s
  {
    if s != [] {
      var rest := Split(s[1..], c);
      SplitJoinRoundTrip(s[1..], c);
      if s[0] == c {
        assert Split(s, c) == [[]] + rest;
      } else if |rest| > 1 {
        var parts := Split(s, c);
        assert parts[1..] == rest[1..];
        calc {
          Join(parts, [c]);
          ([s[0]] + rest[0]) + [c] + Join(rest[1..], [c]);
          [s[0]] + (rest[0] + [c] + Join(rest[1..], [c]));
          [s[0]] + Join(rest, [c]);
        }
        assert [s[0]] + s[1..] == s;
      } else {
        assert [s[0]] + s[1..] == s;
      }
    }
  }

  /** `s.split(c).join('')` removes every `c` from `s` and keeps the rest in order. */
  lemma {:induction false} SplitJoinEmptyRemoves(s: string, c: char)
    ensures Join(Split(s, c), "") == RemoveAll(s, c)
  {
    if s != [] {
      var rest := Split(s[1..], c);
      SplitJoinEmptyRemoves(s[1..], c);
      if s[0] == c {
        assert Split(s, c) == [[]] + rest;
      } else if |rest| > 1 {
        var parts := Split(s, c);
        assert parts[1..] == rest[1..];
        calc {
          Join(parts, "");
          ([s[0]] + rest[0]) + "" + Join(rest[1..], "");
          [s[0]] + (rest[0] + "" + Join(rest[1..], ""));
          [s[0]] + Join(rest, "");
        }
      }
    }
  }

  /** Every character of every piece of a split occurs in the text and is not the separator. */
  lemma {:induction false} SplitPiecesFromText(s: string, c: char, i: nat, x: char)
    requires i < |Split(s, c)| && x in Split(s, c)[i]
    ensures x in s && x != c
  {
    if s != [] {
      var rest := Split(s[1..], c);
      if s[0] == c {
        assert Split(s, c) == [[]] + rest;
        SplitPiecesFromText(s[1..], c, i - 1, x);
      } else if i == 0 {
        if x != s[0] {
          SplitPiecesFromText(s[1..], c, 0, x);
        }
      } else {
        SplitPiecesFromText(s[1..], c, i, x);
      }
    }
  }

  /** `xs.indexOf(x)`: the first position holding `x`, or -1 when there is none. */
  function IndexOf<T(==)>(xs: seq<T>, x: T): (r: int)
    ensures -1 <= r < |xs|
    ensures r == -1 <==> x !in xs
    ensures 0 <= r ==> xs[r] == x && x !in xs[..r]
  {
    if |xs| == 0 then -1
    else if xs[0] == x then 0
    else
      var k := IndexOf(xs[1..], x);
      if k == -1 then -1
      else
        assert xs[..k + 1] == [xs[0]] + xs[1..][..k];
        k + 1
  }

  /** A position holding the first occurrence of `x` is what `indexOf` finds. */
  lemma IndexOfFirst<T>(xs: seq<T>, x: T, k: nat)
    requires k < |xs| && xs[k] == x && x !in xs[..k]
    ensures IndexOf(xs, x) == k
  {
  }

  /** Appending an element leaves the first position of every earlier element alone,
      and an element that was absent is found at the old end. */
  lemma IndexOfAppend<T>(xs: seq<T>, y: T, x: T)
    ensures x in xs ==> IndexOf(xs + [y], x) == IndexOf(xs, x)
    ensures x !in xs && x == y ==> IndexOf(xs + [y], x) == |xs|
  {
    if x in xs {
      var k := IndexOf(xs, x);
      assert (xs + [y])[..k] == xs[..k];
      IndexOfFirst(xs + [y], x, k);
    } else if x == y {
      assert (xs + [y])[..|xs|] == xs;
      IndexOfFirst(xs + [y], x, |xs|);
    }
  }

  /** `Math.max(a, b)` on integers. */
  function Max(a: int, b: int): (m: int)
    ensures m >= a && m >= b && (m == a || m == b)
  {
    if a >= b then a else b
  }

  /** `xs.reduce(Math.max)` with no initial value: a left fold, defined only on a
      non-empty array (on an empty one JavaScript throws). */
  function ReduceMax(xs: seq<int>): (m: int)
    requires |xs| > 0
    ensures forall i :: 0 <= i < |xs| ==> xs[i] <= m
    ensures exists i :: 0 <= i < |xs| && xs[i] == m
    decreases |xs|
  {
    if |xs| == 1 then xs[0]
    else
      var init := xs[..|xs| - 1];
      var m := Max(ReduceMax(init), xs[|xs| - 1]);
      assert forall i :: 0 <= i < |xs| - 1 ==> xs[i] == init[i];
      m
  }
}
