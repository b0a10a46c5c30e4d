/**
 * JavaScript's `String.prototype.split` with a one-character separator,
 * and the matching `join`, over `string` (a `seq<char>`).
 */
module Text {

  /** Position of the first `c` in `s`. */
  function IndexOf(s: string, c: char): (i: nat)
    requires c in s
    ensures i < |s| && s[i] == c
    ensures c !in s[..i]
  {
    if s[0] == c then 0 else 1 + IndexOf(s[1..], c)
  }

  /**
   * `s.split(sep)`: the maximal separator-free pieces between separators,
   * in order. An empty string, or one without `sep`, gives one piece.
   */
  function Split(s: string, sep: char): (parts: seq<string>)
    ensures |parts| >= 1
    ensures |parts| == 1 <==> sep !in s
    ensures forall i :: 0 <= i < |parts| ==> sep !in parts[i]
    decreases |s|
  {
    if sep in s then
      var i := IndexOf(s, sep);
      [s[..i]] + Split(s[i + 1..], sep)
    else
      [s]
  }

  /** `parts.join(sep)`. */
  function Join(parts: seq<string>, sep: char): string
    requires |parts| >= 1
  {
    if |parts| == 1 then parts[0] else parts[0] + [sep] + Join(parts[1..], sep)
  }

  /** Splitting loses nothing: joining the pieces gives the string back. */
  lemma {:induction false} JoinSplit(s: string, sep: char)
    ensures Join(Split(s, sep), sep) == s
    decreases |s|
  {
    if sep in s {
      var i := IndexOf(s, sep);
      var head, tail := s[..i], s[i + 1..];
      assert s == head + [sep] + tail;
      JoinSplit(tail, sep);
      var parts := [head] + Split(tail, sep);
      assert parts[1..] == Split(tail, sep);
      assert Join(parts, sep) == head + [sep] + tail;
      SplitCons(head, sep, tail);
    }
  }

  /** Splitting a string that starts with a separator-free piece. */
  lemma SplitCons(a: string, sep: char, b: string)
    requires sep !in a
    ensures Split(a + [sep] + b, sep) == [a] + Split(b, sep)
  {
    var s := a + [sep] + b;
    assert s[|a|] == sep;
    var i := IndexOf(s, sep);
    assert s[..i] == a;
    assert s[i + 1..] == b;
  }

  /** Splitting the join of separator-free pieces gives the pieces back. */
  lemma {:induction false} SplitJoin(parts: seq<string>, sep: char)
    requires |parts| >= 1
    requires forall i :: 0 <= i < |parts| ==> sep !in parts[i]
    ensures Split(Join(parts, sep), sep) == parts
    decreases |parts|
  {
    if |parts| == 1 {
      assert sep !in parts[0];
    } else {
      var tail := parts[1..];
      assert forall i :: 0 <= i < |tail| ==> sep !in tail[i] by {
        forall i | 0 <= i < |tail| ensures sep !in tail[i] {
          assert tail[i] == parts[i + 1];
        }
      }
      var rest := Join(tail, sep);
      assert Join(parts, sep) == parts[0] + [sep] + rest;
      SplitJoin(tail, sep);
      SplitCons(parts[0], sep, rest);
      assert parts == [parts[0]] + tail;
    }
  }

  /** The join of two or more pieces: first piece, separator, second piece, then the rest. */
  lemma JoinShape(parts: seq<string>, sep: char) returns (rest: string)
    requires |parts| >= 2
    ensures rest == [] || rest[0] == sep
    ensures Join(parts, sep) == parts[0] + [sep] + parts[1] + rest
  {
    var tail := parts[1..];
    if |tail| == 1 {
      rest := [];
    } else {
      rest := [sep] + Join(tail[1..], sep);
      assert tail[1..] == parts[2..];
    }
  }

  /** A separator-free prefix that ends at a separator (or at the end) is the first piece. */
  lemma SplitFirst(a: string, sep: char, rest: string)
    requires sep !in a
    requires rest == [] || rest[0] == sep
    ensures Split(a + rest, sep)[0] == a
  {
    if rest == [] {
      assert a + rest == a;
      assert Split(a, sep) == [a];
    } else {
      var b := rest[1..];
      assert rest == [sep] + b;
      assert a + rest == a + [sep] + b;
      SplitCons(a, sep, b);
    }
  }
}
