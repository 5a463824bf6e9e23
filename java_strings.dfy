/**
 * Java's `String.split` for a separator of one literal character and the
 * default limit 0. Both separators the profile engine splits on (`"\\?"` and
 * `"_"`) take this path: the string is cut at every occurrence of the
 * separator, and then the empty pieces at the END are dropped. A string
 * without the separator splits into itself, even when it is empty.
 */
module JavaStrings {

  /** Position of the first occurrence of `c` in `s`. */
  function FirstIndex(s: string, c: char): (i: nat)
    requires c in s
    ensures i < |s| && s[i] == c && c !in s[..i]
  {
    if s[0] == c then 0
    else
      assert c in s[1..] by { var k :| 0 <= k < |s| && s[k] == c; assert s[1..][k - 1] == c; }
      var j := FirstIndex(s[1..], c);
      assert s[..j + 1] == [s[0]] + s[1..][..j];
      j + 1
  }

  /** The text before the first `c`, or all of `s` when `c` does not occur. */
  function PrefixBefore(s: string, c: char): (p: string)
    ensures p <= s && c !in p
    ensures |p| < |s| ==> s[|p|] == c
    ensures |p| == |s| ==> c !in s
  {
    if c in s then s[..FirstIndex(s, c)] else s
  }

  /** Every piece of `s` between occurrences of `sep`, empty ones included. */
  function Pieces(s: string, sep: char): seq<string>
    decreases |s|
  {
    if sep !in s then [s]
    else
      var i := FirstIndex(s, sep);
      [s[..i]] + Pieces(s[i + 1..], sep)
  }

  /** There is at least one piece, the first is the text before the first
    * separator, there are two or more exactly when the separator occurs, and
    * no piece holds the separator. */
  lemma {:induction false} PiecesShape(s: string, sep: char)
    ensures |Pieces(s, sep)| >= 1 && Pieces(s, sep)[0] == PrefixBefore(s, sep)
    ensures |Pieces(s, sep)| >= 2 <==> sep in s
    ensures forall k | 0 <= k < |Pieces(s, sep)| :: sep !in Pieces(s, sep)[k]
    decreases |s|
  {
    if sep in s {
      var i := FirstIndex(s, sep);
      PiecesShape(s[i + 1..], sep);
      assert Pieces(s, sep) == [s[..i]] + Pieces(s[i + 1..], sep);
    }
  }

  /** The pieces put back together with `sep` between neighbours. */
  function Join(pieces: seq<string>, sep: char): (s: string)
    requires |pieces| >= 1
    decreases |pieces|
  {
    if |pieces| == 1 then pieces[0]
    else pieces[0] + [sep] + Join(pieces[1..], sep)
  }

  /** `xs` without its trailing run of empty strings. */
  function DropTrailingEmpty(xs: seq<string>): (r: seq<string>)
    ensures r <= xs
    ensures r != [] ==> r[|r| - 1] != ""
    ensures forall j | |r| <= j < |xs| :: xs[j] == ""
    decreases |xs|
  {
    if xs == [] then []
    else if xs[|xs| - 1] == "" then DropTrailingEmpty(xs[..|xs| - 1])
    else xs
  }

  /**
   * `s.split(sep)` with the default limit: the pieces of the cut at every
   * separator up to the last non-empty one, or `s` itself when `sep` does not occur.
   */
  function Split(s: string, sep: char): (r: seq<string>)
    ensures sep !in s ==> r == [s]
    ensures r <= Pieces(s, sep)
    ensures sep in s && r != [] ==> r[|r| - 1] != ""
    ensures forall j | |r| <= j < |Pieces(s, sep)| :: Pieces(s, sep)[j] == ""
  {
    if sep !in s then [s] else DropTrailingEmpty(Pieces(s, sep))
  }

  /** Cutting at the first separator: the first piece, then the pieces of the rest. */
  lemma FirstIndexAfter(a: string, c: char, b: string)
    requires c !in a
    ensures c in a + [c] + b && FirstIndex(a + [c] + b, c) == |a|
  {
    var s := a + [c] + b;
    assert s[|a|] == c;
  }

  /** The text before the first `c` of `a + [c] + b` is `a`, when `a` has no `c`. */
  lemma PrefixBeforeSeparator(a: string, c: char, b: string)
    requires c !in a
    ensures PrefixBefore(a + [c] + b, c) == a
  {
    FirstIndexAfter(a, c, b);
    assert (a + [c] + b)[..|a|] == a;
  }

  /** Cutting `a + [sep] + b` when `a` has no separator: `a`, then the pieces of `b`. */
  lemma PiecesAfter(a: string, sep: char, b: string)
    requires sep !in a
    ensures Pieces(a + [sep] + b, sep) == [a] + Pieces(b, sep)
  {
    var s := a + [sep] + b;
    FirstIndexAfter(a, sep, b);
    assert s[..|a|] == a && s[|a| + 1..] == b;
  }

  /** Joining a piece in front of others puts one separator between them. */
  lemma JoinCons(a: string, ps: seq<string>, sep: char)
    requires |ps| >= 1
    ensures Join([a] + ps, sep) == a + [sep] + Join(ps, sep)
  {
    assert ([a] + ps)[0] == a && ([a] + ps)[1..] == ps;
  }

  /** Joining the pieces gives the string back. */
  lemma {:induction false} JoinPieces(s: string, sep: char)
    ensures Join(Pieces(s, sep), sep) == s
    decreases |s|
  {
    if sep in s {
      var i := FirstIndex(s, sep);
      var head, tail := s[..i], s[i + 1..];
      assert s == head + [sep] + tail;
      PiecesAfter(head, sep, tail);
      PiecesShape(tail, sep);
      JoinCons(head, Pieces(tail, sep), sep);
      JoinPieces(tail, sep);
    }
  }

  /** Cutting a join gives the pieces back, when no piece holds the separator. */
  lemma {:induction false} PiecesJoin(pieces: seq<string>, sep: char)
    requires |pieces| >= 1
    requires forall k | 0 <= k < |pieces| :: sep !in pieces[k]
    ensures Pieces(Join(pieces, sep), sep) == pieces
    decreases |pieces|
  {
    if |pieces| > 1 {
      var head, tail := pieces[0], pieces[1..];
      assert pieces == [head] + tail;
      JoinCons(head, tail, sep);
      PiecesAfter(head, sep, Join(tail, sep));
      PiecesJoin(tail, sep);
    }
  }

  /** The pieces are all empty exactly when the string is separators only. */
  lemma {:induction false} PiecesAllEmpty(s: string, sep: char)
    ensures (forall k | 0 <= k < |Pieces(s, sep)| :: Pieces(s, sep)[k] == "")
        <==> (forall k | 0 <= k < |s| :: s[k] == sep)
    decreases |s|
  {
    var ps := Pieces(s, sep);
    PiecesShape(s, sep);
    if sep in s {
      var i := FirstIndex(s, sep);
      var tail := s[i + 1..];
      PiecesAllEmpty(tail, sep);
      assert ps == [s[..i]] + Pieces(tail, sep);
      if forall k | 0 <= k < |s| :: s[k] == sep {
        assert i == 0;
        assert forall k | 0 <= k < |tail| :: tail[k] == s[k + 1];
      }
      if forall k | 0 <= k < |ps| :: ps[k] == "" {
        assert ps[0] == s[..i] == "";
        forall k | 0 <= k < |s| ensures s[k] == sep {
          if k > 0 {
            assert forall j | 0 <= j < |Pieces(tail, sep)| :: Pieces(tail, sep)[j] == ps[j + 1];
            assert tail[k - 1] == s[k];
          }
        }
      }
    } else {
      if s != [] { assert s[0] in s; }
    }
  }

  /** The first piece of a split is the text before the first separator. */
  lemma SplitFirst(s: string, sep: char)
    requires Split(s, sep) != []
    ensures Split(s, sep)[0] == PrefixBefore(s, sep)
  {
  }

  /** A split is empty exactly when the string is non-empty and separators only. */
  lemma SplitEmpty(s: string, sep: char)
    ensures Split(s, sep) == [] <==> (s != [] && forall k | 0 <= k < |s| :: s[k] == sep)
  {
    PiecesAllEmpty(s, sep);
    if s != [] && forall k | 0 <= k < |s| :: s[k] == sep {
      assert s[0] in s;
    }
  }
}
