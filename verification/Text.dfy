/** Python's `str.split(sep)` for a one-character separator, its inverse
    `sep.join`, and `filter(None, pieces)`, which drops the empty texts. */
module Text {

  /** `s.split(c)`: the texts between the occurrences of `c`, always at
      least one, none containing `c`. */
  function Split(s: string, c: char): (r: seq<string>)
    ensures |r| >= 1
    ensures forall i :: 0 <= i < |r| ==> c !in r[i]
    decreases |s|
  {
    if |s| == 0 then [""]
    else
      var rest := Split(s[1..], c);
      if s[0] == c then [""] + rest
      else
        assert forall i :: 1 <= i < |rest| ==> ([[s[0]] + rest[0]] + rest[1..])[i] == rest[i];
        [[s[0]] + rest[0]] + rest[1..]
  }

  /** `c.join(pieces)`. */
  function Join(pieces: seq<string>, c: char): string
    requires |pieces| >= 1
  {
    if |pieces| == 1 then pieces[0] else pieces[0] + [c] + Join(pieces[1..], c)
  }

  /** Joining the pieces restores the text. */
  lemma {:induction false} JoinSplit(s: string, c: char)
    ensures Join(Split(s, c), c) == s
    decreases |s|
  {
    if |s| > 0 {
      var rest := Split(s[1..], c);
      JoinSplit(s[1..], c);
      if s[0] == c {
        assert Split(s, c)[1..] == rest;
        assert s == [c] + s[1..];
      } else {
        var r := Split(s, c);
        assert r[1..] == rest[1..];
        if |rest| == 1 {
          assert s == [s[0]] + s[1..];
        } else {
          assert Join(rest, c) == rest[0] + [c] + Join(rest[1..], c);
          assert s == [s[0]] + s[1..];
        }
      }
    }
  }

  /** A text without the separator is one piece. */
  lemma {:induction false} SplitWithout(x: string, c: char)
    requires c !in x
    ensures Split(x, c) == [x]
    decreases |x|
  {
    if |x| > 0 {
      assert x[0] in x;
      assert forall k :: 0 <= k < |x[1..]| ==> x[1..][k] == x[k + 1];
      SplitWithout(x[1..], c);
      assert [x[0]] + x[1..] == x;
    }
  }

  /** A separator after a separator-free text starts a new piece. */
  lemma {:induction false} SplitAfter(x: string, c: char, y: string)
    requires c !in x
    ensures Split(x + [c] + y, c) == [x] + Split(y, c)
    decreases |x|
  {
    var s := x + [c] + y;
    if |x| == 0 {
      assert s == [c] + y;
      assert s[1..] == y;
    } else {
      assert x[0] in x;
      assert forall k :: 0 <= k < |x[1..]| ==> x[1..][k] == x[k + 1];
      assert s[1..] == x[1..] + [c] + y;
      SplitAfter(x[1..], c, y);
      assert [x[0]] + x[1..] == x;
    }
  }

  /** Splitting at a separator between two texts gives the pieces of the
      first followed by the pieces of the second. */
  lemma {:induction false} SplitConcat(x: string, c: char, y: string)
    ensures Split(x + [c] + y, c) == Split(x, c) + Split(y, c)
    decreases |x|
  {
    var s := x + [c] + y;
    if |x| == 0 {
      assert s == [c] + y;
      assert s[1..] == y;
    } else {
      assert s[0] == x[0];
      assert s[1..] == x[1..] + [c] + y;
      SplitConcat(x[1..], c, y);
      assert x[1..] == x[1..];
    }
  }

  /** Splitting a join of separator-free pieces gives the pieces back. */
  lemma {:induction false} SplitJoin(pieces: seq<string>, c: char)
    requires |pieces| >= 1
    requires forall i :: 0 <= i < |pieces| ==> c !in pieces[i]
    ensures Split(Join(pieces, c), c) == pieces
  {
    if |pieces| == 1 {
      SplitWithout(pieces[0], c);
    } else {
      assert forall i :: 0 <= i < |pieces[1..]| ==> c !in pieces[1..][i] by {
        forall i | 0 <= i < |pieces[1..]| ensures c !in pieces[1..][i] {
          assert pieces[1..][i] == pieces[i + 1];
        }
      }
      SplitJoin(pieces[1..], c);
      SplitAfter(pieces[0], c, Join(pieces[1..], c));
      assert [pieces[0]] + pieces[1..] == pieces;
    }
  }

  /** `filter(None, pieces)`: the non-empty texts, in their order. */
  function NonEmpty(pieces: seq<string>): (r: seq<string>)
    ensures |r| <= |pieces|
    ensures forall i :: 0 <= i < |r| ==> |r[i]| > 0
    ensures forall x :: x in r <==> x in pieces && |x| > 0
  {
    if |pieces| == 0 then []
    else
      var rest := NonEmpty(pieces[1..]);
      assert forall x :: x in pieces <==> x == pieces[0] || x in pieces[1..];
      if |pieces[0]| == 0 then rest else [pieces[0]] + rest
  }

  /** Each non-empty text survives as often as it occurs, and no empty one
      does: the length of the result is the number of non-empty pieces. */
  lemma {:induction false} NonEmptyMultiplicity(pieces: seq<string>, x: string)
    ensures multiset(NonEmpty(pieces))[x] == if |x| > 0 then multiset(pieces)[x] else 0
  {
    if |pieces| > 0 {
      assert pieces == [pieces[0]] + pieces[1..];
      NonEmptyMultiplicity(pieces[1..], x);
    }
  }

  /** The number of survivors is the number of pieces less the empty ones. */
  lemma {:induction false} NonEmptyLength(pieces: seq<string>)
    ensures |NonEmpty(pieces)| == |pieces| - multiset(pieces)[""]
  {
    if |pieces| > 0 {
      assert pieces == [pieces[0]] + pieces[1..];
      NonEmptyLength(pieces[1..]);
    }
  }

  /** The filter keeps the order: it works piece by piece, so a stretch of
      pieces followed by another gives the survivors of the first followed
      by those of the second. */
  lemma {:induction false} NonEmptyAppend(a: seq<string>, b: seq<string>)
    ensures NonEmpty(a + b) == NonEmpty(a) + NonEmpty(b)
  {
    if |a| == 0 {
      assert a + b == b;
    } else {
      assert (a + b)[0] == a[0] && (a + b)[1..] == a[1..] + b;
      NonEmptyAppend(a[1..], b);
    }
  }
}
