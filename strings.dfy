/**
 * The JavaScript string operations the hooks rely on: `startsWith` and
 * `split` with a non-empty separator, together with `join`, their partner.
 */
module Strings {

  /** `s.startsWith(p)`. */
  predicate StartsWith(s: string, p: string)
  {
    |p| <= |s| && s[..|p|] == p
  }

  /**
   * `s.split(sep)` for a non-empty separator: scanning from the left, every
   * occurrence of `sep` that does not overlap an earlier one ends a piece.
   * The first piece is the longest prefix of `s` in which no occurrence of
   * `sep` starts, and it is followed either by the end of `s` or by `sep`.
   */
  function Split(s: string, sep: string): (r: seq<string>)
    requires sep != []
    ensures |r| >= 1
    ensures StartsWith(s, r[0])
    ensures forall i :: 0 <= i < |r[0]| ==> !StartsWith(s[i..], sep)
    ensures |r[0]| == |s| || StartsWith(s[|r[0]|..], sep)
    decreases |s|
  {
    if StartsWith(s, sep) then
      [""] + Split(s[|sep|..], sep)
    else if s == [] then
      [""]
    else
      var rest := Split(s[1..], sep);
      FirstPieceExtends(s, sep, rest[0]);
      [[s[0]] + rest[0]] + rest[1..]
  }

  /** The first piece of `s[1..]`, with `s[0]` put back, is the first piece of `s`. */
  lemma FirstPieceExtends(s: string, sep: string, p: string)
    requires sep != [] && s != [] && !StartsWith(s, sep)
    requires StartsWith(s[1..], p)
    requires forall i :: 0 <= i < |p| ==> !StartsWith(s[1..][i..], sep)
    requires |p| == |s| - 1 || StartsWith(s[1..][|p|..], sep)
    ensures StartsWith(s, [s[0]] + p)
    ensures forall i :: 0 <= i < |p| + 1 ==> !StartsWith(s[i..], sep)
    ensures |p| + 1 == |s| || StartsWith(s[|p| + 1..], sep)
  {
    assert s[..|p| + 1] == [s[0]] + s[1..][..|p|];
    forall i | 0 <= i < |p| + 1 ensures !StartsWith(s[i..], sep) {
      if i == 0 {
        assert s[0..] == s;
      } else {
        assert s[i..] == s[1..][i - 1..];
      }
    }
    assert s[|p| + 1..] == s[1..][|p|..];
  }

  /** `pieces.join(sep)`. */
  function Join(pieces: seq<string>, sep: string): string
    requires |pieces| >= 1
    decreases |pieces|
  {
    if |pieces| == 1 then pieces[0] else pieces[0] + sep + Join(pieces[1..], sep)
  }

  lemma JoinHead(c: string, pieces: seq<string>, sep: string)
    requires |pieces| >= 1
    ensures Join([c + pieces[0]] + pieces[1..], sep) == c + Join(pieces, sep)
  {
  }

  /** Splitting loses nothing: joining the pieces back gives the original string. */
  lemma {:induction false} JoinSplit(s: string, sep: string)
    requires sep != []
    ensures Join(Split(s, sep), sep) == s
    decreases |s|
  {
    if StartsWith(s, sep) {
      JoinSplit(s[|sep|..], sep);
      assert s == sep + s[|sep|..];
    } else if s != [] {
      var rest := Split(s[1..], sep);
      JoinSplit(s[1..], sep);
      JoinHead([s[0]], rest, sep);
      assert s == [s[0]] + s[1..];
    }
  }

  /** A string in which no occurrence of `sep` starts is a single piece. */
  lemma {:induction false} SplitWithoutSeparator(a: string, sep: string)
    requires sep != []
    requires forall i :: 0 <= i < |a| ==> !StartsWith(a[i..], sep)
    ensures Split(a, sep) == [a]
    decreases |a|
  {
    if a != [] {
      assert a[0..] == a;
      forall i | 0 <= i < |a| - 1 ensures !StartsWith(a[1..][i..], sep) {
        assert a[1..][i..] == a[i + 1..];
      }
      SplitWithoutSeparator(a[1..], sep);
      assert [a[0]] + a[1..] == a;
    }
  }

  /**
   * When no occurrence of `sep` starts inside `a`, the separator written
   * after `a` ends the first piece, and `a` is that piece.
   */
  lemma {:induction false} SplitAfterPiece(a: string, sep: string, b: string)
    requires sep != []
    requires forall i :: 0 <= i < |a| ==> !StartsWith((a + sep + b)[i..], sep)
    ensures Split(a + sep + b, sep) == [a] + Split(b, sep)
    decreases |a|
  {
    var s := a + sep + b;
    if a == [] {
      assert s == sep + b;
      assert StartsWith(s, sep);
      assert s[|sep|..] == b;
    } else {
      assert s[0..] == s;
      assert !StartsWith(s, sep);
      assert s[1..] == a[1..] + sep + b;
      forall i | 0 <= i < |a| - 1 ensures !StartsWith((a[1..] + sep + b)[i..], sep) {
        assert (a[1..] + sep + b)[i..] == s[i + 1..];
      }
      SplitAfterPiece(a[1..], sep, b);
      assert [a[0]] + a[1..] == a;
    }
  }

  /** A string in which `sep` starts somewhere splits into at least two pieces. */
  lemma {:induction false} SplitAtOccurrence(s: string, sep: string, k: nat)
    requires sep != [] && k <= |s|
    requires StartsWith(s[k..], sep)
    ensures |Split(s, sep)| >= 2
    decreases k
  {
    if !StartsWith(s, sep) {
      assert k > 0 by { assert s[0..] == s; }
      assert s[1..][k - 1..] == s[k..];
      SplitAtOccurrence(s[1..], sep, k - 1);
    }
  }
}
