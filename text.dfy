/**
 * Text as the repository handles it: a Rust `str`/`String` is a sequence of
 * UTF-8 bytes.  Namespace fields, `/`-paths, URLs and track names are all
 * byte sequences in this model.
 */
module Text {

  newtype byte = x: int | 0 <= x < 256

  type Text = seq<byte>

  /** The path separator `/` (0x2F). */
  const Slash: byte := 0x2F

  /**
   * `str::split('/')`: the pieces between separators, including empty ones.
   * A text with n separators has n + 1 pieces; the empty text has one, empty, piece.
   * Defined from the end so that a left-to-right scan extends it one byte at a time.
   */
  function Split(s: Text): (parts: seq<Text>)
    ensures |parts| >= 1
    decreases |s|
  {
    if |s| == 0 then [[]]
    else
      var init := Split(s[..|s| - 1]);
      var c := s[|s| - 1];
      if c == Slash then init + [[]]
      else init[..|init| - 1] + [init[|init| - 1] + [c]]
  }

  /** Appending one byte extends the last piece, or starts a new one at a separator. */
  lemma SplitSnoc(s: Text, c: byte)
    ensures Split(s + [c]) == if c == Slash then Split(s) + [[]]
                              else Split(s)[..|Split(s)| - 1] + [Split(s)[|Split(s)| - 1] + [c]]
  {
    assert (s + [c])[..|s + [c]| - 1] == s;
  }

  /** No piece of a split contains the separator. */
  lemma {:induction false} SplitPiecesFree(s: Text)
    ensures forall j :: 0 <= j < |Split(s)| ==> Slash !in Split(s)[j]
    decreases |s|
  {
    if |s| > 0 {
      var init := Split(s[..|s| - 1]);
      SplitPiecesFree(s[..|s| - 1]);
      var c := s[|s| - 1];
      if c != Slash {
        assert Slash !in init[|init| - 1] + [c];
      }
    }
  }

  /** Extending the last piece of `x + y`, for a non-empty `y`, extends the last piece of `y`. */
  lemma ExtendLastOfConcat(x: seq<Text>, y: seq<Text>, c: byte)
    requires |y| >= 1
    ensures (x + y)[..|x + y| - 1] + [(x + y)[|x + y| - 1] + [c]]
         == x + (y[..|y| - 1] + [y[|y| - 1] + [c]])
  {
    assert (x + y)[..|x + y| - 1] == x + y[..|y| - 1];
  }

  /** Splitting at a separator splits the two sides independently. */
  lemma {:induction false} SplitConcat(a: Text, b: Text)
    ensures Split(a + [Slash] + b) == Split(a) + Split(b)
    decreases |b|
  {
    if |b| == 0 {
      SplitSnoc(a, Slash);
      assert a + [Slash] + b == a + [Slash];
    } else {
      var b' := b[..|b| - 1];
      var c := b[|b| - 1];
      var left := a + [Slash] + b';
      assert b == b' + [c];
      assert a + [Slash] + b == left + [c];
      SplitConcat(a, b');
      SplitSnoc(left, c);
      SplitSnoc(b', c);
      if c != Slash {
        ExtendLastOfConcat(Split(a), Split(b'), c);
      }
    }
  }

  /** A text without a separator is a single piece. */
  lemma {:induction false} SplitNoSeparator(s: Text)
    requires Slash !in s
    ensures Split(s) == [s]
    decreases |s|
  {
    if |s| > 0 {
      var s' := s[..|s| - 1];
      assert Slash !in s' by {
        forall i | 0 <= i < |s'| ensures s'[i] != Slash { assert s'[i] == s[i]; }
      }
      SplitNoSeparator(s');
      assert s' + [s[|s| - 1]] == s;
    }
  }

  /** The number of separators in a text. */
  function CountSeparators(s: Text): nat
  {
    if |s| == 0 then 0 else CountSeparators(s[..|s| - 1]) + (if s[|s| - 1] == Slash then 1 else 0)
  }

  /** `split` yields one piece more than there are separators. */
  lemma {:induction false} SplitLength(s: Text)
    ensures |Split(s)| == CountSeparators(s) + 1
    decreases |s|
  {
    if |s| > 0 {
      SplitLength(s[..|s| - 1]);
    }
  }

  /**
   * `a.iter().zip(b.iter()).all(|(x, y)| x == y)`: the two sequences agree on
   * every position both have.  `zip` stops at the shorter one.
   */
  predicate ZipAgree(a: seq<Text>, b: seq<Text>)
  {
    forall i :: 0 <= i < |a| && i < |b| ==> a[i] == b[i]
  }

  /** `p` is a piece-by-piece prefix of `q`. */
  predicate IsPrefix(p: seq<Text>, q: seq<Text>)
  {
    |p| <= |q| && forall i :: 0 <= i < |p| ==> p[i] == q[i]
  }

  /** Zipped agreement means that one of the two is a prefix of the other. */
  lemma ZipAgreeIsPrefixEitherWay(a: seq<Text>, b: seq<Text>)
    ensures ZipAgree(a, b) <==> IsPrefix(a, b) || IsPrefix(b, a)
  {
  }
}
