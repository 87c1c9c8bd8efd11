/** The pieces of Python's `str.split(sep)` that the model needs, for an
    explicit non-empty separator: `s.split(sep)[n]` and `s.split(sep)[-1]`.
    Python cuts at the leftmost occurrence of `sep` and goes on after it, so
    occurrences are taken left to right without overlap; the functions below
    follow that scan. The e-mail domain rule uses `split('@')[1]` and the
    bearer-token extraction uses `split('Bearer ')[-1]`. */
module Strings {

  datatype Option<+T> = None | Some(value: T)

  /** Python's `s.startswith(p)`, compared character by character. */
  predicate StartsWith(s: string, p: string)
    decreases |p|
  {
    |p| == 0 || (|s| > 0 && s[0] == p[0] && StartsWith(s[1..], p[1..]))
  }

  /** `sep` occurs in `s` starting at index `i`. */
  predicate OccursAt(s: string, sep: string, i: nat) {
    i <= |s| && StartsWith(s[i..], sep)
  }

  /** Python's `sep in s`: `sep` starts here or somewhere further on. */
  predicate Contains(s: string, sep: string)
    decreases |s|
  {
    StartsWith(s, sep) || (|s| > 0 && Contains(s[1..], sep))
  }

  /** Dropping `off` characters and then `k` more drops `off + k`. */
  lemma DropDrop(s: string, off: nat, k: nat)
    requires off + k <= |s|
    ensures s[off..][k..] == s[off + k..]
  {
  }

  /** A string starts with `p` only if it is at least as long. */
  lemma {:induction false} StartsWithLength(s: string, p: string)
    requires StartsWith(s, p)
    ensures |p| <= |s|
    decreases |p|
  {
    if |p| > 0 { StartsWithLength(s[1..], p[1..]); }
  }

  /** StartsWith is Python's prefix test: the first `|p|` characters are `p`. */
  lemma {:induction false} StartsWithIsPrefix(s: string, p: string)
    ensures StartsWith(s, p) <==> |p| <= |s| && s[..|p|] == p
    decreases |p|
  {
    if |p| > 0 && |s| > 0 {
      StartsWithIsPrefix(s[1..], p[1..]);
      if |p| <= |s| {
        assert s[..|p|] == [s[0]] + s[1..][..|p| - 1];
        assert p == [p[0]] + p[1..];
      }
    }
  }

  /** With a one-character separator, Contains is Python's `c in s`. */
  lemma {:induction false} ContainsChar(s: string, c: char)
    ensures Contains(s, [c]) <==> c in s
    decreases |s|
  {
    assert [c][1..] == [];
    if |s| > 0 {
      ContainsChar(s[1..], c);
      assert StartsWith(s[1..], [c][1..]);
      assert StartsWith(s, [c]) <==> s[0] == c;
      assert c in s <==> s[0] == c || c in s[1..];
    }
  }

  /** A string that lacks one of the separator's characters cannot hold
      the separator. */
  lemma {:induction false} MissingCharNoContains(s: string, sep: string, c: char)
    requires c in sep && c !in s
    ensures !Contains(s, sep)
    decreases |s|
  {
    StartsWithIsPrefix(s, sep);
    if |sep| <= |s| {
      assert forall x :: x in s[..|sep|] ==> x in s;
    }
    if |s| > 0 {
      assert forall x :: x in s[1..] ==> x in s;
      MissingCharNoContains(s[1..], sep, c);
    }
  }

  /** Shifting by one character: no occurrence before `k` in `s[1..]` and
      none at the start means none before `k + 1` in `s`. */
  lemma NoEarlierOccurrence(s: string, sep: string, k: nat)
    requires k < |s| && !StartsWith(s, sep)
    requires forall j | 0 <= j < k :: !OccursAt(s[1..], sep, j)
    ensures forall j | 0 <= j < k + 1 :: !OccursAt(s, sep, j)
  {
    forall j | 0 < j < k + 1
      ensures !OccursAt(s, sep, j)
    {
      DropDrop(s, 1, j - 1);
      assert !OccursAt(s[1..], sep, j - 1);
    }
  }

  /** A string that does not hold `sep` has it at no position. */
  lemma {:induction false} NoOccurrenceWithout(s: string, sep: string)
    requires !Contains(s, sep)
    ensures forall j | 0 <= j <= |s| :: !OccursAt(s, sep, j)
    decreases |s|
  {
    if |s| > 0 {
      NoOccurrenceWithout(s[1..], sep);
      forall j | 0 < j <= |s|
        ensures !OccursAt(s, sep, j)
      {
        DropDrop(s, 1, j - 1);
        assert !OccursAt(s[1..], sep, j - 1);
      }
    }
  }

  /** Python's `s.find(sep)`, with `None` for -1: the leftmost occurrence. */
  function FindFirst(s: string, sep: string): (r: Option<nat>)
    ensures r.None? <==> !Contains(s, sep)
    ensures r.Some? ==> OccursAt(s, sep, r.value)
    ensures r.Some? ==> forall j | 0 <= j < r.value :: !OccursAt(s, sep, j)
    decreases |s|
  {
    if StartsWith(s, sep) then Some(0)
    else if |s| == 0 then None
    else
      match FindFirst(s[1..], sep)
      case None => None
      case Some(k) =>
        DropDrop(s, 1, k);
        NoEarlierOccurrence(s, sep, k);
        Some(k + 1)
  }

  /** An occurrence found by FindFirst lies wholly inside `s`. */
  lemma FindFirstInside(s: string, sep: string)
    requires FindFirst(s, sep).Some?
    ensures FindFirst(s, sep).value + |sep| <= |s|
  {
    var i := FindFirst(s, sep).value;
    StartsWithLength(s[i..], sep);
  }

  /** `p` followed by anything starts with `p`. */
  lemma {:induction false} StartsWithAppend(p: string, b: string)
    ensures StartsWith(p + b, p)
    decreases |p|
  {
    if |p| > 0 {
      assert (p + b)[1..] == p[1..] + b;
      StartsWithAppend(p[1..], b);
    }
  }

  /** The text before the first `sep`, or all of `s` when there is none:
      Python's `s.split(sep)[0]`. */
  function Before(s: string, sep: string): (r: string)
    ensures |r| <= |s| && r == s[..|r|]
    ensures !Contains(s, sep) ==> r == s
    ensures Contains(s, sep) ==> OccursAt(s, sep, |r|)
    ensures forall j | 0 <= j < |r| :: !OccursAt(s, sep, j)
  {
    match FindFirst(s, sep)
    case None =>
      NoOccurrenceWithout(s, sep);
      s
    case Some(i) => s[..i]
  }

  /** The text after the first `sep`; what `split` goes on to cut. */
  function After(s: string, sep: string): (r: string)
    requires sep != "" && Contains(s, sep)
    ensures |r| < |s| && r == s[|s| - |r|..]
  {
    FindFirstInside(s, sep);
    s[FindFirst(s, sep).value + |sep|..]
  }

  /** Python's `s.endswith(u)`. */
  predicate EndsWith(s: string, u: string) {
    |u| <= |s| && s[|s| - |u|..] == u
  }

  /** What follows the first `sep` is the rest of `s` after that `sep`. */
  lemma AfterFollowsSeparator(s: string, sep: string)
    requires sep != "" && Contains(s, sep)
    ensures EndsWith(s, sep + After(s, sep))
  {
    var i := FindFirst(s, sep).value;
    FindFirstInside(s, sep);
    StartsWithIsPrefix(s[i..], sep);
    DropDrop(s, i, |sep|);
    assert s[i..] == s[i..][..|sep|] + s[i..][|sep|..];
  }

  /** A suffix of a suffix is a suffix. */
  lemma SuffixOfSuffix(s: string, t: string, u: string)
    requires EndsWith(s, t) && EndsWith(t, u)
    ensures EndsWith(s, u)
  {
    DropDrop(s, |s| - |t|, |t| - |u|);
  }

  /** The step of LastPiece: the last piece of what follows the first
      `sep` is also where `s` ends, right after a `sep`. */
  lemma LastPieceStep(s: string, sep: string, t: string, r: string)
    requires sep != "" && Contains(s, sep) && t == After(s, sep)
    requires EndsWith(t, r)
    requires Contains(t, sep) ==> EndsWith(t, sep + r)
    requires !Contains(t, sep) ==> r == t
    ensures EndsWith(s, r) && EndsWith(s, sep + r)
  {
    AfterFollowsSeparator(s, sep);
    assert EndsWith(s, t);
    SuffixOfSuffix(s, t, r);
    if Contains(t, sep) {
      SuffixOfSuffix(s, t, sep + r);
    }
  }

  /** Python's `s.split(sep)[n]`, with `None` where Python raises IndexError:
      the first piece is the text before the first `sep`, and piece `n + 1`
      is piece `n` of what follows that `sep`. */
  function Piece(s: string, sep: string, n: nat): (r: Option<string>)
    requires sep != ""
    ensures r.Some? ==> |r.value| <= |s|
    ensures n > 0 && !Contains(s, sep) ==> r.None?
    ensures n == 0 ==> r == Some(Before(s, sep))
    ensures n > 0 && Contains(s, sep) ==> r == Piece(After(s, sep), sep, n - 1)
    decreases n
  {
    if n == 0 then Some(Before(s, sep))
    else if !Contains(s, sep) then None
    else Piece(After(s, sep), sep, n - 1)
  }

  /** Python's `s.split(sep)[-1]`: what follows the last cut, so `s` ends
      with `sep` and the piece whenever `sep` occurs. */
  function LastPiece(s: string, sep: string): (r: string)
    requires sep != ""
    ensures EndsWith(s, r)
    ensures Contains(s, sep) ==> EndsWith(s, sep + r)
    decreases |s|
  {
    if Contains(s, sep) then
      var t := After(s, sep);
      var r := LastPiece(t, sep);
      LastPieceStep(s, sep, t, r);
      r
    else s
  }

  /** The last piece never holds the separator. */
  lemma {:induction false} LastPieceHasNoSeparator(s: string, sep: string)
    requires sep != ""
    ensures !Contains(LastPiece(s, sep), sep)
    decreases |s|
  {
    if Contains(s, sep) {
      LastPieceHasNoSeparator(After(s, sep), sep);
    }
  }

  /** A string that starts with `sep` is cut right after that `sep`. */
  lemma AfterLeadingSeparator(sep: string, t: string)
    requires sep != ""
    ensures Contains(sep + t, sep) && After(sep + t, sep) == t
  {
    StartsWithAppend(sep, t);
  }

  /** A one-character separator that `a` does not hold is first found
      right after `a`. */
  lemma {:induction false} FindAfterPrefix(a: string, sep: string, b: string)
    requires |sep| == 1 && !Contains(a, sep)
    ensures FindFirst(a + sep + b, sep) == Some(|a|)
    decreases |a|
  {
    var s := a + sep + b;
    if |a| == 0 {
      assert s == sep + b;
      StartsWithAppend(sep, b);
    } else {
      assert StartsWith(a[1..], sep[1..]);
      assert a[0] != sep[0];
      assert s[0] == a[0];
      assert s[1..] == a[1..] + sep + b;
      FindAfterPrefix(a[1..], sep, b);
    }
  }

  /** With a one-character separator: a text free of it is a single piece,
      and a text free of it followed by the separator is the first piece,
      with the later pieces taken from what follows. */
  lemma PiecesOfJoin(a: string, sep: string, b: string, n: nat)
    requires |sep| == 1 && !Contains(a, sep)
    ensures Piece(a, sep, 0) == Some(a)
    ensures n > 0 ==> Piece(a, sep, n).None?
    ensures Piece(a + sep + b, sep, 0) == Some(a)
    ensures Piece(a + sep + b, sep, n + 1) == Piece(b, sep, n)
  {
    var s := a + sep + b;
    FindAfterPrefix(a, sep, b);
    assert s[..|a|] == a;
    assert s[|a| + |sep|..] == b;
  }

  /** A separator followed by a text free of it splits off exactly that text. */
  lemma LastPieceAfterLeadingSeparator(sep: string, t: string)
    requires sep != "" && !Contains(t, sep)
    ensures LastPiece(sep + t, sep) == t
  {
    AfterLeadingSeparator(sep, t);
    assert LastPiece(sep + t, sep) == LastPiece(t, sep);
  }
}
