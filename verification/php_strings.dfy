/**
  The PHP string and array builtins the save pipeline applies to the
  keywords input: `explode`, `trim` and `array_slice($a, 0, n)`, with
  `implode` as the inverse of `explode`.
 */
module PhpStrings {

  /** The characters PHP's `trim` strips by default: space, tab, LF, CR, NUL, VT. */
  predicate IsTrimChar(c: char) {
    c == ' ' || c == '\t' || c == '\n' || c == '\r' || c == '\0' || c == '\U{000B}'
  }

  /** The number of occurrences of `c` in `s`. */
  function Occurrences(s: string, c: char): nat {
    if |s| == 0 then 0
    else (if s[0] == c then 1 else 0) + Occurrences(s[1..], c)
  }

  /**
    `explode($sep, $s)`: the pieces of `s` between occurrences of `sep`.
    There is always one more piece than separators, so `explode` of "" is [""].
   */
  function Explode(s: string, sep: char): (pieces: seq<string>)
    ensures |pieces| == Occurrences(s, sep) + 1
    ensures forall i :: 0 <= i < |pieces| ==> sep !in pieces[i]
    decreases |s|
  {
    if |s| == 0 then [""]
    else
      var rest := Explode(s[1..], sep);
      if s[0] == sep then [""] + rest
      else [[s[0]] + rest[0]] + rest[1..]
  }

  /** `implode($sep, $pieces)`. */
  function Implode(pieces: seq<string>, sep: char): string {
    if |pieces| == 0 then ""
    else if |pieces| == 1 then pieces[0]
    else pieces[0] + [sep] + Implode(pieces[1..], sep)
  }

  /** Joining the pieces back with the separator gives the original string. */
  lemma {:induction false} ImplodeExplode(s: string, sep: char)
    ensures Implode(Explode(s, sep), sep) == s
    decreases |s|
  {
    if |s| > 0 {
      ImplodeExplode(s[1..], sep);
      var rest := Explode(s[1..], sep);
      if s[0] != sep && |rest| > 1 {
        assert Implode(rest, sep) == rest[0] + [sep] + Implode(rest[1..], sep);
        assert s == [s[0]] + s[1..];
      }
    }
  }

  /** A piece free of the separator, followed by the separator, starts a new piece. */
  lemma {:induction false} ExplodeFrontPiece(a: string, t: string, sep: char)
    requires sep !in a
    ensures Explode(a + [sep] + t, sep) == [a] + Explode(t, sep)
    ensures Explode(a, sep) == [a]
    decreases |a|
  {
    if |a| > 0 {
      ExplodeFrontPiece(a[1..], t, sep);
      assert (a + [sep] + t)[1..] == a[1..] + [sep] + t;
      assert [a[0]] + a[1..] == a;
    } else {
      assert a + [sep] + t == [sep] + t;
    }
  }

  /** Splitting a join of separator-free pieces recovers the pieces. */
  lemma {:induction false} ExplodeImplode(pieces: seq<string>, sep: char)
    requires |pieces| >= 1
    requires forall i :: 0 <= i < |pieces| ==> sep !in pieces[i]
    ensures Explode(Implode(pieces, sep), sep) == pieces
    decreases |pieces|
  {
    if |pieces| == 1 {
      ExplodeFrontPiece(pieces[0], "", sep);
    } else {
      ExplodeImplode(pieces[1..], sep);
      ExplodeFrontPiece(pieces[0], Implode(pieces[1..], sep), sep);
      assert [pieces[0]] + pieces[1..] == pieces;
    }
  }

  /** PHP `ltrim`: drop leading trim characters. */
  function TrimLeft(s: string): (r: string)
    ensures |r| <= |s| && r == s[|s| - |r|..]
    ensures forall i :: 0 <= i < |s| - |r| ==> IsTrimChar(s[i])
    ensures |r| > 0 ==> !IsTrimChar(r[0])
    decreases |s|
  {
    if |s| > 0 && IsTrimChar(s[0]) then TrimLeft(s[1..]) else s
  }

  /** PHP `rtrim`: drop trailing trim characters. */
  function TrimRight(s: string): (r: string)
    ensures |r| <= |s| && r == s[..|r|]
    ensures forall i :: |r| <= i < |s| ==> IsTrimChar(s[i])
    ensures |r| > 0 ==> !IsTrimChar(r[|r| - 1])
    decreases |s|
  {
    if |s| > 0 && IsTrimChar(s[|s| - 1]) then TrimRight(s[..|s| - 1]) else s
  }

  /** Every character of `t` is one `trim` strips. */
  predicate AllTrimChars(t: string) {
    forall i :: 0 <= i < |t| ==> IsTrimChar(t[i])
  }

  /** Neither end of `t` is a trim character. */
  predicate Trimmed(t: string) {
    |t| > 0 ==> !IsTrimChar(t[0]) && !IsTrimChar(t[|t| - 1])
  }

  /**
    PHP `trim`: `rtrim` of `ltrim`, so a leading and a trailing run of trim
    characters are stripped (`TrimLeft` and `TrimRight` state which).
   */
  function Trim(s: string): (r: string)
    ensures r == TrimRight(TrimLeft(s))
    ensures |r| <= |s|
    ensures Trimmed(r)
  {
    TrimRight(TrimLeft(s))
  }

  /** `ltrim` stops at the first character that is not a trim character. */
  lemma {:induction false} TrimLeftSkips(pre: string, x: string)
    requires AllTrimChars(pre)
    requires |x| == 0 || !IsTrimChar(x[0])
    ensures TrimLeft(pre + x) == x
    decreases |pre|
  {
    if |pre| > 0 {
      assert (pre + x)[1..] == pre[1..] + x;
      TrimLeftSkips(pre[1..], x);
    }
  }

  /** `rtrim` stops at the last character that is not a trim character. */
  lemma {:induction false} TrimRightSkips(x: string, post: string)
    requires AllTrimChars(post)
    requires |x| == 0 || !IsTrimChar(x[|x| - 1])
    ensures TrimRight(x + post) == x
    decreases |post|
  {
    if |post| > 0 {
      var n := |post| - 1;
      assert (x + post)[..|x + post| - 1] == x + post[..n];
      TrimRightSkips(x, post[..n]);
    }
  }

  /**
    `trim` removes exactly the maximal runs of trim characters at both ends:
    whenever `s` is `pre + mid + post` with `pre` and `post` made of trim
    characters and `mid` neither starting nor ending with one, the result is
    `mid`.
   */
  lemma TrimSplits(pre: string, mid: string, post: string)
    requires AllTrimChars(pre) && AllTrimChars(post)
    requires Trimmed(mid)
    ensures Trim(pre + mid + post) == mid
  {
    if |mid| == 0 {
      assert pre + mid + post == (pre + post) + "";
      TrimLeftSkips(pre + post, "");
    } else {
      assert pre + mid + post == pre + (mid + post);
      TrimLeftSkips(pre, mid + post);
      TrimRightSkips(mid, post);
    }
  }

  /** `trim` leaves an already trimmed string alone. */
  lemma TrimTrimmed(t: string)
    requires Trimmed(t)
    ensures Trim(t) == t
  {
    assert "" + t + "" == t;
    TrimSplits("", t, "");
  }

  /** `array_slice($a, 0, $n)`: the first `n` elements, or all of them. */
  function Take<T>(a: seq<T>, n: nat): (r: seq<T>)
    ensures |r| == if |a| < n then |a| else n
    ensures r == a[..|r|]
  {
    if |a| <= n then a else a[..n]
  }
}
