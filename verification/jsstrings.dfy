/** The handful of JavaScript string operations the bot uses: `trim`,
    `split` on one character, `join`, `startsWith` and the decimal rendering
    of integers inside template literals. Strings are sequences of code
    points. */
module JsStrings {
  import opened JsValues

  /** The code points String.prototype.trim removes: the WhiteSpace and
      LineTerminator productions of sections 12.2 and 12.3 of ECMA-262. */
  predicate IsTrimmable(c: char)
  {
    || c == '\t' || c == '\U{000B}' || c == '\U{000C}' || c == ' '
    || c == '\U{00A0}' || c == '\U{FEFF}'
    || c == '\n' || c == '\r' || c == '\U{2028}' || c == '\U{2029}'
    || c == '\U{1680}' || ('\U{2000}' <= c <= '\U{200A}')
    || c == '\U{202F}' || c == '\U{205F}' || c == '\U{3000}'
  }

  predicate AllTrimmable(s: string)
  {
    forall i :: 0 <= i < |s| ==> IsTrimmable(s[i])
  }

  /** Neither end of `s` is trimmable (vacuously so for the empty string). */
  predicate Trimmed(s: string)
  {
    s == [] || (!IsTrimmable(s[0]) && !IsTrimmable(s[|s| - 1]))
  }

  /** String.prototype.trimStart: drops leading trimmable code points. */
  function TrimStart(s: string): string
  {
    if s != [] && IsTrimmable(s[0]) then TrimStart(s[1..]) else s
  }

  /** String.prototype.trimEnd: drops trailing trimmable code points. */
  function TrimEnd(s: string): string
  {
    if s != [] && IsTrimmable(s[|s| - 1]) then TrimEnd(s[..|s| - 1]) else s
  }

  /** String.prototype.trim */
  function Trim(s: string): string
  {
    TrimEnd(TrimStart(s))
  }

  /** trimStart leaves the suffix after the longest trimmable prefix. */
  lemma {:induction false} TrimStartRemovesPrefix(s: string)
    ensures var r := TrimStart(s);
      && |r| <= |s| && r == s[|s| - |r|..]
      && AllTrimmable(s[..|s| - |r|])
      && (r == [] || !IsTrimmable(r[0]))
    decreases |s|
  {
    if s != [] && IsTrimmable(s[0]) {
      TrimStartRemovesPrefix(s[1..]);
      var r := TrimStart(s[1..]);
      assert s[1..][|s| - 1 - |r|..] == s[|s| - |r|..];
      var head, inner := s[..|s| - |r|], s[1..][..|s| - 1 - |r|];
      assert AllTrimmable(inner);
      forall i | 0 <= i < |head|
        ensures IsTrimmable(head[i])
      {
        if i == 0 {
          assert head[i] == s[0];
        } else {
          assert head[i] == inner[i - 1];
          assert IsTrimmable(inner[i - 1]);
        }
      }
    }
  }

  /** trimEnd leaves the prefix before the longest trimmable suffix. */
  lemma {:induction false} TrimEndRemovesSuffix(s: string)
    ensures var r := TrimEnd(s);
      && |r| <= |s| && r == s[..|r|]
      && AllTrimmable(s[|r|..])
      && (r == [] || !IsTrimmable(r[|r| - 1]))
    decreases |s|
  {
    if s != [] && IsTrimmable(s[|s| - 1]) {
      TrimEndRemovesSuffix(s[..|s| - 1]);
      var r := TrimEnd(s[..|s| - 1]);
      assert s[..|s| - 1][..|r|] == s[..|r|];
      var tail := s[|r|..];
      forall i | 0 <= i < |tail|
        ensures IsTrimmable(tail[i])
      {
        if i < |tail| - 1 {
          assert tail[i] == s[..|s| - 1][|r|..][i];
        }
      }
    }
  }

  /** trim leaves no trimmable code point at either end and never lengthens
      the string. */
  lemma TrimIsTrimmed(s: string)
    ensures Trimmed(Trim(s)) && |Trim(s)| <= |s|
  {
    TrimStartRemovesPrefix(s);
    var m := TrimStart(s);
    TrimEndRemovesSuffix(m);
    var r := TrimEnd(m);
    if r != [] {
      assert r[0] == m[0];
    }
  }

  lemma {:induction false} TrimStartSkips(a: string, s: string)
    requires AllTrimmable(a)
    requires s == [] || !IsTrimmable(s[0])
    ensures TrimStart(a + s) == s
    decreases |a|
  {
    if a != [] {
      assert (a + s)[1..] == a[1..] + s;
      TrimStartSkips(a[1..], s);
    } else {
      assert a + s == s;
    }
  }

  lemma {:induction false} TrimEndSkips(s: string, b: string)
    requires AllTrimmable(b)
    requires s == [] || !IsTrimmable(s[|s| - 1])
    ensures TrimEnd(s + b) == s
    decreases |b|
  {
    if b != [] {
      assert (s + b)[..|s + b| - 1] == s + b[..|b| - 1];
      TrimEndSkips(s, b[..|b| - 1]);
    } else {
      assert s + b == s;
    }
  }

  /** Trim removes exactly the trimmable margins around a trimmed core: the
      characterisation String.prototype.trim is specified by. */
  lemma {:induction false} TrimSurrounded(a: string, m: string, b: string)
    requires AllTrimmable(a) && AllTrimmable(b) && Trimmed(m)
    ensures Trim(a + m + b) == m
  {
    if m == [] {
      assert a + m + b == a + b + [];
      assert AllTrimmable(a + b);
      TrimStartSkips(a + b, []);
      assert TrimStart(a + m + b) == [];
    } else {
      assert a + m + b == a + (m + b);
      TrimStartSkips(a, m + b);
      TrimEndSkips(m, b);
    }
  }

  /** Trim leaves a string without trimmable margins as it is. */
  lemma TrimOfTrimmed(m: string)
    requires Trimmed(m)
    ensures Trim(m) == m
  {
    TrimSurrounded([], m, []);
    assert [] + m + [] == m;
  }

  predicate StartsWith(s: string, prefix: string)
  {
    |prefix| <= |s| && s[..|prefix|] == prefix
  }

  /** String.prototype.split with a one-character separator: the pieces
      between successive occurrences of `c`. */
  function Split(s: string, c: char): (r: seq<string>)
    ensures |r| >= 1
    decreases |s|
  {
    var k := IndexOf(s, c);
    if k == -1 then [s] else [s[..k]] + Split(s[k + 1..], c)
  }

  /** No piece holds the separator, and there is a single piece exactly
      when the separator does not occur. */
  lemma {:induction false} SplitPieces(s: string, c: char)
    ensures forall i :: 0 <= i < |Split(s, c)| ==> c !in Split(s, c)[i]
    ensures |Split(s, c)| == 1 <==> c !in s
    decreases |s|
  {
    var k := IndexOf(s, c);
    if k != -1 {
      SplitStep(s, c, k);
      SplitPieces(s[k + 1..], c);
      assert c !in s[..k];
    }
  }

  /** The first piece of a split is the text before the first separator, or
      the whole string when there is none; the remaining pieces are the
      split of what follows that separator. */
  lemma SplitHead(s: string, c: char)
    ensures var h := Split(s, c)[0];
      && |h| <= |s| && h == s[..|h|] && c !in h
      && (|h| < |s| ==> s[|h|] == c && Split(s, c)[1..] == Split(s[|h| + 1..], c))
      && (|h| == |s| ==> Split(s, c) == [s])
  {
    var k := IndexOf(s, c);
    if k != -1 {
      SplitStep(s, c, k);
      assert c !in s[..k];
    }
  }

  /** `u` and `t` are the first two pieces of `s` cut at `c`: `u` runs up
      to the first `c`, and `t` from just after it up to the next `c` or the
      end, and neither holds `c`. */
  predicate PiecesAt(s: string, c: char, u: string, t: string)
  {
    && c !in u && c !in t
    && |u| < |s| && s[..|u|] == u && s[|u|] == c
    && |u| + 1 + |t| <= |s| && s[|u| + 1..|u| + 1 + |t|] == t
    && (|u| + 1 + |t| < |s| ==> s[|u| + 1 + |t|] == c)
  }

  /** Splitting a string that holds the separator: the first piece is the
      text before the first separator, the second the text from there to the
      next separator or the end. */
  lemma TwoPieces(s: string, c: char)
    requires c in s
    ensures |Split(s, c)| >= 2 && PiecesAt(s, c, Split(s, c)[0], Split(s, c)[1])
  {
    PiecesSeparatorFree(s, c);
    FirstPieceAt(s, c);
    SecondPieceAt(s, c);
  }

  /** Conversely, the first two pieces are the only pair `PiecesAt` admits. */
  lemma PiecesAtDetermined(s: string, c: char, u: string, t: string)
    requires PiecesAt(s, c, u, t)
    ensures |Split(s, c)| >= 2 && u == Split(s, c)[0] && t == Split(s, c)[1]
  {
    assert c in s by {
      assert s[|u|] == c;
    }
    TwoPieces(s, c);
    var u0, t0 := Split(s, c)[0], Split(s, c)[1];
    SameCutOrEnd(s, c, u, u0);
    var rest := s[|u| + 1..];
    SliceOfSuffix(s, |u| + 1, |t|);
    SliceOfSuffix(s, |u| + 1, |t0|);
    SameCutOrEnd(rest, c, t, t0);
  }

  /** Two separator-free prefixes that each stop at a `c` or at the end are
      equal. */
  lemma SameCutOrEnd(s: string, c: char, u: string, v: string)
    requires |u| <= |s| && s[..|u|] == u && (|u| < |s| ==> s[|u|] == c) && c !in u
    requires |v| <= |s| && s[..|v|] == v && (|v| < |s| ==> s[|v|] == c) && c !in v
    ensures u == v
  {
  }

  lemma PiecesSeparatorFree(s: string, c: char)
    requires c in s
    ensures |Split(s, c)| >= 2 && c !in Split(s, c)[0] && c !in Split(s, c)[1]
  {
    FirstPiece(s, c, IndexOf(s, c));
  }

  lemma FirstPieceAt(s: string, c: char)
    requires c in s
    ensures |Split(s, c)| >= 2
    ensures var u := Split(s, c)[0]; |u| < |s| && s[..|u|] == u && s[|u|] == c
  {
    FirstPiece(s, c, IndexOf(s, c));
  }

  lemma SecondPieceAt(s: string, c: char)
    requires c in s
    ensures |Split(s, c)| >= 2
    ensures var u, t := Split(s, c)[0], Split(s, c)[1];
      && |u| + 1 + |t| <= |s| && s[|u| + 1..|u| + 1 + |t|] == t
      && (|u| + 1 + |t| < |s| ==> s[|u| + 1 + |t|] == c)
  {
    SecondIsHeadAfterFirst(s, c);
    HeadPlaced(s, c, |Split(s, c)[0]|);
  }

  /** The second piece is the first piece of the text after the first
      separator. */
  lemma SecondIsHeadAfterFirst(s: string, c: char)
    requires c in s
    ensures |Split(s, c)| >= 2 && |Split(s, c)[0]| < |s|
    ensures Split(s, c)[1] == Split(s[|Split(s, c)[0]| + 1..], c)[0]
  {
    var k := IndexOf(s, c);
    FirstPiece(s, c, k);
    assert |Split(s, c)[0]| == k;
    assert s[|Split(s, c)[0]| + 1..] == s[k + 1..];
  }

  /** The first piece of the text after position `k` sits at `k + 1`. */
  lemma HeadPlaced(s: string, c: char, k: nat)
    requires k < |s|
    ensures var t := Split(s[k + 1..], c)[0];
      && k + 1 + |t| <= |s| && s[k + 1..k + 1 + |t|] == t
      && (k + 1 + |t| < |s| ==> s[k + 1 + |t|] == c)
  {
    SplitHead(s[k + 1..], c);
    SliceOfSuffix(s, k + 1, |Split(s[k + 1..], c)[0]|);
  }

  /** A piece that starts one past `u` and is cut at `c` or at the end sits
      at `|u| + 1` in `s`. */
  lemma ShiftPiece(s: string, c: char, u: string, t: string)
    requires |u| < |s| && u == s[..|u|]
    requires |t| <= |s[|u| + 1..]| && s[|u| + 1..][..|t|] == t
    requires |t| < |s[|u| + 1..]| ==> s[|u| + 1..][|t|] == c
    ensures |u| + 1 + |t| <= |s| && s[|u| + 1..|u| + 1 + |t|] == t
    ensures |u| + 1 + |t| < |s| ==> s[|u| + 1 + |t|] == c
  {
    SliceOfSuffix(s, |u| + 1, |t|);
  }

  lemma FirstPiece(s: string, c: char, k: int)
    requires k == IndexOf(s, c) && k != -1
    ensures |Split(s, c)| >= 2 && Split(s, c)[0] == s[..k] && s[k] == c
    ensures Split(s, c)[1] == Split(s[k + 1..], c)[0]
  {
    SplitStep(s, c, k);
  }

  lemma SliceOfSuffix(s: string, a: nat, m: nat)
    requires a + m <= |s|
    ensures s[a..][..m] == s[a..a + m]
    ensures a + m < |s| ==> s[a..][m] == s[a + m]
  {
  }

  /** Array.prototype.join */
  function Join(xs: seq<string>, sep: string): string
    decreases |xs|
  {
    if |xs| == 0 then ""
    else if |xs| == 1 then xs[0]
    else xs[0] + sep + Join(xs[1..], sep)
  }

  lemma CutAt(s: string, k: nat)
    requires k < |s|
    ensures s == s[..k] + [s[k]] + s[k + 1..]
  {
  }

  /** One step of Split: the piece before the first separator, then the
      split of the rest. */
  lemma SplitStep(s: string, c: char, k: int)
    requires k == IndexOf(s, c) && k != -1
    ensures Split(s, c) == [s[..k]] + Split(s[k + 1..], c)
    ensures s == s[..k] + [c] + s[k + 1..]
  {
    CutAt(s, k);
  }

  lemma JoinStep(head: string, rest: seq<string>, sep: string)
    requires |rest| >= 1
    ensures Join([head] + rest, sep) == head + sep + Join(rest, sep)
  {
    assert ([head] + rest)[1..] == rest;
  }

  /** Joining the pieces of a split with the separator gives back the string. */
  lemma {:induction false} JoinSplit(s: string, c: char)
    ensures Join(Split(s, c), [c]) == s
    decreases |s|
  {
    var k := IndexOf(s, c);
    if k != -1 {
      SplitStep(s, c, k);
      JoinSplit(s[k + 1..], c);
      JoinStep(s[..k], Split(s[k + 1..], c), [c]);
    }
  }

  /** Splitting a join of separator-free pieces gives back the pieces. */
  lemma {:induction false} SplitJoin(xs: seq<string>, c: char)
    requires |xs| >= 1
    requires forall i :: 0 <= i < |xs| ==> c !in xs[i]
    ensures Split(Join(xs, [c]), c) == xs
    decreases |xs|
  {
    if |xs| > 1 {
      var tail := Join(xs[1..], [c]);
      var s := xs[0] + [c] + tail;
      assert s[|xs[0]|] == c;
      var k := IndexOf(s, c);
      assert k == |xs[0]| by {
        assert c in s[..|xs[0]| + 1];
        assert s[..|xs[0]|] == xs[0];
      }
      assert s[..k] == xs[0];
      assert s[k + 1..] == tail;
      SplitJoin(xs[1..], c);
    }
  }

  /** The character for a decimal digit. */
  function DigitChar(d: nat): char
    requires d < 10
  {
    (48 + d) as char
  }

  predicate IsDigit(ch: char)
  {
    48 <= ch as int <= 57
  }

  /** Decimal value of a string of digits (the inverse of NatToString). */
  function DigitsValue(s: string): nat
    requires forall i :: 0 <= i < |s| ==> IsDigit(s[i])
  {
    if s == [] then 0
    else
      assert IsDigit(s[|s| - 1]);
      DigitsValue(s[..|s| - 1]) * 10 + (s[|s| - 1] as int - 48)
  }

  /** `${n}` for a natural number: its shortest decimal digits. */
  function NatToString(n: nat): (r: string)
    ensures 1 <= |r|
    ensures forall i :: 0 <= i < |r| ==> IsDigit(r[i])
    ensures r[0] == '0' ==> n == 0
  {
    if n < 10 then [DigitChar(n)] else NatToString(n / 10) + [DigitChar(n % 10)]
  }

  /** Reading the digits back gives the number: the rendering loses nothing. */
  lemma {:induction false} NatToStringRoundTrip(n: nat)
    ensures DigitsValue(NatToString(n)) == n
  {
    if n >= 10 {
      var r := NatToString(n);
      assert r[..|r| - 1] == NatToString(n / 10);
      NatToStringRoundTrip(n / 10);
    }
  }

  /** `${i}` for an integral number (a minus sign before negative values).
      JavaScript writes the same digits only below 1e21, and holds integers
      exactly only up to 2^53; larger values are not modelled. */
  function IntToString(i: int): string
  {
    if i < 0 then "-" + NatToString(-i) else NatToString(i)
  }
}
