/**
 * The pieces of the Java runtime that the trade behaviours and the quest
 * code lean on: 32- and 64-bit integer wrap-around, Integer.parseInt and
 * Long.parseLong, String.valueOf(int), String.split(" "), String.trim,
 * String.toLowerCase (ASCII only), String.indexOf, String.replace and
 * String.hashCode.
 */
module JavaLang {

  datatype Option<+T> = None | Some(value: T)

  const INT_MIN: int := -0x8000_0000
  const INT_MAX: int := 0x7fff_ffff
  const LONG_MIN: int := -0x8000_0000_0000_0000
  const LONG_MAX: int := 0x7fff_ffff_ffff_ffff

  predicate IsInt(x: int) { INT_MIN <= x <= INT_MAX }
  predicate IsLong(x: int) { LONG_MIN <= x <= LONG_MAX }

  /** Two's-complement wrap-around of a Java `int` expression. */
  function Wrap32(x: int): (r: int)
    ensures IsInt(r)
    ensures (r - x) % 0x1_0000_0000 == 0
    ensures IsInt(x) ==> r == x
  {
    (x - INT_MIN) % 0x1_0000_0000 + INT_MIN
  }

  /** Two's-complement wrap-around of a Java `long` expression. */
  function Wrap64(x: int): (r: int)
    ensures IsLong(r)
    ensures (r - x) % 0x1_0000_0000_0000_0000 == 0
    ensures IsLong(x) ==> r == x
  {
    (x - LONG_MIN) % 0x1_0000_0000_0000_0000 + LONG_MIN
  }

  // ---------------------------------------------------------------------
  // Decimal digits

  predicate IsDigit(c: char) { '0' <= c <= '9' }

  predicate AllDigits(s: string) { forall i :: 0 <= i < |s| ==> IsDigit(s[i]) }

  function DigitChar(d: nat): (c: char)
    requires d < 10
    ensures IsDigit(c) && (c as int) - ('0' as int) == d
  {
    (('0' as int) + d) as char
  }

  /** The value of a string of decimal digits, most significant first. */
  function DigitsValue(s: string): nat
    requires AllDigits(s)
  {
    if |s| == 0 then 0
    else DigitsValue(s[..|s| - 1]) * 10 + ((s[|s| - 1] as int) - ('0' as int))
  }

  /** The decimal digits of a natural number, without leading zeros. */
  function NatToString(n: nat): (s: string)
    ensures |s| > 0 && AllDigits(s)
    ensures |s| > 1 ==> s[0] != '0'
  {
    if n < 10 then [DigitChar(n)] else NatToString(n / 10) + [DigitChar(n % 10)]
  }

  /** String.valueOf(int) / Java's `"" + n`. */
  function IntToString(n: int): (s: string)
    ensures |s| > 0
    ensures n < 0 <==> s[0] == '-'
  {
    if n < 0 then "-" + NatToString(-n) else NatToString(n)
  }

  lemma {:induction false} NatToStringValue(n: nat)
    ensures DigitsValue(NatToString(n)) == n
  {
    if n >= 10 {
      NatToStringValue(n / 10);
      var s := NatToString(n);
      assert s[..|s| - 1] == NatToString(n / 10);
    }
  }

  /**
   * Integer.parseInt / Long.parseLong on the range [lo, hi]: an optional
   * '-' or '+' sign followed by at least one decimal digit, whose value
   * must fit the range; anything else is a NumberFormatException (None).
   */
  function ParseSigned(s: string, lo: int, hi: int): (r: Option<int>)
    ensures r.Some? ==> lo <= r.value <= hi
    ensures r.Some? ==> |s| > 0
  {
    if |s| == 0 then None
    else if (s[0] == '-' || s[0] == '+') then
      if |s| == 1 || !AllDigits(s[1..]) then None
      else
        var v: int := if s[0] == '-' then 0 - DigitsValue(s[1..]) else DigitsValue(s[1..]);
        if lo <= v <= hi then Some(v) else None
    else if !AllDigits(s) then None
    else if lo <= DigitsValue(s) <= hi then Some(DigitsValue(s)) else None
  }

  function ParseInt(s: string): (r: Option<int>)
    ensures r.Some? ==> IsInt(r.value)
  {
    ParseSigned(s, INT_MIN, INT_MAX)
  }

  function ParseLong(s: string): (r: Option<int>)
    ensures r.Some? ==> IsLong(r.value)
  {
    ParseSigned(s, LONG_MIN, LONG_MAX)
  }

  /** Parsing what String.valueOf printed gives the number back. */
  lemma ParseIntToString(n: int, lo: int, hi: int)
    requires lo <= n <= hi
    ensures ParseSigned(IntToString(n), lo, hi) == Some(n)
  {
    if n < 0 {
      NatToStringValue(-n);
      assert IntToString(n)[1..] == NatToString(-n);
    } else {
      NatToStringValue(n);
    }
  }

  /** A string that does not look like a number does not parse. */
  lemma ParseRejectsNonDigit(s: string, lo: int, hi: int, i: nat)
    requires 0 < i < |s| && !IsDigit(s[i])
    ensures ParseSigned(s, lo, hi) == None
  {
    if s[0] == '-' || s[0] == '+' {
      assert !IsDigit(s[1..][i - 1]);
    }
  }

  // ---------------------------------------------------------------------
  // String.split with a one-character separator (" " and ";")

  /** The pieces of `s` between single separators, empty pieces included. */
  function Pieces(s: string, sep: char): (r: seq<string>)
    ensures |r| >= 1
    ensures forall k :: 0 <= k < |r| ==> sep !in r[k]
  {
    if |s| == 0 then [""]
    else if s[0] == sep then [""] + Pieces(s[1..], sep)
    else
      var p := Pieces(s[1..], sep);
      [[s[0]] + p[0]] + p[1..]
  }

  /** The pieces joined with single separators (String.join). */
  function Join(ps: seq<string>, sep: char): string
    requires |ps| >= 1
  {
    if |ps| == 1 then ps[0] else ps[0] + [sep] + Join(ps[1..], sep)
  }

  lemma {:induction false} PiecesJoin(s: string, sep: char)
    ensures Join(Pieces(s, sep), sep) == s
  {
    if |s| > 0 {
      PiecesJoin(s[1..], sep);
      if s[0] != sep {
        var p := Pieces(s[1..], sep);
        if |p| > 1 {
          assert ([[s[0]] + p[0]] + p[1..])[1..] == p[1..];
          assert Join(p, sep) == p[0] + [sep] + Join(p[1..], sep);
        }
      }
    }
  }

  lemma {:induction false} JoinPieces(ps: seq<string>, sep: char)
    requires |ps| >= 1
    requires forall k :: 0 <= k < |ps| ==> sep !in ps[k]
    ensures Pieces(Join(ps, sep), sep) == ps
  {
    if |ps| == 1 {
      PiecesNoSep(ps[0], sep);
    } else {
      JoinPieces(ps[1..], sep);
      SplitFirstPiece(ps[0], Join(ps[1..], sep), sep);
    }
  }

  function DropTrailingEmpty(ps: seq<string>): (r: seq<string>)
    ensures |r| <= |ps| && r == ps[..|r|]
    ensures |r| > 0 ==> r[|r| - 1] != ""
    ensures forall k :: |r| <= k < |ps| ==> ps[k] == ""
  {
    if |ps| > 0 && ps[|ps| - 1] == "" then DropTrailingEmpty(ps[..|ps| - 1]) else ps
  }

  /**
   * String.split(sep): with no separator the string itself; otherwise the
   * pieces between separators with the trailing empty ones removed.
   */
  function Split(s: string, sep: char): (r: seq<string>)
    ensures sep !in s ==> r == [s]
    ensures forall k :: 0 <= k < |r| ==> sep !in r[k]
  {
    if sep !in s then
      assert Pieces(s, sep) == [s] by { PiecesNoSep(s, sep); }
      [s]
    else DropTrailingEmpty(Pieces(s, sep))
  }

  lemma {:induction false} PiecesNoSep(s: string, sep: char)
    requires sep !in s
    ensures Pieces(s, sep) == [s]
  {
    if |s| > 0 {
      assert s[0] != sep && sep !in s[1..];
      PiecesNoSep(s[1..], sep);
      assert [s[0]] + s[1..] == s;
    }
  }

  /** Splitting a separator-free first piece off a text keeps the piece. */
  lemma {:induction false} SplitFirstPiece(w: string, rest: string, sep: char)
    requires sep !in w
    ensures Pieces(w + [sep] + rest, sep) == [w] + Pieces(rest, sep)
  {
    if |w| == 0 {
      assert (w + [sep] + rest)[1..] == rest;
    } else {
      assert (w + [sep] + rest)[1..] == w[1..] + [sep] + rest;
      assert sep !in w[1..];
      SplitFirstPiece(w[1..], rest, sep);
      assert [w[0]] + w[1..] == w;
    }
  }

  // ---------------------------------------------------------------------
  // String.trim

  predicate IsBlank(c: char) { c <= ' ' }

  function TrimStart(s: string): (r: string)
    ensures |r| <= |s| && r == s[|s| - |r|..]
    ensures |r| > 0 ==> !IsBlank(r[0])
    ensures forall k :: 0 <= k < |s| - |r| ==> IsBlank(s[k])
  {
    if |s| > 0 && IsBlank(s[0]) then TrimStart(s[1..]) else s
  }

  function TrimEnd(s: string): (r: string)
    ensures |r| <= |s| && r == s[..|r|]
    ensures |r| > 0 ==> !IsBlank(r[|r| - 1])
    ensures forall k :: |r| <= k < |s| ==> IsBlank(s[k])
  {
    if |s| > 0 && IsBlank(s[|s| - 1]) then TrimEnd(s[..|s| - 1]) else s
  }

  /** String.trim: drop every leading and trailing character <= ' '. */
  function Trim(s: string): (r: string)
  {
    TrimEnd(TrimStart(s))
  }

  lemma TrimKeepsInner(s: string)
    requires s == [] || (!IsBlank(s[0]) && !IsBlank(s[|s| - 1]))
    ensures Trim(s) == s
  {
  }

  // ---------------------------------------------------------------------
  // String.toLowerCase (ASCII letters only)

  function LowerChar(c: char): char
  {
    if 'A' <= c <= 'Z' then ((c as int) - ('A' as int) + ('a' as int)) as char else c
  }

  function ToLower(s: string): (r: string)
    ensures |r| == |s|
    ensures forall k :: 0 <= k < |s| ==> r[k] == LowerChar(s[k])
  {
    seq(|s|, k requires 0 <= k < |s| => LowerChar(s[k]))
  }

  // ---------------------------------------------------------------------
  // String.indexOf, String.replace

  predicate OccursAt(s: string, t: string, i: nat)
  {
    i + |t| <= |s| && s[i..i + |t|] == t
  }

  /** String.indexOf: the first position where `t` occurs, or -1. */
  function IndexOf(s: string, t: string): (r: int)
    ensures -1 <= r <= |s|
    ensures r >= 0 ==> OccursAt(s, t, r)
    ensures r >= 0 ==> forall j :: 0 <= j < r ==> !OccursAt(s, t, j)
    ensures r == -1 ==> forall j :: 0 <= j <= |s| ==> !OccursAt(s, t, j)
  {
    IndexFrom(s, t, 0)
  }

  function IndexFrom(s: string, t: string, i: nat): (r: int)
    requires i <= |s|
    requires forall j :: 0 <= j < i ==> !OccursAt(s, t, j)
    ensures -1 <= r <= |s|
    ensures r >= 0 ==> i <= r && OccursAt(s, t, r)
    ensures r >= 0 ==> forall j :: 0 <= j < r ==> !OccursAt(s, t, j)
    ensures r == -1 ==> forall j :: 0 <= j <= |s| ==> !OccursAt(s, t, j)
    decreases |s| - i
  {
    if OccursAt(s, t, i) then i
    else if i == |s| then -1
    else IndexFrom(s, t, i + 1)
  }

  /** A one-character search finds the first occurrence after a stretch free of it. */
  lemma IndexOfAfter(a: string, s: string, ch: char)
    requires ch !in a && |s| > 0 && s[0] == ch
    ensures IndexOf(a + s, [ch]) == |a|
  {
    var x := a + s;
    assert x[|a|..|a| + 1] == [ch];
    forall j | 0 <= j < |a|
      ensures !OccursAt(x, [ch], j)
    {
      assert x[j..j + 1][0] == a[j] && a[j] in a;
    }
    var r := IndexOf(x, [ch]);
    assert OccursAt(x, [ch], |a|);
    assert r != -1;
    assert !(r < |a|);
    assert !(|a| < r);
  }

  /** String.replace with an empty target: `r` before every character and at the end. */
  function ReplaceEmpty(s: string, r: string): (out: string)
    ensures |out| == |s| + (|s| + 1) * |r|
  {
    if |s| == 0 then r else r + [s[0]] + ReplaceEmpty(s[1..], r)
  }

  /**
   * String.replace(CharSequence, CharSequence): every non-overlapping
   * occurrence of `t`, scanning from the left, becomes `r`.
   */
  function Replace(s: string, t: string, r: string): (out: string)
    decreases |s|
  {
    if |t| == 0 then ReplaceEmpty(s, r)
    else if |s| < |t| then s
    else if s[..|t|] == t then r + Replace(s[|t|..], t, r)
    else [s[0]] + Replace(s[1..], t, r)
  }

  lemma {:induction false} ReplaceAbsent(s: string, t: string, r: string)
    requires |t| > 0
    requires forall j :: 0 <= j <= |s| ==> !OccursAt(s, t, j)
    ensures Replace(s, t, r) == s
  {
    if |s| >= |t| {
      assert !OccursAt(s, t, 0);
      forall j | 0 <= j <= |s[1..]| ensures !OccursAt(s[1..], t, j) {
        assert !OccursAt(s, t, j + 1);
        if j + |t| <= |s[1..]| {
          assert s[1..][j..j + |t|] == s[j + 1..j + 1 + |t|];
        }
      }
      ReplaceAbsent(s[1..], t, r);
    }
  }

  lemma ReplaceLeading(t: string, s: string, r: string)
    requires |t| > 0
    ensures Replace(t + s, t, r) == r + Replace(s, t, r)
  {
    assert (t + s)[..|t|] == t;
    assert (t + s)[|t|..] == s;
  }

  /** A prefix that does not hold the target's first character is copied unchanged. */
  lemma {:induction false} ReplaceSkip(a: string, s: string, t: string, r: string)
    requires |t| > 0 && t[0] !in a
    ensures Replace(a + s, t, r) == a + Replace(s, t, r)
  {
    if a != [] {
      var x := a + s;
      assert x[0] == a[0];
      assert x[1..] == a[1..] + s;
      assert forall c :: c in a[1..] ==> c in a;
      ReplaceSkip(a[1..], s, t, r);
      if |x| >= |t| {
        assert a[0] in a;
        assert x[..|t|][0] == a[0];
        assert Replace(x, t, r) == [a[0]] + Replace(a[1..] + s, t, r);
        assert [a[0]] + (a[1..] + Replace(s, t, r)) == a + Replace(s, t, r);
      } else {
        assert |s| < |t|;
        assert |a[1..] + s| < |t|;
      }
    } else {
      assert a + s == s;
    }
  }

  /** A text without the target's first character is left as it is. */
  lemma ReplaceNone(s: string, t: string, r: string)
    requires |t| > 0 && t[0] !in s
    ensures Replace(s, t, r) == s
  {
    ReplaceSkip(s, [], t, r);
    assert s + [] == s;
  }

  // ---------------------------------------------------------------------
  // String.hashCode

  /** String.hashCode: h = 31 * h + c over the characters, in `int` arithmetic. */
  function StringHash(s: string): (h: int)
    ensures IsInt(h)
  {
    if |s| == 0 then 0 else Wrap32(31 * StringHash(s[..|s| - 1]) + (s[|s| - 1] as int))
  }
}
