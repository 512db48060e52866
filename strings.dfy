/**
 * The JavaScript string operations the application relies on:
 * `includes`, `startsWith`, `trim`, `split` and `join` on a one-character
 * separator, `indexOf` of a character, and the decimal text of an integer
 * (`String(n)`, template-literal interpolation).
 */
module Strings {
  import opened Wrappers

  // ---------------------------------------------------------------------------
  // includes / startsWith

  /** `s.includes(sub)`: `sub` occurs in `s` at some offset. */
  predicate Contains(s: string, sub: string)
  {
    exists i {:trigger s[i..]} :: 0 <= i <= |s| - |sub| && s[i..][..|sub|] == sub
  }

  /** `s.startsWith(prefix)`. */
  predicate StartsWith(s: string, prefix: string)
  {
    |prefix| <= |s| && s[..|prefix|] == prefix
  }

  /** A string that lacks one of the characters of `sub` cannot contain `sub`. */
  lemma AbsentCharNotContained(s: string, sub: string, j: nat)
    requires j < |sub| && sub[j] !in s
    ensures !Contains(s, sub)
  {
    forall i | 0 <= i <= |s| - |sub|
      ensures s[i..][..|sub|] != sub
    {
      assert s[i..][..|sub|][j] == s[i + j];
    }
  }

  /** No character `c` of `s` is directly followed by `d`. */
  predicate NoPair(s: string, c: char, d: char)
  {
    forall i :: 0 <= i < |s| - 1 ==> !(s[i] == c && s[i + 1] == d)
  }

  /** A text lacking either character of a pair lacks the pair. */
  lemma AbsentNoPair(s: string, c: char, d: char)
    requires c !in s || d !in s
    ensures NoPair(s, c, d)
  {
    forall i | 0 <= i < |s| - 1
      ensures !(s[i] == c && s[i + 1] == d)
    {
      assert s[i] in s && s[i + 1] in s;
    }
  }

  /** The pair `c d` can only occur across a seam if it occurs in a part or at the seam. */
  lemma NoPairConcat(a: string, b: string, c: char, d: char)
    requires NoPair(a, c, d) && NoPair(b, c, d)
    requires !(|a| > 0 && |b| > 0 && a[|a| - 1] == c && b[0] == d)
    ensures NoPair(a + b, c, d)
  {
    var s := a + b;
    forall i | 0 <= i < |s| - 1
      ensures !(s[i] == c && s[i + 1] == d)
    {
      if i < |a| - 1 {
        assert s[i] == a[i] && s[i + 1] == a[i + 1];
      } else if i == |a| - 1 {
        assert s[i] == a[|a| - 1] && s[i + 1] == b[0];
      } else {
        assert s[i] == b[i - |a|] && s[i + 1] == b[i - |a| + 1];
      }
    }
  }

  /** A string in which two adjacent characters of `sub` never occur side by side cannot contain `sub`. */
  lemma AbsentPairNotContained(s: string, sub: string, j: nat)
    requires j + 1 < |sub| && NoPair(s, sub[j], sub[j + 1])
    ensures !Contains(s, sub)
  {
    forall i | 0 <= i <= |s| - |sub|
      ensures s[i..][..|sub|] != sub
    {
      assert s[i..][..|sub|][j] == s[i + j];
      assert s[i..][..|sub|][j + 1] == s[i + j + 1];
    }
  }

  // ---------------------------------------------------------------------------
  // trim

  /**
   * The characters `String.prototype.trim` removes: the ECMAScript WhiteSpace
   * code points (tab, vertical tab, form feed, space, no-break space, the byte
   * order mark and the Unicode "Zs" space separators) and the LineTerminator
   * code points (line feed, carriage return, U+2028, U+2029).
   */
  predicate IsJsWhitespace(c: char)
  {
    c == '\t' || c == '\n' || c == '\U{000B}' || c == '\U{000C}' || c == '\r' || c == ' '
    || c == '\U{00A0}' || c == '\U{1680}' || ('\U{2000}' <= c <= '\U{200A}')
    || c == '\U{2028}' || c == '\U{2029}' || c == '\U{202F}' || c == '\U{205F}'
    || c == '\U{3000}' || c == '\U{FEFF}'
  }

  predicate AllWhitespace(s: string)
  {
    forall i :: 0 <= i < |s| ==> IsJsWhitespace(s[i])
  }

  /** Whitespace in front of whitespace is whitespace. */
  lemma WhitespaceCons(c: char, x: string)
    requires IsJsWhitespace(c) && AllWhitespace(x)
    ensures AllWhitespace([c] + x)
  {
  }

  /** Whitespace after whitespace is whitespace. */
  lemma WhitespaceSnoc(x: string, c: char)
    requires AllWhitespace(x) && IsJsWhitespace(c)
    ensures AllWhitespace(x + [c])
  {
  }

  /** Drops the leading whitespace: what is left is a suffix of `s` that starts with a non-space. */
  function TrimStart(s: string): (r: string)
    ensures |r| <= |s| && r == s[|s| - |r|..]
    ensures AllWhitespace(s[..|s| - |r|])
    ensures r == [] || !IsJsWhitespace(r[0])
    decreases |s|
  {
    if |s| > 0 && IsJsWhitespace(s[0]) then
      var t := s[1..];
      var r := TrimStart(t);
      WhitespaceCons(s[0], t[..|t| - |r|]);
      assert s[..|s| - |r|] == [s[0]] + t[..|t| - |r|];
      assert s[|s| - |r|..] == t[|t| - |r|..];
      r
    else s
  }

  /** Drops the trailing whitespace: what is left is a prefix of `s` that ends with a non-space. */
  function TrimEnd(s: string): (r: string)
    ensures |r| <= |s| && r == s[..|r|]
    ensures AllWhitespace(s[|r|..])
    ensures r == [] || !IsJsWhitespace(r[|r| - 1])
    decreases |s|
  {
    if |s| > 0 && IsJsWhitespace(s[|s| - 1]) then
      var t := s[..|s| - 1];
      var r := TrimEnd(t);
      WhitespaceSnoc(t[|r|..], s[|s| - 1]);
      assert s[|r|..] == t[|r|..] + [s[|s| - 1]];
      assert s[..|r|] == t[..|r|];
      r
    else s
  }

  /** `s.trim()`: the slice of `s` left when the leading and trailing whitespace is removed. */
  function Trim(s: string): string
  {
    TrimEnd(TrimStart(s))
  }

  /** A slice of `s` with only whitespace before and after it. */
  lemma PaddedSlice(s: string, r: string, a: nat, b: nat)
    requires a <= b <= |s| && r == s[a..b] && AllWhitespace(s[..a]) && AllWhitespace(s[b..])
    ensures exists a, b :: (0 <= a <= b <= |s| && r == s[a..b]
                            && AllWhitespace(s[..a]) && AllWhitespace(s[b..]))
  {
  }

  /**
   * The facts `Trimmed` states, derived from what `TrimStart` promises of `t`
   * and what `TrimEnd` promises of `r` alone.
   */
  lemma TrimStages(s: string, t: string, r: string)
    requires |t| <= |s| && t == s[|s| - |t|..] && AllWhitespace(s[..|s| - |t|])
    requires t == [] || !IsJsWhitespace(t[0])
    requires |r| <= |t| && r == t[..|r|] && AllWhitespace(t[|r|..])
    requires r == [] || !IsJsWhitespace(r[|r| - 1])
    ensures |r| <= |s|
    ensures exists a, b :: (0 <= a <= b <= |s| && r == s[a..b]
                            && AllWhitespace(s[..a]) && AllWhitespace(s[b..]))
    ensures r == [] <==> AllWhitespace(s)
    ensures r != [] ==> !IsJsWhitespace(r[0]) && !IsJsWhitespace(r[|r| - 1])
  {
    var a := |s| - |t|;
    assert r == s[a..a + |r|] && s[a + |r|..] == t[|r|..];
    PaddedSlice(s, r, a, a + |r|);
    if r == [] {
      assert t[|r|..] == t;
      assert t == [];
      assert s[..a] == s;
    } else {
      assert r[0] == t[0] == s[a];
    }
  }

  /**
   * What `trim` leaves: the slice of `s` between a whitespace-only prefix and a
   * whitespace-only suffix, empty exactly when `s` is all whitespace, and
   * otherwise starting and ending with a non-space.
   */
  lemma Trimmed(s: string)
    ensures |Trim(s)| <= |s|
    ensures exists a, b :: (0 <= a <= b <= |s| && Trim(s) == s[a..b]
                            && AllWhitespace(s[..a]) && AllWhitespace(s[b..]))
    ensures Trim(s) == [] <==> AllWhitespace(s)
    ensures Trim(s) != [] ==> !IsJsWhitespace(Trim(s)[0]) && !IsJsWhitespace(Trim(s)[|Trim(s)| - 1])
  {
    var t := TrimStart(s);
    TrimStages(s, t, TrimEnd(t));
  }

  // ---------------------------------------------------------------------------
  // indexOf, split, join

  /** `s.indexOf(c)`: the first position of `c` in `s`, or none when `c` does not occur. */
  function IndexOf(s: string, c: char): (r: Option<nat>)
    ensures r.None? <==> c !in s
    ensures r.Some? ==> r.value < |s| && s[r.value] == c && c !in s[..r.value]
    decreases |s|
  {
    if |s| == 0 then None
    else if s[0] == c then Some(0)
    else match IndexOf(s[1..], c)
      case None => None
      case Some(i) =>
        assert s[..i + 1] == [s[0]] + s[1..][..i];
        Some(i + 1)
  }

  /** `s.split(sep)` for a one-character separator: the pieces between consecutive separators. */
  function Split(s: string, sep: char): (r: seq<string>)
    ensures |r| >= 1
    ensures forall p :: p in r ==> sep !in p
    decreases |s|
  {
    match IndexOf(s, sep)
    case None => [s]
    case Some(i) => [s[..i]] + Split(s[i + 1..], sep)
  }

  /** `parts.join(sep)`. */
  function Join(parts: seq<string>, sep: char): string
  {
    if |parts| == 0 then ""
    else if |parts| == 1 then parts[0]
    else parts[0] + [sep] + Join(parts[1..], sep)
  }

  /** The first occurrence is the one with no earlier occurrence. */
  lemma {:induction false} IndexOfAt(s: string, c: char, k: nat)
    requires k < |s| && s[k] == c && c !in s[..k]
    ensures IndexOf(s, c) == Some(k)
    decreases k
  {
    if k > 0 {
      assert s[0] == s[..k][0];
      assert s[1..][..k - 1] == s[1..k];
      assert forall x :: x in s[1..k] ==> x in s[..k];
      IndexOfAt(s[1..], c, k - 1);
    }
  }

  /** Splitting at the first separator: the text before it is the first piece. */
  lemma {:induction false} SplitConcat(a: string, b: string, sep: char)
    requires sep !in a
    ensures Split(a + [sep] + b, sep) == [a] + Split(b, sep)
  {
    var s := a + [sep] + b;
    assert s[..|a|] == a;
    IndexOfAt(s, sep, |a|);
    assert s[|a| + 1..] == b;
  }

  /** `split` undoes `join` when no piece contains the separator. */
  lemma {:induction false} SplitJoin(parts: seq<string>, sep: char)
    requires |parts| >= 1
    requires forall p :: p in parts ==> sep !in p
    ensures Split(Join(parts, sep), sep) == parts
    decreases |parts|
  {
    if |parts| == 1 {
      assert Join(parts, sep) == parts[0];
    } else {
      SplitJoin(parts[1..], sep);
      SplitConcat(parts[0], Join(parts[1..], sep), sep);
      assert parts == [parts[0]] + parts[1..];
    }
  }

  /** A piece taken from a longer text: its end is the text's end or the next separator. */
  lemma {:induction false} SplitFirstPiece(p: string, t: string, sep: char)
    requires sep !in p
    requires t == [] || t[0] == sep
    ensures Split(p + t, sep)[0] == p
  {
    if t == [] {
      assert p + t == p;
    } else {
      assert p + t == p + [sep] + t[1..];
      SplitConcat(p, t[1..], sep);
    }
  }

  // ---------------------------------------------------------------------------
  // Decimal text of integers

  function DigitChar(d: nat): (c: char)
    requires d < 10
    ensures '0' <= c <= '9'
  {
    "0123456789"[d]
  }

  function DigitValue(c: char): int
  {
    c as int - '0' as int
  }

  predicate IsDigits(s: string)
  {
    forall c :: c in s ==> '0' <= c <= '9'
  }

  /** The decimal text of a natural number, most significant digit first, without leading zeros. */
  function NatToString(n: nat): (s: string)
    ensures |s| >= 1 && IsDigits(s)
    ensures |s| > 1 ==> s[0] != '0'
    decreases n
  {
    if n < 10 then [DigitChar(n)] else NatToString(n / 10) + [DigitChar(n % 10)]
  }

  /** `String(n)` for an integer-valued number: a leading `-` for a negative one. */
  function IntToString(n: int): (s: string)
    ensures |s| >= 1
    ensures forall c :: c in s ==> c == '-' || '0' <= c <= '9'
  {
    if n < 0 then "-" + NatToString(-n) else NatToString(n)
  }

  /** The value of a string of decimal digits. */
  function ParseNat(s: string): int
    decreases |s|
  {
    if |s| == 0 then 0 else 10 * ParseNat(s[..|s| - 1]) + DigitValue(s[|s| - 1])
  }

  /** The value of an optionally negated string of decimal digits. */
  function ParseInt(s: string): int
  {
    if |s| > 0 && s[0] == '-' then -ParseNat(s[1..]) else ParseNat(s)
  }

  lemma {:induction false} ParseNatToString(n: nat)
    ensures ParseNat(NatToString(n)) == n
    decreases n
  {
    if n >= 10 {
      ParseNatToString(n / 10);
      var s := NatToString(n / 10) + [DigitChar(n % 10)];
      assert s[..|s| - 1] == NatToString(n / 10);
    }
  }

  /** A digit string read as an optionally negated one is read as digits. */
  lemma ParseDigits(t: string)
    requires |t| >= 1 && IsDigits(t)
    ensures ParseInt(t) == ParseNat(t)
  {
    assert t[0] in t;
  }

  /** A minus sign in front negates the value. */
  lemma ParseNegated(t: string)
    ensures ParseInt("-" + t) == -ParseNat(t)
  {
    assert ("-" + t)[1..] == t;
  }

  /** Two strings with the same prefix and suffix are equal when the whole strings are. */
  lemma MiddleOfEqual(p: string, a: string, b: string, t: string)
    requires p + (a + t) == p + (b + t)
    ensures a == b
  {
    assert |a| == |b|;
    assert a == (p + (a + t))[|p|..|p| + |a|];
    assert b == (p + (b + t))[|p|..|p| + |b|];
  }

  /** Different integers have different decimal texts. */
  lemma IntToStringInjective(x: int, y: int)
    ensures IntToString(x) == IntToString(y) ==> x == y
  {
    IntToStringRoundTrip(x);
    IntToStringRoundTrip(y);
  }

  /** Reading back the decimal text of an integer gives the integer. */
  lemma IntToStringRoundTrip(n: int)
    ensures ParseInt(IntToString(n)) == n
  {
    if n < 0 {
      var m: nat := -n;
      var t := NatToString(m);
      ParseNatToString(m);
      ParseNegated(t);
      assert IntToString(n) == "-" + t;
    } else {
      var m: nat := n;
      var t := NatToString(m);
      ParseNatToString(m);
      ParseDigits(t);
      assert IntToString(n) == t;
    }
  }
}
