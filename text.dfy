/** String helpers with JavaScript's semantics: the `\s` class, `trim`,
    ASCII case mapping, prefix and substring tests, `split`, `indexOf`. */
module Text {
  import opened Wrappers

  /** JavaScript's `\s` class; `String.prototype.trim` removes exactly these. */
  predicate IsSpace(c: char)
  {
    c == ' ' || c == '\t' || c == '\n' || c == '\U{000B}' || c == '\U{000C}' || c == '\r'
    || c == '\U{00A0}' || c == '\U{1680}' || ('\U{2000}' <= c <= '\U{200A}')
    || c == '\U{2028}' || c == '\U{2029}' || c == '\U{202F}' || c == '\U{205F}'
    || c == '\U{3000}' || c == '\U{FEFF}'
  }

  /** The characters `.` in a JavaScript regular expression does not match. */
  predicate IsLineTerminator(c: char)
  {
    c == '\n' || c == '\r' || c == '\U{2028}' || c == '\U{2029}'
  }

  predicate IsAsciiDigit(c: char) { '0' <= c <= '9' }

  predicate IsAsciiLetter(c: char) { 'a' <= c <= 'z' || 'A' <= c <= 'Z' }

  predicate IsAsciiAlnum(c: char) { IsAsciiDigit(c) || IsAsciiLetter(c) }

  /** JavaScript's `\w` class. */
  predicate IsWordChar(c: char) { IsAsciiAlnum(c) || c == '_' }

  predicate AllSpace(s: string) { forall i :: 0 <= i < |s| ==> IsSpace(s[i]) }

  predicate NoSpace(s: string) { forall i :: 0 <= i < |s| ==> !IsSpace(s[i]) }

  /** Number of leading `\s` characters. */
  function SpaceRun(s: string): (n: nat)
    ensures n <= |s|
    ensures AllSpace(s[..n])
    ensures n < |s| ==> !IsSpace(s[n])
  {
    if s == [] || !IsSpace(s[0]) then 0
    else
      var m := SpaceRun(s[1..]);
      assert s[..m + 1] == [s[0]] + s[1..][..m];
      m + 1
  }

  /** Number of trailing `\s` characters. */
  function TrailingSpaceRun(s: string): (n: nat)
    ensures n <= |s|
    ensures forall i :: |s| - n <= i < |s| ==> IsSpace(s[i])
    ensures n < |s| ==> !IsSpace(s[|s| - n - 1])
  {
    if s == [] || !IsSpace(s[|s| - 1]) then 0
    else TrailingSpaceRun(s[..|s| - 1]) + 1
  }

  function TrimStart(s: string): (r: string)
    ensures r == s[SpaceRun(s)..]
  {
    s[SpaceRun(s)..]
  }

  function TrimEnd(s: string): (r: string)
    ensures r == s[..|s| - TrailingSpaceRun(s)]
  {
    s[..|s| - TrailingSpaceRun(s)]
  }

  /** `String.prototype.trim`. */
  function Trim(s: string): string
  {
    TrimEnd(TrimStart(s))
  }

  predicate IsTrimmed(s: string)
  {
    s == [] || (!IsSpace(s[0]) && !IsSpace(s[|s| - 1]))
  }

  lemma TrimmedShape(s: string)
    ensures IsTrimmed(Trim(s))
    ensures |Trim(s)| <= |s|
  {
    var t := TrimStart(s);
    var k := TrailingSpaceRun(t);
    if k < |t| {
      if SpaceRun(s) < |s| {
        assert t[0] == s[SpaceRun(s)];
      }
      assert Trim(s)[0] == t[0];
      assert Trim(s)[|Trim(s)| - 1] == t[|t| - k - 1];
    }
  }

  lemma TrimOfTrimmed(s: string)
    requires IsTrimmed(s)
    ensures Trim(s) == s
  {
    assert SpaceRun(s) == 0;
    assert TrimStart(s) == s;
    assert TrailingSpaceRun(s) == 0;
  }

  lemma TrimIdempotent(s: string)
    ensures Trim(Trim(s)) == Trim(s)
  {
    TrimmedShape(s);
    TrimOfTrimmed(Trim(s));
  }

  /** `trimStart` leaves nothing exactly when everything is whitespace, and
      otherwise starts with a character that is not. */
  lemma TrimStartShape(s: string)
    ensures TrimStart(s) == [] <==> AllSpace(s)
    ensures TrimStart(s) != [] ==> !IsSpace(TrimStart(s)[0])
  {
    assert s[..|s|] == s;
    if AllSpace(s) {
      SpaceRunCovers(s, |s|);
    }
    if SpaceRun(s) < |s| {
      assert TrimStart(s)[0] == s[SpaceRun(s)];
    }
  }

  /** Trimming leaves nothing exactly when everything is whitespace. */
  lemma TrimEmpty(s: string)
    ensures Trim(s) == [] <==> AllSpace(s)
  {
    var k := SpaceRun(s);
    assert s[..|s|] == s;
    if AllSpace(s) {
      SpaceRunCovers(s, |s|);
    }
    if k < |s| {
      var t := s[k..];
      assert t[0] == s[k];
      assert TrailingSpaceRun(t) < |t|;
    }
  }

  /** When nothing but `\s` precedes position k, trimming from k gives the same result. */
  lemma TrimAfterSpacePrefix(s: string, k: nat)
    requires k <= |s| && AllSpace(s[..k])
    ensures Trim(s[k..]) == Trim(s)
  {
    SpaceRunCovers(s, k);
    SpaceRunShift(s, k);
    assert TrimStart(s[k..]) == TrimStart(s);
  }

  lemma {:induction false} SpaceRunCovers(s: string, k: nat)
    requires k <= |s| && AllSpace(s[..k])
    ensures k <= SpaceRun(s)
  {
    if k > 0 {
      assert IsSpace(s[..k][0]);
      assert s[1..][..k - 1] == s[..k][1..];
      SpaceRunCovers(s[1..], k - 1);
    }
  }

  /** The leading whitespace ends exactly before the first other character. */
  lemma {:induction false} SpaceRunExact(s: string, k: nat)
    requires k <= |s| && AllSpace(s[..k])
    requires k < |s| ==> !IsSpace(s[k])
    ensures SpaceRun(s) == k
  {
    if k > 0 {
      assert IsSpace(s[..k][0]);
      assert s[1..][..k - 1] == s[..k][1..];
      SpaceRunExact(s[1..], k - 1);
    }
  }

  lemma SpaceRunShift(s: string, k: nat)
    requires k <= SpaceRun(s)
    ensures SpaceRun(s[k..]) == SpaceRun(s) - k
    ensures s[k..][SpaceRun(s[k..])..] == s[SpaceRun(s)..]
    decreases k
  {
    if k > 0 {
      SpaceRunShift(s[1..], k - 1);
      assert s[1..][k - 1..] == s[k..];
    }
  }

  /** `toLowerCase` on one character, for the ranges this model keeps: ASCII,
      Latin-1, basic Greek and Cyrillic capitals, and fullwidth Latin capitals. */
  function LowerChar(c: char): (r: char)
    ensures !('A' <= r <= 'Z')
    ensures IsSpace(r) <==> IsSpace(c)
  {
    if 'A' <= c <= 'Z'
      || ('\U{00C0}' <= c <= '\U{00DE}' && c != '\U{00D7}')
      || ('\U{0391}' <= c <= '\U{03A9}' && c != '\U{03A2}')
      || ('\U{0410}' <= c <= '\U{042F}')
      || ('\U{FF21}' <= c <= '\U{FF3A}')
    then (c as int + 32) as char
    else c
  }

  lemma LowerCharIdempotent(c: char)
    ensures LowerChar(LowerChar(c)) == LowerChar(c)
  {
  }

  function UpperChar(c: char): (r: char)
    ensures !('a' <= r <= 'z')
  {
    if 'a' <= c <= 'z' then (c as int - 32) as char else c
  }

  function Lower(s: string): (r: string)
    ensures |r| == |s|
    ensures forall i :: 0 <= i < |s| ==> r[i] == LowerChar(s[i])
  {
    if s == [] then [] else [LowerChar(s[0])] + Lower(s[1..])
  }

  /** A word of ASCII lower-case letters is its own trimmed lower case. */
  lemma LowerWord(s: string)
    requires forall i :: 0 <= i < |s| ==> 'a' <= s[i] <= 'z'
    ensures Trim(s) == s && Lower(s) == s
  {
    if s != [] {
      assert 'a' <= s[0] <= 'z' && 'a' <= s[|s| - 1] <= 'z';
    }
    TrimOfTrimmed(s);
    LowerOfLowerLetters(s);
  }

  lemma LowerOfLowerLetters(s: string)
    requires forall i :: 0 <= i < |s| ==> 'a' <= s[i] <= 'z'
    ensures Lower(s) == s
  {
    var r := Lower(s);
    forall i | 0 <= i < |s|
      ensures r[i] == s[i]
    {
      LowerCharOfLower(s[i]);
    }
  }

  lemma LowerCharOfLower(c: char)
    requires 'a' <= c <= 'z'
    ensures LowerChar(c) == c
  {
  }

  function Upper(s: string): (r: string)
    ensures |r| == |s|
    ensures forall i :: 0 <= i < |s| ==> r[i] == UpperChar(s[i])
  {
    if s == [] then [] else [UpperChar(s[0])] + Upper(s[1..])
  }

  /** The UTF-16 code units of `c`: two for a character above the Basic
      Multilingual Plane, one otherwise. */
  function Utf16Units(c: char): nat
  {
    if c as int >= 0x10000 then 2 else 1
  }

  /** JavaScript's `s.length`: the UTF-16 code units of `s`. */
  function Utf16Length(s: string): (n: nat)
    ensures |s| <= n <= 2 * |s|
  {
    if s == [] then 0 else Utf16Units(s[0]) + Utf16Length(s[1..])
  }

  /** Within the Basic Multilingual Plane the code units are the characters. */
  lemma {:induction false} Utf16LengthBmp(s: string)
    requires forall i :: 0 <= i < |s| ==> s[i] as int < 0x10000
    ensures Utf16Length(s) == |s|
  {
    if s != [] {
      assert s[0] as int < 0x10000;
      Utf16LengthBmp(s[1..]);
    }
  }

  /** The longest prefix of `s` holding at most `max` UTF-16 code units. */
  function Utf16Prefix(s: string, max: nat): (p: string)
    ensures |p| <= |s| && p == s[..|p|] && Utf16Length(p) <= max
    ensures |p| < |s| ==> Utf16Length(p) + Utf16Units(s[|p|]) > max
  {
    if s == [] || Utf16Units(s[0]) > max then []
    else
      var rest := Utf16Prefix(s[1..], max - Utf16Units(s[0]));
      assert ([s[0]] + rest)[1..] == rest;
      [s[0]] + rest
  }

  predicate StartsWith(s: string, p: string)
  {
    |p| <= |s| && s[..|p|] == p
  }

  predicate EndsWith(s: string, p: string)
  {
    |p| <= |s| && s[|s| - |p|..] == p
  }

  /** `sub` occurs in `s` at index i. */
  predicate OccursAt(s: string, sub: string, i: nat)
  {
    i + |sub| <= |s| && s[i..i + |sub|] == sub
  }

  /** First index at or after `from` where `sub` occurs. */
  function FindFrom(s: string, sub: string, from: nat): (r: Option<nat>)
    ensures r.Some? ==> from <= r.value && OccursAt(s, sub, r.value)
    ensures r.Some? ==> forall j :: from <= j < r.value ==> !OccursAt(s, sub, j)
    ensures r.None? ==> forall j :: from <= j ==> !OccursAt(s, sub, j)
    decreases |s| - from
  {
    if from + |sub| > |s| then None
    else if s[from..from + |sub|] == sub then Some(from)
    else FindFrom(s, sub, from + 1)
  }

  /** `String.prototype.includes`. */
  predicate Contains(s: string, sub: string)
  {
    FindFrom(s, sub, 0).Some?
  }

  /** Index of the first `c`, or |s|. */
  function IndexOfChar(s: string, c: char): (k: nat)
    ensures k <= |s|
    ensures c !in s[..k]
    ensures k < |s| ==> s[k] == c
    ensures k == |s| <==> c !in s
  {
    if s == [] then 0
    else if s[0] == c then 0
    else
      var k := IndexOfChar(s[1..], c);
      assert s[..k + 1] == [s[0]] + s[1..][..k];
      k + 1
  }

  /** The three facts `IndexOfChar` promises determine it. */
  lemma IndexOfCharUnique(s: string, c: char, k: nat)
    requires k <= |s| && c !in s[..k]
    requires k < |s| ==> s[k] == c
    requires k == |s| ==> c !in s
    ensures IndexOfChar(s, c) == k
  {
    var j := IndexOfChar(s, c);
    if j != k {
      assert false;
    }
  }

  /** `s.split(c)[0]`: the text before the first `c`. */
  function BeforeChar(s: string, c: char): (r: string)
    ensures c !in r
    ensures StartsWith(s, r)
  {
    s[..IndexOfChar(s, c)]
  }

  /** `s.split(c)`: the pieces between occurrences of `c`, in order. */
  function Split(s: string, c: char): (parts: seq<string>)
    ensures |parts| >= 1
    decreases |s|
  {
    var k := IndexOfChar(s, c);
    if k == |s| then [s]
    else [s[..k]] + Split(s[k + 1..], c)
  }

  /** Regrouping a concatenation that starts with one element. */
  lemma ConsAppend<T>(x: T, p: seq<T>, q: seq<T>)
    ensures [x] + (p + q) == [x] + p + q
  {
  }

  /** No part of a split holds the separator. */
  lemma {:induction false} SplitPartsFree(s: string, c: char)
    ensures forall p :: p in Split(s, c) ==> c !in p
    decreases |s|
  {
    var k := IndexOfChar(s, c);
    if k < |s| {
      SplitPartsFree(s[k + 1..], c);
    }
  }

  /** `Split` cut at the first separator, at index `k`. */
  lemma SplitAt(s: string, c: char, k: nat)
    requires k < |s| && c !in s[..k] && s[k] == c
    ensures Split(s, c) == [s[..k]] + Split(s[k + 1..], c)
  {
    IndexOfCharUnique(s, c, k);
  }

  /** A string without the separator is one part. */
  lemma SplitWhole(s: string, c: char)
    requires c !in s
    ensures Split(s, c) == [s]
  {
    IndexOfCharUnique(s, c, |s|);
  }

  /** Splitting at a separator splits each side. */
  lemma {:induction false} SplitAppend(a: string, b: string, c: char)
    ensures Split(a + [c] + b, c) == Split(a, c) + Split(b, c)
    decreases |a|
  {
    var s := a + [c] + b;
    var k := IndexOfChar(a, c);
    assert s[..k] == a[..k];
    if k < |a| {
      assert s[k] == a[k];
      var rest := a[k + 1..];
      assert s[k + 1..] == rest + [c] + b;
      SplitAt(s, c, k);
      SplitAt(a, c, k);
      SplitAppend(rest, b, c);
      var p, q := Split(rest, c), Split(b, c);
      assert Split(s, c) == [a[..k]] + (p + q);
      assert Split(a, c) == [a[..k]] + p;
      ConsAppend(a[..k], p, q);
    } else {
      assert s[..|a|] == a;
      SplitAt(s, c, |a|);
      SplitWhole(a, c);
      assert s[|a| + 1..] == b;
    }
  }

  /** Cutting a join at its separator gives the parts back. */
  lemma {:induction false} SplitJoin(xs: seq<string>, c: char)
    requires xs != [] && forall i :: 0 <= i < |xs| ==> c !in xs[i]
    ensures Split(JoinWith(xs, [c]), c) == xs
  {
    if |xs| == 1 {
      SplitWhole(xs[0], c);
    } else {
      var tail := JoinWith(xs[1..], [c]);
      assert JoinWith(xs, [c]) == xs[0] + [c] + tail;
      SplitJoin(xs[1..], c);
      SplitAppend(xs[0], tail, c);
      SplitWhole(xs[0], c);
      assert xs == [xs[0]] + xs[1..];
    }
  }

  /** Number of occurrences of `c` in `s`. */
  function CountChar(s: string, c: char): nat
  {
    if s == [] then 0 else (if s[0] == c then 1 else 0) + CountChar(s[1..], c)
  }

  lemma {:induction false} SplitLength(s: string, c: char)
    ensures |Split(s, c)| == CountChar(s, c) + 1
    decreases |s|
  {
    var k := IndexOfChar(s, c);
    if k < |s| {
      SplitLength(s[k + 1..], c);
      CountCharSplitAt(s, c, k);
    } else {
      CountCharAbsent(s, c);
    }
  }

  lemma {:induction false} CountCharAbsent(s: string, c: char)
    requires c !in s
    ensures CountChar(s, c) == 0
  {
    if s != [] {
      CountCharAbsent(s[1..], c);
    }
  }

  lemma {:induction false} CountCharSplitAt(s: string, c: char, k: nat)
    requires k < |s| && s[k] == c && c !in s[..k]
    ensures CountChar(s, c) == 1 + CountChar(s[k + 1..], c)
    decreases k
  {
    if k > 0 {
      assert s[1..][..k - 1] == s[1..k];
      assert s[1..][k - 1] == c;
      CountCharSplitAt(s[1..], c, k - 1);
      assert s[1..][k..] == s[k + 1..];
    }
  }

  /** Concatenate strings putting `sep` between consecutive ones (`Array.prototype.join`). */
  function JoinWith(parts: seq<string>, sep: string): string
  {
    if parts == [] then ""
    else if |parts| == 1 then parts[0]
    else parts[0] + sep + JoinWith(parts[1..], sep)
  }

  function DigitChar(d: nat): char
    requires d < 10
  {
    ('0' as int + d) as char
  }

  /** Decimal rendering of a natural number (`String(n)`). */
  function NatToString(n: nat): (r: string)
    ensures |r| >= 1
    ensures forall i :: 0 <= i < |r| ==> IsAsciiDigit(r[i])
  {
    if n < 10 then [DigitChar(n)] else NatToString(n / 10) + [DigitChar(n % 10)]
  }

  /** The number a run of decimal digits spells. */
  function DecimalValue(s: string): nat
    requires forall i :: 0 <= i < |s| ==> IsAsciiDigit(s[i])
  {
    if s == [] then 0
    else
      assert IsAsciiDigit(s[|s| - 1]);
      DecimalValue(s[..|s| - 1]) * 10 + (s[|s| - 1] as int - '0' as int)
  }

  /** `String(n)` reads back as `n`. */
  lemma {:induction false} DecimalValueOf(n: nat)
    ensures DecimalValue(NatToString(n)) == n
  {
    var r := NatToString(n);
    if n >= 10 {
      DecimalValueOf(n / 10);
      assert r[..|r| - 1] == NatToString(n / 10);
    }
  }

  /** Distinct numbers are written differently, so `String(i)` keys never clash. */
  lemma NatToStringInjective(i: nat, j: nat)
    requires NatToString(i) == NatToString(j)
    ensures i == j
  {
    DecimalValueOf(i);
    DecimalValueOf(j);
  }

  /** Decimal rendering of an integer. */
  function IntToString(n: int): string
  {
    if n < 0 then "-" + NatToString(-n) else NatToString(n)
  }

  /** `s.padStart(width, c)`. */
  function PadStart(s: string, width: nat, c: char): (r: string)
    ensures |r| == if |s| >= width then |s| else width
    ensures EndsWith(r, s)
  {
    if |s| >= width then s else seq(width - |s|, _ => c) + s
  }

  /** Replace every occurrence of character `from` by `to` (`s.replace(/x/g, y)`). */
  function ReplaceChar(s: string, from: char, to: char): (r: string)
    ensures |r| == |s|
    ensures forall i :: 0 <= i < |s| ==> r[i] == (if s[i] == from then to else s[i])
  {
    if s == [] then [] else [if s[0] == from then to else s[0]] + ReplaceChar(s[1..], from, to)
  }
}
