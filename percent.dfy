/** `decodeURIComponent`: ECMAScript's Decode operation with an empty reserved
    set. A `%XX` escape stands for one octet (section 2.1 of RFC 3986); octets of
    0x80 and above must form one well-formed UTF-8 sequence (RFC 3629), and any
    malformed escape makes the whole call fail, which is `None` here. */
module Percent {
  import opened Wrappers

  function HexValue(c: char): Option<nat>
  {
    if '0' <= c <= '9' then Some(c as int - '0' as int)
    else if 'a' <= c <= 'f' then Some(c as int - 'a' as int + 10)
    else if 'A' <= c <= 'F' then Some(c as int - 'A' as int + 10)
    else None
  }

  /** The octet written by the escape `%XX` at index k, if there is one. */
  function EscapeAt(s: string, k: nat): (r: Option<nat>)
    ensures r.Some? ==> r.value < 256 && k + 3 <= |s| && s[k] == '%'
  {
    if k + 3 <= |s| && s[k] == '%' && HexValue(s[k + 1]).Some? && HexValue(s[k + 2]).Some? then
      var hi := HexValue(s[k + 1]).value;
      var lo := HexValue(s[k + 2]).value;
      assert hi < 16 && lo < 16;
      Some(hi * 16 + lo)
    else None
  }

  /** Number of octets of the UTF-8 sequence a lead octet announces (0 = not a lead octet). */
  function SequenceLength(b: nat): nat
  {
    if b < 0x80 then 1
    else if 0xC0 <= b < 0xE0 then 2
    else if 0xE0 <= b < 0xF0 then 3
    else if 0xF0 <= b < 0xF8 then 4
    else 0
  }

  /** The code point of the `count` continuation escapes starting at k, added to `acc`. */
  function Continuations(s: string, k: nat, count: nat, acc: nat): (r: Option<nat>)
    ensures r.Some? && count > 0 ==> k + 3 * count <= |s|
    decreases count
  {
    if count == 0 then Some(acc)
    else match EscapeAt(s, k)
      case None => None
      case Some(b) =>
        if 0x80 <= b < 0xC0 then Continuations(s, k + 3, count - 1, acc * 64 + (b - 0x80))
        else None
  }

  /** The scalar value a well-formed sequence of n octets may encode. */
  predicate InRangeFor(n: nat, cp: nat)
  {
    (n == 2 && 0x80 <= cp <= 0x7FF)
    || (n == 3 && 0x800 <= cp <= 0xFFFF && !(0xD800 <= cp <= 0xDFFF))
    || (n == 4 && 0x10000 <= cp <= 0x10FFFF)
  }

  /** Decoding of s[k..]: `None` exactly when Decode throws a URIError. */
  function DecodeFrom(s: string, k: nat): Option<string>
    decreases |s| - k
  {
    if k >= |s| then Some("")
    else if s[k] != '%' then
      match DecodeFrom(s, k + 1)
      case None => None
      case Some(rest) => Some([s[k]] + rest)
    else
      match EscapeAt(s, k)
      case None => None
      case Some(b) =>
        var n := SequenceLength(b);
        if n == 1 then
          match DecodeFrom(s, k + 3)
          case None => None
          case Some(rest) => Some([b as char] + rest)
        else if n == 0 then None
        else
          var lead := if n == 2 then b - 0xC0 else if n == 3 then b - 0xE0 else b - 0xF0;
          match Continuations(s, k + 3, n - 1, lead)
          case None => None
          case Some(cp) =>
            if InRangeFor(n, cp) then
              match DecodeFrom(s, k + 3 * n)
              case None => None
              case Some(rest) => Some([cp as char] + rest)
            else None
  }

  /** `decodeURIComponent(s)`, or `None` where it throws a URIError. */
  function Decode(s: string): Option<string>
  {
    DecodeFrom(s, 0)
  }

  /** Text without `%` decodes to itself, and a decoding never lengthens the text. */
  lemma DecodeFacts(s: string)
    ensures '%' !in s ==> Decode(s) == Some(s)
    ensures Decode(s).Some? ==> |Decode(s).value| <= |s|
  {
    if '%' !in s {
      assert s[0..] == s;
      DecodeWithoutPercent(s, 0);
    }
    if Decode(s).Some? {
      DecodeShortens(s, 0);
    }
  }

  /** `try { decodeURIComponent(s) } catch { s }`: the call used throughout the tools. */
  function DecodeOrKeep(s: string): string
  {
    Decode(s).UnwrapOr(s)
  }

  /** Text without `%` decodes to itself. */
  lemma {:induction false} DecodeWithoutPercent(s: string, k: nat)
    requires k <= |s|
    requires '%' !in s[k..]
    ensures DecodeFrom(s, k) == Some(s[k..])
    decreases |s| - k
  {
    if k < |s| {
      assert s[k] == s[k..][0];
      assert s[k + 1..] == s[k..][1..];
      assert s[k] != '%';
      DecodeWithoutPercent(s, k + 1);
      assert DecodeFrom(s, k) == Some([s[k]] + s[k + 1..]);
      assert s[k..] == [s[k]] + s[k + 1..];
    } else {
      assert s[k..] == [];
    }
  }

  /** Decoding never lengthens a string: each escape of three characters yields at most one. */
  lemma {:induction false} DecodeShortens(s: string, k: nat)
    requires DecodeFrom(s, k).Some?
    ensures k <= |s| ==> |DecodeFrom(s, k).value| <= |s| - k
    decreases |s| - k
  {
    if k < |s| {
      if s[k] != '%' {
        DecodeShortens(s, k + 1);
      } else {
        var b := EscapeAt(s, k).value;
        var n := SequenceLength(b);
        if n == 1 {
          DecodeShortens(s, k + 3);
        } else {
          DecodeShortens(s, k + 3 * n);
        }
      }
    }
  }
}
