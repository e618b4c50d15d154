/** The Unicode quality checker: codepoint spellings, the classification of
    suspicious codepoints, the allowlist, and the scan that reports every
    classified character of a text with its line and column. */
module UnicodeChecking {
  import opened Wrappers
  import opened Text
  import JsMap

  // ---------------------------------------------------------------------------
  // Hexadecimal spelling of codepoints
  // ---------------------------------------------------------------------------

  /** The digits accepted after `toUpperCase`: `[0-9A-F]`. */
  predicate IsHexDigit(c: char)
  {
    '0' <= c <= '9' || 'A' <= c <= 'F'
  }

  predicate AllHex(d: string)
  {
    forall i :: 0 <= i < |d| ==> IsHexDigit(d[i])
  }

  function HexDigit(v: nat): (c: char)
    requires v < 16
    ensures IsHexDigit(c)
  {
    if v < 10 then ('0' as int + v) as char else ('A' as int + v - 10) as char
  }

  function HexDigitValue(c: char): (v: nat)
    requires IsHexDigit(c)
    ensures v < 16 && HexDigit(v) == c
  {
    if c <= '9' then c as int - '0' as int else c as int - 'A' as int + 10
  }

  /** `n.toString(16).toUpperCase()` for a natural number. */
  function HexNat(n: nat): (r: string)
    ensures |r| >= 1 && AllHex(r)
  {
    if n < 16 then [HexDigit(n)] else HexNat(n / 16) + [HexDigit(n % 16)]
  }

  /** `n.toString(16).toUpperCase()` for an integer: a minus sign before the
      digits of a negative number. */
  function HexInt(n: int): string
  {
    if n < 0 then "-" + HexNat(-n) else HexNat(n)
  }

  /** The number a string of hexadecimal digits denotes. */
  function HexValue(d: string): nat
    requires AllHex(d)
  {
    if d == [] then 0 else HexValue(d[..|d| - 1]) * 16 + HexDigitValue(d[|d| - 1])
  }

  function Pow16(k: nat): (p: nat)
    ensures p >= 1
  {
    if k == 0 then 1 else 16 * Pow16(k - 1)
  }

  /** Reading back the digits gives the number. */
  lemma {:induction false} HexNatValue(n: nat)
    ensures HexValue(HexNat(n)) == n
  {
    if n >= 16 {
      HexNatValue(n / 16);
      var d := HexNat(n);
      assert d[..|d| - 1] == HexNat(n / 16);
    }
  }

  /** A number below 16^k takes at most k digits. */
  lemma {:induction false} HexNatLength(n: nat, k: nat)
    requires 1 <= k && n < Pow16(k)
    ensures |HexNat(n)| <= k
  {
    if n >= 16 {
      assert k != 1;
      assert n / 16 < Pow16(k - 1);
      HexNatLength(n / 16, k - 1);
    }
  }

  /** Leading zeros do not change the value of a digit string. */
  lemma {:induction false} LeadingZerosValue(z: nat, d: string)
    requires AllHex(d)
    ensures AllHex(seq(z, _ => '0') + d)
    ensures HexValue(seq(z, _ => '0') + d) == HexValue(d)
    decreases |d|, z
  {
    var zs := seq(z, _ => '0');
    var s := zs + d;
    assert AllHex(s) by {
      forall i | 0 <= i < |s| ensures IsHexDigit(s[i]) {
        if i >= z { assert s[i] == d[i - z]; }
      }
    }
    if d == [] {
      if z > 0 {
        var zs' := seq(z - 1, _ => '0');
        assert s[..|s| - 1] == zs' + [];
        LeadingZerosValue(z - 1, []);
      }
    } else {
      assert s[..|s| - 1] == zs + d[..|d| - 1];
      LeadingZerosValue(z, d[..|d| - 1]);
    }
  }

  /** `toCodepoint`: `U+` and the uppercase hexadecimal digits, at least four. */
  function ToCodepoint(cp: int): (r: string)
    ensures |r| >= 6 && r[..2] == "U+"
  {
    "U+" + PadStart(HexInt(cp), 4, '0')
  }

  /** For a codepoint the digits read back as the codepoint itself, so distinct
      codepoints have distinct spellings, and a Unicode codepoint takes
      four to six digits. */
  lemma CodepointDigits(cp: nat)
    ensures AllHex(ToCodepoint(cp)[2..])
    ensures HexValue(ToCodepoint(cp)[2..]) == cp
  {
    var h := HexNat(cp);
    assert HexInt(cp) == h;
    var d := PadStart(h, 4, '0');
    assert ToCodepoint(cp)[2..] == d;
    HexNatValue(cp);
    if |h| < 4 {
      LeadingZerosValue(4 - |h|, h);
      assert d == seq(4 - |h|, _ => '0') + h;
    }
  }

  lemma CodepointWidth(cp: nat)
    requires cp <= 0x10FFFF
    ensures |ToCodepoint(cp)| <= 8
  {
    assert Pow16(6) == 0x1000000;
    HexNatLength(cp, 6);
  }

  lemma ToCodepointInjective(a: nat, b: nat)
    requires ToCodepoint(a) == ToCodepoint(b)
    ensures a == b
  {
    CodepointDigits(a);
    CodepointDigits(b);
  }

  // ---------------------------------------------------------------------------
  // normalizeCodepoint
  // ---------------------------------------------------------------------------

  /** A value read from the allowlist JSON: null or undefined, a finite integer,
      a non-finite number, a string, or anything else. */
  datatype RawValue = Missing | Number(n: int) | NonFinite | Str(s: string) | OtherValue

  /** Four to six hexadecimal digits. */
  predicate HexField(d: string)
  {
    4 <= |d| <= 6 && AllHex(d)
  }

  /** `u` is the digits `d` with an optional `U+` or `0X` prefix: what
      `/^(?:U\+|0X)?([0-9A-F]{4,6})$/` matches, `d` being the captured group. */
  predicate Spells(u: string, d: string)
  {
    HexField(d) && (u == d || u == "U+" + d || u == "0X" + d)
  }

  /** The text the capture group would hold: `u` without a `U+` or `0X` prefix. */
  function Unprefixed(u: string): string
  {
    if StartsWith(u, "U+") || StartsWith(u, "0X") then u[2..] else u
  }

  /** Whatever digits `u` spells are what remains once the prefix is removed:
      the pattern has one way to match. */
  lemma SpellsUnprefixed(u: string, d: string)
    requires Spells(u, d)
    ensures Unprefixed(u) == d
  {
    if u == "U+" + d || u == "0X" + d {
      assert u[..2] == "U+" || u[..2] == "0X";
      assert u[2..] == d;
    } else {
      assert IsHexDigit(u[1]);
      assert u[..2] != "U+" && u[..2] != "0X";
    }
  }

  /** The captured group of the codepoint pattern, if `u` matches it. */
  function MatchDigits(u: string): (r: Option<string>)
    ensures r.Some? ==> Spells(u, r.value)
    ensures forall d :: Spells(u, d) ==> r == Some(d)
  {
    assert forall d :: Spells(u, d) ==> Unprefixed(u) == d by {
      forall d | Spells(u, d) ensures Unprefixed(u) == d {
        SpellsUnprefixed(u, d);
      }
    }
    var d := Unprefixed(u);
    if HexField(d) then
      assert StartsWith(u, "U+") ==> u == "U+" + d;
      assert StartsWith(u, "0X") ==> u == "0X" + d;
      Some(d)
    else None
  }

  /** `normalizeCodepoint`: a finite number is spelled as `toCodepoint` does;
      a string is trimmed and upper-cased and must then match the codepoint
      pattern, giving `U+` and its digits; anything else gives nothing. */
  function NormalizeCodepoint(value: RawValue): (r: Option<string>)
    ensures value.Number? ==> r == Some(ToCodepoint(value.n))
    ensures value.Str? ==> forall d :: Spells(Upper(Trim(value.s)), d) ==> r == Some("U+" + d)
    ensures value.Str? && r.Some? ==>
      |r.value| >= 6 && r.value[..2] == "U+" && Spells(Upper(Trim(value.s)), r.value[2..])
    ensures !value.Number? && !value.Str? ==> r.None?
  {
    match value
    case Number(n) => Some(ToCodepoint(n))
    case Str(s) =>
      var trimmed := Trim(s);
      if trimmed == [] then None
      else
        var m := MatchDigits(Upper(trimmed));
        if m.None? then None
        else
          assert PadStart(m.value, 4, '0') == m.value;
          Some("U+" + m.value)
    case _ => None
  }

  /** Each of the three spellings of four to six uppercase digits is accepted
      and normalised to the `U+` one. */
  lemma SpellingAccepted(u: string, d: string)
    requires Spells(u, d)
    ensures NormalizeCodepoint(Str(u)) == Some("U+" + d)
  {
    if u != d {
      assert forall i :: 2 <= i < |u| ==> u[i] == d[i - 2];
    }
    assert UpperHexText(u);
    UpperHexFixed(u);
  }

  /** Digits, `U`, `+` and `X`: the characters of a codepoint spelling. */
  predicate UpperHexText(u: string)
  {
    forall i :: 0 <= i < |u| ==> IsHexDigit(u[i]) || u[i] == 'U' || u[i] == '+' || u[i] == 'X'
  }

  lemma UpperHexFixed(u: string)
    requires UpperHexText(u)
    ensures Upper(Trim(u)) == u
  {
    assert IsTrimmed(u);
    TrimOfTrimmed(u);
    UpperFixed(u);
  }

  /** Text without lowercase ASCII letters is its own upper case. */
  lemma UpperFixed(u: string)
    requires forall i :: 0 <= i < |u| ==> !('a' <= u[i] <= 'z')
    ensures Upper(u) == u
  {
    assert forall i :: 0 <= i < |u| ==> Upper(u)[i] == u[i];
  }

  /** Normalising is idempotent. */
  lemma NormalizeIdempotent(value: RawValue)
    requires value.Str? && NormalizeCodepoint(value).Some?
    ensures NormalizeCodepoint(Str(NormalizeCodepoint(value).value)) == NormalizeCodepoint(value)
  {
    var r := NormalizeCodepoint(value).value;
    assert r == "U+" + r[2..];
    SpellingAccepted("U+" + r[2..], r[2..]);
  }

  /** What `toCodepoint` prints for a Unicode codepoint is accepted by the
      allowlist as it stands, so the report's spelling can be copied into it. */
  lemma ToCodepointNormal(cp: nat)
    requires cp <= 0x10FFFF
    ensures NormalizeCodepoint(Str(ToCodepoint(cp))) == Some(ToCodepoint(cp))
  {
    CodepointDigits(cp);
    CodepointWidth(cp);
    var d := ToCodepoint(cp)[2..];
    assert ToCodepoint(cp) == "U+" + d;
    SpellingAccepted("U+" + d, d);
  }

  /** Leading whitespace does not change the result. */
  lemma NormalizeIgnoresLeadingSpace(s: string, k: nat)
    requires k <= |s| && AllSpace(s[..k])
    ensures NormalizeCodepoint(Str(s[k..])) == NormalizeCodepoint(Str(s))
  {
    TrimAfterSpacePrefix(s, k);
  }

  // ---------------------------------------------------------------------------
  // classifyCodepoint
  // ---------------------------------------------------------------------------

  datatype Severity = SevError | SevWarning

  function SeverityName(s: Severity): string
  {
    match s
    case SevError => "error"
    case SevWarning => "warning"
  }

  datatype Kind =
    | ReplacementCharacter
    | NullCharacter
    | ControlCharacter
    | InvisibleCharacter
    | VariationSelector
    | CjkCompatibilityIdeograph
    | FullwidthAlnum
    | ConfusablePunctuation

  function KindName(k: Kind): string
  {
    match k
    case ReplacementCharacter => "replacement-character"
    case NullCharacter => "null-character"
    case ControlCharacter => "control-character"
    case InvisibleCharacter => "invisible-character"
    case VariationSelector => "variation-selector"
    case CjkCompatibilityIdeograph => "cjk-compatibility-ideograph"
    case FullwidthAlnum => "fullwidth-alnum"
    case ConfusablePunctuation => "confusable-punctuation"
  }

  /** The messages attached to classifications; `MessageText` gives their wording. */
  datatype Message =
    | ReplacementMessage
    | NullMessage
    | C0ControlMessage
    | C1ControlMessage
    | NbspMessage
    | ShyMessage
    | MongolianVowelSeparatorMessage
    | ZeroWidthSpaceMessage
    | ZeroWidthNonJoinerMessage
    | ZeroWidthJoinerMessage
    | WordJoinerMessage
    | BomMessage
    | LineSeparatorMessage
    | ParagraphSeparatorMessage
    | VariationSelectorMessage
    | CjkCompatibilityMessage
    | FullwidthAlnumMessage
    | MinusSignMessage

  function MessageText(m: Message): string
  {
    match m
    case ReplacementMessage => "REPLACEMENT CHARACTER (U+FFFD) を検出しました（文字化け/欠落の可能性）"
    case NullMessage => "NULL文字 (U+0000) を検出しました（ファイル破損/処理系の不具合につながる可能性）"
    case C0ControlMessage => "制御文字を検出しました（不可視/表示崩れの可能性）"
    case C1ControlMessage => "制御文字（C1）を検出しました（不可視/表示崩れの可能性）"
    case NbspMessage => "NO-BREAK SPACE (U+00A0) を検出しました（通常の半角スペースへ置換推奨）"
    case ShyMessage => "SOFT HYPHEN (U+00AD) を検出しました（不可視の改行制御の可能性）"
    case MongolianVowelSeparatorMessage => "MONGOLIAN VOWEL SEPARATOR (U+180E) を検出しました（不可視文字）"
    case ZeroWidthSpaceMessage => "ZERO WIDTH SPACE (U+200B) を検出しました（不可視文字）"
    case ZeroWidthNonJoinerMessage => "ZERO WIDTH NON-JOINER (U+200C) を検出しました（不可視文字）"
    case ZeroWidthJoinerMessage => "ZERO WIDTH JOINER (U+200D) を検出しました（不可視文字）"
    case WordJoinerMessage => "WORD JOINER (U+2060) を検出しました（不可視文字）"
    case BomMessage => "ZERO WIDTH NO-BREAK SPACE / BOM (U+FEFF) を検出しました（不可視文字）"
    case LineSeparatorMessage => "LINE SEPARATOR (U+2028) を検出しました（改行扱いで表示崩れの可能性）"
    case ParagraphSeparatorMessage => "PARAGRAPH SEPARATOR (U+2029) を検出しました（改行扱いで表示崩れの可能性）"
    case VariationSelectorMessage => "異体字セレクタ（Variation Selector）を検出しました（意図しない字形の可能性）"
    case CjkCompatibilityMessage => "CJK互換漢字を検出しました（通常の漢字に置換できるか確認してください）"
    case FullwidthAlnumMessage => "全角英数字を検出しました（半角への統一を推奨）"
    case MinusSignMessage => "紛らわしいマイナス記号（U+2212）を検出しました（ASCII \"-\" と混同に注意）"
  }

  datatype Classification = Classification(kind: Kind, severity: Severity, message: Message)

  /** The table of invisible and format characters, with their severity and message. */
  function InvisibleRule(cp: int): Option<(Severity, Message)>
  {
    match cp
    case 0x00A0 => Some((SevWarning, NbspMessage))
    case 0x00AD => Some((SevWarning, ShyMessage))
    case 0x180E => Some((SevError, MongolianVowelSeparatorMessage))
    case 0x200B => Some((SevError, ZeroWidthSpaceMessage))
    case 0x200C => Some((SevWarning, ZeroWidthNonJoinerMessage))
    case 0x200D => Some((SevWarning, ZeroWidthJoinerMessage))
    case 0x2060 => Some((SevError, WordJoinerMessage))
    case 0xFEFF => Some((SevWarning, BomMessage))
    case 0x2028 => Some((SevError, LineSeparatorMessage))
    case 0x2029 => Some((SevError, ParagraphSeparatorMessage))
    case _ => None
  }

  /** The codepoints reported as errors, listed by range. */
  predicate IsErrorCodepoint(cp: int)
  {
    cp == 0xFFFD
    || (0x00 <= cp <= 0x1F && cp != 0x09 && cp != 0x0A && cp != 0x0D)
    || cp == 0x7F
    || 0x80 <= cp <= 0x9F
    || cp == 0x180E || cp == 0x200B || cp == 0x2060 || cp == 0x2028 || cp == 0x2029
  }

  /** The codepoints reported as warnings, listed by range. Of the variation
      selectors only the supplement U+E0100..U+E01EF is included. */
  predicate IsWarningCodepoint(cp: int)
  {
    cp == 0x00A0 || cp == 0x00AD || cp == 0x200C || cp == 0x200D || cp == 0xFEFF
    || 0xE0100 <= cp <= 0xE01EF
    || 0xF900 <= cp <= 0xFAFF || 0x2F800 <= cp <= 0x2FA1F
    || 0xFF10 <= cp <= 0xFF19 || 0xFF21 <= cp <= 0xFF3A || 0xFF41 <= cp <= 0xFF5A
    || cp == 0x2212
  }

  /** `classifyCodepoint`, rule by rule in the order the source tries them. */
  function Classify(cp: int): Option<Classification>
  {
    if cp == 0xFFFD then
      Some(Classification(ReplacementCharacter, SevError, ReplacementMessage))
    else if cp == 0x0000 then
      Some(Classification(NullCharacter, SevError, NullMessage))
    else if (0x00 <= cp <= 0x1F && cp != 0x09 && cp != 0x0A && cp != 0x0D) || cp == 0x7F then
      Some(Classification(ControlCharacter, SevError, C0ControlMessage))
    else if 0x80 <= cp <= 0x9F then
      Some(Classification(ControlCharacter, SevError, C1ControlMessage))
    else if InvisibleRule(cp).Some? then
      Some(Classification(InvisibleCharacter, InvisibleRule(cp).value.0, InvisibleRule(cp).value.1))
    else if 0xE0100 <= cp <= 0xE01EF then
      Some(Classification(VariationSelector, SevWarning, VariationSelectorMessage))
    else if (0xF900 <= cp <= 0xFAFF) || (0x2F800 <= cp <= 0x2FA1F) then
      Some(Classification(CjkCompatibilityIdeograph, SevWarning, CjkCompatibilityMessage))
    else if (0xFF10 <= cp <= 0xFF19) || (0xFF21 <= cp <= 0xFF3A) || (0xFF41 <= cp <= 0xFF5A) then
      Some(Classification(FullwidthAlnum, SevWarning, FullwidthAlnumMessage))
    else if cp == 0x2212 then
      Some(Classification(ConfusablePunctuation, SevWarning, MinusSignMessage))
    else
      None
  }

  /** Errors are exactly the error ranges, warnings exactly the warning
      ranges, and every other codepoint is not reported. */
  lemma ClassifySeverities(cp: int)
    ensures var r := Classify(cp);
      && ((r.Some? && r.value.severity == SevError) <==> IsErrorCodepoint(cp))
      && ((r.Some? && r.value.severity == SevWarning) <==> IsWarningCodepoint(cp))
      && (r.None? <==> !IsErrorCodepoint(cp) && !IsWarningCodepoint(cp))
  {
  }

  /** Outside the invisible-character table, a report is an error exactly when
      its kind is a replacement, null or control character; inside it, the
      severity and message are the table's. */
  lemma ClassifyKinds(cp: int)
    ensures var r := Classify(cp);
      && (r.Some? && r.value.kind != InvisibleCharacter ==>
           (r.value.severity == SevError <==> r.value.kind in {ReplacementCharacter, NullCharacter, ControlCharacter}))
      && (r.Some? && r.value.kind == InvisibleCharacter ==> InvisibleRule(cp) == Some((r.value.severity, r.value.message)))
  {
  }

  /** Tab, line feed and carriage return are never reported, nor are the
      emoji variation selectors U+FE00..U+FE0F. */
  lemma NotClassified(cp: int)
    requires cp == 0x09 || cp == 0x0A || cp == 0x0D || 0xFE00 <= cp <= 0xFE0F
    ensures Classify(cp).None?
  {
  }

  // ---------------------------------------------------------------------------
  // The allowlist
  // ---------------------------------------------------------------------------

  /** A list field of the allowlist JSON: an array of values, or something that is not an array. */
  datatype RawList = List(items: seq<RawValue>) | NotList

  /** The allowlist JSON: not an object at all, or an object with a `global`
      field and a `files` field (`None` when that is not an object; otherwise
      its entries in `Object.entries` order). */
  datatype RawAllowlist =
    | NotObject
    | AllowlistObject(global: RawList, files: Option<seq<(string, RawList)>>)

  /** The normalised allowlist: global codepoints, and codepoints per file. */
  datatype Allowlist = Allowlist(global: set<string>, files: JsMap.Entries<string, set<string>>)

  const NoAllowlist := Allowlist({}, [])

  /** Every entry that normalises, normalised. */
  function NormalizedSet(items: seq<RawValue>): set<string>
  {
    set x | x in items && NormalizeCodepoint(x).Some? :: NormalizeCodepoint(x).value
  }

  /** A file key with backslashes turned into slashes. */
  function FileKey(file: string): (k: string)
    ensures '\\' !in k
  {
    ReplaceChar(file, '\\', '/')
  }

  /** The per-file table built from the `files` entries: each array entry sets
      its normalised key, a later entry replacing an earlier one with the same key. */
  function FilesOf(entries: seq<(string, RawList)>): JsMap.Entries<string, set<string>>
  {
    if entries == [] then []
    else
      var rest := FilesOf(entries[..|entries| - 1]);
      var (file, list) := entries[|entries| - 1];
      if list.List? then JsMap.Set(rest, FileKey(file), NormalizedSet(list.items)) else rest
  }

  /** The result `normalizeAllowlist` computes. */
  function AllowlistOf(raw: RawAllowlist): Allowlist
  {
    match raw
    case NotObject => NoAllowlist
    case AllowlistObject(global, files) =>
      Allowlist(
        if global.List? then NormalizedSet(global.items) else {},
        if files.Some? then FilesOf(files.value) else [])
  }

  /** `normalizeAllowlist`, with its loops. */
  method NormalizeAllowlist(raw: RawAllowlist) returns (al: Allowlist)
    ensures al == AllowlistOf(raw)
  {
    if raw.NotObject? {
      return NoAllowlist;
    }
    var globalList := if raw.global.List? then raw.global.items else [];
    var global := NormalizeEntries(globalList);
    var fileMap := if raw.files.Some? then raw.files.value else [];
    var files: JsMap.Entries<string, set<string>> := [];
    for k := 0 to |fileMap|
      invariant files == FilesOf(fileMap[..k])
    {
      assert fileMap[..k + 1][..k] == fileMap[..k];
      var (file, entries) := fileMap[k];
      if entries.List? {
        var s := NormalizeEntries(entries.items);
        files := JsMap.Set(files, FileKey(file), s);
      }
    }
    assert fileMap[..|fileMap|] == fileMap;
    al := Allowlist(global, files);
  }

  /** The inner loop: the set of the entries that normalise. */
  method NormalizeEntries(items: seq<RawValue>) returns (s: set<string>)
    ensures s == NormalizedSet(items)
  {
    s := {};
    for k := 0 to |items|
      invariant s == NormalizedSet(items[..k])
    {
      var n := NormalizeCodepoint(items[k]);
      if n.Some? {
        s := s + {n.value};
      }
      NormalizedSetStep(items, k);
    }
    assert items[..|items|] == items;
  }

  lemma NormalizedSetStep(items: seq<RawValue>, k: nat)
    requires k < |items|
    ensures NormalizedSet(items[..k + 1]) ==
      NormalizedSet(items[..k]) + (if NormalizeCodepoint(items[k]).Some? then {NormalizeCodepoint(items[k]).value} else {})
  {
    assert items[..k + 1] == items[..k] + [items[k]];
  }

  /** The table's keys are distinct and contain no backslash. */
  lemma {:induction false} FilesOfKeys(entries: seq<(string, RawList)>)
    ensures JsMap.DistinctKeys(FilesOf(entries))
    ensures forall j :: 0 <= j < |FilesOf(entries)| ==> '\\' !in FilesOf(entries)[j].0
  {
    if entries != [] {
      var rest := FilesOf(entries[..|entries| - 1]);
      FilesOfKeys(entries[..|entries| - 1]);
      var (file, list) := entries[|entries| - 1];
      if list.List? {
        JsMap.SetDistinct(rest, FileKey(file), NormalizedSet(list.items));
        JsMap.SetKeys(rest, FileKey(file), NormalizedSet(list.items));
      }
    }
  }

  /** The codepoints allowed for a key are those of the last array entry whose
      file name normalises to that key. */
  lemma {:induction false} FilesOfLast(entries: seq<(string, RawList)>, key: string, j: nat)
    requires j < |entries| && entries[j].1.List? && FileKey(entries[j].0) == key
    requires forall m :: j < m < |entries| && entries[m].1.List? ==> FileKey(entries[m].0) != key
    ensures JsMap.Get(FilesOf(entries), key) == Some(NormalizedSet(entries[j].1.items))
  {
    var init := entries[..|entries| - 1];
    var (file, list) := entries[|entries| - 1];
    if j == |entries| - 1 {
      JsMap.GetSetSame(FilesOf(init), key, NormalizedSet(list.items));
    } else {
      FilesOfLast(init, key, j);
      if list.List? {
        JsMap.GetSetOther(FilesOf(init), FileKey(file), NormalizedSet(list.items), key);
      }
    }
  }

  /** A key no array entry normalises to has no table entry. */
  lemma {:induction false} FilesOfAbsent(entries: seq<(string, RawList)>, key: string)
    requires forall m :: 0 <= m < |entries| && entries[m].1.List? ==> FileKey(entries[m].0) != key
    ensures JsMap.Get(FilesOf(entries), key) == None
  {
    if entries != [] {
      var init := entries[..|entries| - 1];
      var (file, list) := entries[|entries| - 1];
      FilesOfAbsent(init, key);
      if list.List? {
        JsMap.GetSetOther(FilesOf(init), FileKey(file), NormalizedSet(list.items), key);
      }
    }
  }

  /** The codepoints allowed for one file: the set stored under its key with
      backslashes turned into slashes, else under the key as given. */
  function FileAllowlist(al: Allowlist, file: string): Option<set<string>>
  {
    var s := JsMap.Get(al.files, FileKey(file));
    if s.Some? then s else JsMap.Get(al.files, file)
  }

  /** `UnicodeChecker.isAllowed`. */
  predicate IsAllowed(al: Allowlist, file: string, codepoint: string)
  {
    if codepoint == [] then false
    else if codepoint in al.global then true
    else
      var s := FileAllowlist(al, file);
      s.Some? && codepoint in s.value
  }

  /** A global entry is allowed in every file. */
  lemma GlobalAllowed(raw: RawAllowlist, x: RawValue, file: string)
    requires raw.AllowlistObject? && raw.global.List? && x in raw.global.items
    requires NormalizeCodepoint(x).Some?
    ensures IsAllowed(AllowlistOf(raw), file, NormalizeCodepoint(x).value)
  {
  }

  /** A file entry is allowed in the file it names, whichever slashes the
      file name is written with, when no later entry replaces it. */
  lemma FileEntryAllowed(raw: RawAllowlist, j: nat, x: RawValue, file: string)
    requires raw.AllowlistObject? && raw.files.Some?
    requires var e := raw.files.value; j < |e| && e[j].1.List? && x in e[j].1.items
    requires NormalizeCodepoint(x).Some?
    requires FileKey(raw.files.value[j].0) == FileKey(file)
    requires forall m :: j < m < |raw.files.value| && raw.files.value[m].1.List? ==>
      FileKey(raw.files.value[m].0) != FileKey(file)
    ensures IsAllowed(AllowlistOf(raw), file, NormalizeCodepoint(x).value)
  {
    FilesOfLast(raw.files.value, FileKey(file), j);
  }

  /** A file that no `files` entry names is governed by the global list alone. */
  lemma OtherFileGlobalOnly(raw: RawAllowlist, file: string, codepoint: string)
    requires raw.AllowlistObject? && raw.files.Some?
    requires forall m :: 0 <= m < |raw.files.value| && raw.files.value[m].1.List? ==>
      FileKey(raw.files.value[m].0) != FileKey(file) && FileKey(raw.files.value[m].0) != file
    ensures IsAllowed(AllowlistOf(raw), file, codepoint) <==>
      codepoint != [] && codepoint in AllowlistOf(raw).global
  {
    FilesOfAbsent(raw.files.value, FileKey(file));
    FilesOfAbsent(raw.files.value, file);
  }

  /** Since the table's keys never hold a backslash, the lookup under the
      file name as given only matters when it equals the normalised one:
      the second lookup of `isAllowed` never finds anything the first missed. */
  lemma SecondLookupRedundant(raw: RawAllowlist, file: string)
    ensures FileAllowlist(AllowlistOf(raw), file) == JsMap.Get(AllowlistOf(raw).files, FileKey(file))
  {
    var al := AllowlistOf(raw);
    if raw.AllowlistObject? && raw.files.Some? {
      FilesOfKeys(raw.files.value);
    }
    if JsMap.Get(al.files, FileKey(file)).None? && '\\' in file {
      assert !JsMap.HasKey(al.files, file);
    } else if JsMap.Get(al.files, FileKey(file)).None? {
      assert FileKey(file) == file by {
        assert forall i :: 0 <= i < |file| ==> FileKey(file)[i] == file[i];
      }
    }
  }

  // ---------------------------------------------------------------------------
  // scanText
  // ---------------------------------------------------------------------------

  datatype Issue = Issue(
    line: nat, column: nat, codepoint: string, ch: char,
    kind: Kind, severity: Severity, message: Message)

  predicate IsNewline(c: char)
  {
    c == '\n' || c == '\r'
  }

  /** The line a character following the text `p` is on: 1 plus the line
      breaks of `p`, where CR, and LF not right after CR, each break a line. */
  function LineOf(p: string): (n: nat)
    ensures n >= 1
  {
    if p == [] then 1
    else
      var q := p[..|p| - 1];
      var c := p[|p| - 1];
      LineOf(q) + (if c == '\r' || (c == '\n' && !EndsWith(q, "\r")) then 1 else 0)
  }

  /** The column of a character following `p`: 1 plus the characters since the
      last line break of `p`; each character is one codepoint. */
  function ColumnOf(p: string): (n: nat)
    ensures n >= 1
  {
    if p == [] then 1
    else if IsNewline(p[|p| - 1]) then 1
    else ColumnOf(p[..|p| - 1]) + 1
  }

  /** The issue reported for character `c` at a line and column, if any. */
  function IssueAt(al: Allowlist, file: string, line: nat, column: nat, c: char): seq<Issue>
  {
    var cls := Classify(c as int);
    if IsNewline(c) || cls.None? || IsAllowed(al, file, ToCodepoint(c as int)) then []
    else [Issue(line, column, ToCodepoint(c as int), c, cls.value.kind, cls.value.severity, cls.value.message)]
  }

  /** The issue reported for character `c` following the text `p`, if any. */
  function IssueFor(al: Allowlist, file: string, p: string, c: char): seq<Issue>
  {
    IssueAt(al, file, LineOf(p), ColumnOf(p), c)
  }

  /** The issues of a text, in text order, given the issues `flag` yields
      for a character after the text before it. */
  function Scan(flag: (string, char) -> seq<Issue>, text: string): seq<Issue>
  {
    if text == [] then []
    else Scan(flag, text[..|text| - 1]) + flag(text[..|text| - 1], text[|text| - 1])
  }

  lemma ScanStep(flag: (string, char) -> seq<Issue>, text: string, i: nat)
    requires i < |text|
    ensures Scan(flag, text[..i + 1]) == Scan(flag, text[..i]) + flag(text[..i], text[i])
  {
    assert text[..i + 1][..i] == text[..i];
  }

  /** One more character appends its own issues. */
  lemma ScanSnoc(flag: (string, char) -> seq<Issue>, p: string, c: char)
    ensures Scan(flag, p + [c]) == Scan(flag, p) + flag(p, c)
  {
    assert (p + [c])[..|p|] == p;
  }

  /** The issues of a prefix come first among the issues of the text. */
  lemma {:induction false} ScanPrefix(flag: (string, char) -> seq<Issue>, text: string, j: nat)
    requires j <= |text|
    ensures |Scan(flag, text[..j])| <= |Scan(flag, text)|
    ensures Scan(flag, text)[..|Scan(flag, text[..j])|] == Scan(flag, text[..j])
    decreases |text| - j
  {
    if j < |text| {
      ScanPrefix(flag, text, j + 1);
      ScanStep(flag, text, j);
    } else {
      assert text[..j] == text;
    }
  }

  function Flagger(al: Allowlist, file: string): (string, char) -> seq<Issue>
  {
    (p: string, c: char) => IssueFor(al, file, p, c)
  }

  /** The issues `scanText` reports for a whole text, in text order. */
  function Issues(al: Allowlist, file: string, text: string): seq<Issue>
  {
    Scan(Flagger(al, file), text)
  }

  lemma IssuesStep(al: Allowlist, file: string, text: string, i: nat)
    requires i < |text|
    ensures Issues(al, file, text[..i + 1]) == Issues(al, file, text[..i]) + IssueFor(al, file, text[..i], text[i])
  {
    ScanStep(Flagger(al, file), text, i);
  }

  /** An LF that does not complete a CRLF starts a new line at column 1. */
  lemma LineFeedBreaks(p: string)
    requires !EndsWith(p, "\r")
    ensures LineOf(p + "\n") == LineOf(p) + 1 && ColumnOf(p + "\n") == 1
  {
    assert (p + "\n")[..|p|] == p;
  }

  /** CR, and CRLF as a whole, start a new line at column 1. */
  lemma CarriageReturnBreaks(p: string)
    ensures LineOf(p + "\r") == LineOf(p) + 1 && ColumnOf(p + "\r") == 1
    ensures LineOf(p + "\r\n") == LineOf(p) + 1 && ColumnOf(p + "\r\n") == 1
  {
    assert (p + "\r")[..|p|] == p;
    assert (p + "\r\n")[..|p| + 1] == p + "\r";
  }

  /** Any other character, whatever its width in UTF-16, advances the column by one. */
  lemma OtherCharAdvances(p: string, c: char)
    requires !IsNewline(c)
    ensures LineOf(p + [c]) == LineOf(p) && ColumnOf(p + [c]) == ColumnOf(p) + 1
  {
    assert (p + [c])[..|p|] == p;
  }

  /** An issue as `scanText` builds it: a classified, non-newline, not allowed
      character, with the kind, severity and message of its classification
      and the spelling of `toCodepoint`. */
  predicate Reported(al: Allowlist, file: string, issue: Issue)
  {
    !IsNewline(issue.ch)
    && Classify(issue.ch as int) == Some(Classification(issue.kind, issue.severity, issue.message))
    && issue.codepoint == ToCodepoint(issue.ch as int)
    && !IsAllowed(al, file, issue.codepoint)
  }

  /** Every issue of a text is reported as `scanText` builds it. */
  lemma {:induction false} IssuesSound(al: Allowlist, file: string, text: string)
    ensures forall k :: 0 <= k < |Issues(al, file, text)| ==> Reported(al, file, Issues(al, file, text)[k])
  {
    if text != [] {
      var n := |text| - 1;
      IssuesSound(al, file, text[..n]);
      IssuesStep(al, file, text, n);
      assert text[..n + 1] == text;
    }
  }

  /** Every classified, non-newline, not allowed character is reported, at the
      line and column of its position. */
  lemma IssuesComplete(al: Allowlist, file: string, text: string, i: nat)
    requires i < |text| && !IsNewline(text[i]) && Classify(text[i] as int).Some?
    requires !IsAllowed(al, file, ToCodepoint(text[i] as int))
    ensures exists k :: (0 <= k < |Issues(al, file, text)|
      && Issues(al, file, text)[k].line == LineOf(text[..i])
      && Issues(al, file, text)[k].column == ColumnOf(text[..i])
      && Issues(al, file, text)[k].ch == text[i])
  {
    ScanPrefix(Flagger(al, file), text, i + 1);
    IssuesStep(al, file, text, i);
    ClassifiedIssue(al, file, LineOf(text[..i]), ColumnOf(text[..i]), text[i]);
    var k := |Issues(al, file, text[..i])|;
    assert Issues(al, file, text[..i + 1])[k] == Issues(al, file, text)[k];
  }

  /** Drop the issues whose codepoint is allowed. */
  function WithoutAllowed(al: Allowlist, file: string, issues: seq<Issue>): (r: seq<Issue>)
    ensures |r| <= |issues|
  {
    if issues == [] then []
    else
      var last := issues[|issues| - 1];
      WithoutAllowed(al, file, issues[..|issues| - 1])
        + (if IsAllowed(al, file, last.codepoint) then [] else [last])
  }

  /** For one character, the allowlist only removes the issue. */
  lemma IssueForAllowlist(al: Allowlist, file: string, p: string, c: char)
    ensures IssueFor(al, file, p, c) == WithoutAllowed(al, file, IssueFor(NoAllowlist, file, p, c))
    ensures |IssueFor(NoAllowlist, file, p, c)| <= 1
  {
    IssueAtAllowlist(al, file, LineOf(p), ColumnOf(p), c);
  }

  lemma IssueAtAllowlist(al: Allowlist, file: string, line: nat, column: nat, c: char)
    ensures IssueAt(al, file, line, column, c) == WithoutAllowed(al, file, IssueAt(NoAllowlist, file, line, column, c))
    ensures |IssueAt(NoAllowlist, file, line, column, c)| <= 1
  {
    if IsNewline(c) || Classify(c as int).None? {
      UnclassifiedSilent(al, file, line, column, c);
      UnclassifiedSilent(NoAllowlist, file, line, column, c);
    } else {
      ClassifiedReported(file, line, column, c);
      var cls := Classify(c as int).value;
      WithoutAllowedOne(al, file, Issue(line, column, ToCodepoint(c as int), c, cls.kind, cls.severity, cls.message));
      if IsAllowed(al, file, ToCodepoint(c as int)) {
        AllowedSilent(al, file, line, column, c);
      } else {
        ClassifiedIssue(al, file, line, column, c);
      }
    }
  }

  lemma WithoutAllowedOne(al: Allowlist, file: string, issue: Issue)
    ensures WithoutAllowed(al, file, [issue]) == if IsAllowed(al, file, issue.codepoint) then [] else [issue]
  {
    assert [issue][..0] == [];
  }

  lemma WithoutAllowedAppend(al: Allowlist, file: string, xs: seq<Issue>, ys: seq<Issue>)
    requires |ys| <= 1
    ensures WithoutAllowed(al, file, xs + ys) == WithoutAllowed(al, file, xs) + WithoutAllowed(al, file, ys)
  {
    if ys == [] {
      assert xs + ys == xs;
    } else {
      assert (xs + ys)[..|xs|] == xs;
      assert ys[..0] == [];
    }
  }

  /** The allowlist only removes issues: what is reported is the report
      without an allowlist less the allowed codepoints, in the same order and
      at the same positions. */
  lemma {:induction false} AllowlistFilters(al: Allowlist, file: string, text: string)
    ensures Issues(al, file, text) == WithoutAllowed(al, file, Issues(NoAllowlist, file, text))
  {
    if text != [] {
      var n := |text| - 1;
      var p := text[..n];
      AllowlistFilters(al, file, p);
      IssuesStep(al, file, text, n);
      IssuesStep(NoAllowlist, file, text, n);
      assert text[..n + 1] == text;
      IssueForAllowlist(al, file, p, text[n]);
      WithoutAllowedAppend(al, file, Issues(NoAllowlist, file, p), IssueFor(NoAllowlist, file, p, text[n]));
    }
  }

  /** A codepoint in the global list is reported in no file. */
  lemma GlobalSilences(al: Allowlist, file: string, text: string, cp: string)
    requires cp != [] && cp in al.global
    ensures forall k :: 0 <= k < |Issues(al, file, text)| ==> Issues(al, file, text)[k].codepoint != cp
  {
    IssuesSound(al, file, text);
    forall k | 0 <= k < |Issues(al, file, text)|
      ensures Issues(al, file, text)[k].codepoint != cp
    {
      assert Reported(al, file, Issues(al, file, text)[k]);
    }
  }

  /** Without an allowlist nothing is allowed. */
  lemma NothingAllowed(file: string, codepoint: string)
    ensures !IsAllowed(NoAllowlist, file, codepoint)
  {
  }

  /** A newline or unclassified character yields no issue at any position. */
  lemma UnclassifiedSilent(al: Allowlist, file: string, line: nat, column: nat, c: char)
    requires IsNewline(c) || Classify(c as int).None?
    ensures IssueAt(al, file, line, column, c) == []
  {
  }

  /** An allowed character yields no issue. */
  lemma AllowedSilent(al: Allowlist, file: string, line: nat, column: nat, c: char)
    requires IsAllowed(al, file, ToCodepoint(c as int))
    ensures IssueAt(al, file, line, column, c) == []
  {
  }

  /** A classified ordinary character that is not allowed yields its issue. */
  lemma ClassifiedIssue(al: Allowlist, file: string, line: nat, column: nat, c: char)
    requires !IsNewline(c) && Classify(c as int).Some?
    requires !IsAllowed(al, file, ToCodepoint(c as int))
    ensures var cls := Classify(c as int).value;
      IssueAt(al, file, line, column, c) ==
        [Issue(line, column, ToCodepoint(c as int), c, cls.kind, cls.severity, cls.message)]
  {
  }

  /** Without an allowlist, a classified character yields its issue. */
  lemma ClassifiedReported(file: string, line: nat, column: nat, c: char)
    requires !IsNewline(c) && Classify(c as int).Some?
    ensures var cls := Classify(c as int).value;
      IssueAt(NoAllowlist, file, line, column, c) ==
        [Issue(line, column, ToCodepoint(c as int), c, cls.kind, cls.severity, cls.message)]
  {
    NothingAllowed(file, ToCodepoint(c as int));
    ClassifiedIssue(NoAllowlist, file, line, column, c);
  }

  /** The issues of a three-character text, character by character. */
  lemma ScanThree(flag: (string, char) -> seq<Issue>, x: char, y: char, z: char)
    ensures Scan(flag, [x, y, z]) == flag([], x) + flag([x], y) + flag([x, y], z)
  {
    ScanSnoc(flag, [], x);
    ScanSnoc(flag, [x], y);
    ScanSnoc(flag, [x, y], z);
    assert [] + [x] == [x] && [x] + [y] == [x, y] && [x, y] + [z] == [x, y, z];
  }

  /** The issues of a four-character text, character by character. */
  lemma ScanFour(flag: (string, char) -> seq<Issue>, w: char, x: char, y: char, z: char)
    ensures Scan(flag, [w, x, y, z]) == flag([], w) + flag([w], x) + flag([w, x], y) + flag([w, x, y], z)
  {
    ScanThree(flag, w, x, y);
    ScanSnoc(flag, [w, x, y], z);
    assert [w, x, y] + [z] == [w, x, y, z];
  }

  lemma IssuesThree(al: Allowlist, file: string, x: char, y: char, z: char)
    ensures Issues(al, file, [x, y, z]) ==
      IssueFor(al, file, [], x) + IssueFor(al, file, [x], y) + IssueFor(al, file, [x, y], z)
  {
    ScanThree(Flagger(al, file), x, y, z);
  }

  lemma IssuesFour(al: Allowlist, file: string, w: char, x: char, y: char, z: char)
    ensures Issues(al, file, [w, x, y, z]) ==
      IssueFor(al, file, [], w) + IssueFor(al, file, [w], x) + IssueFor(al, file, [w, x], y) + IssueFor(al, file, [w, x, y], z)
  {
    ScanFour(Flagger(al, file), w, x, y, z);
  }

  /** A classified character between two unreported ordinary characters is
      one issue, on line 1 at column 2, as for the replacement character
      U+FFFD in `a\U{FFFD}b`. */
  lemma ClassifiedBetween(file: string, a: char, c: char, b: char)
    requires !IsNewline(a) && Classify(a as int).None? && Classify(b as int).None?
    requires !IsNewline(c) && Classify(c as int).Some?
    ensures var cls := Classify(c as int).value;
      Issues(NoAllowlist, file, [a, c, b]) ==
        [Issue(1, 2, ToCodepoint(c as int), c, cls.kind, cls.severity, cls.message)]
  {
    IssuesThree(NoAllowlist, file, a, c, b);
    assert LineOf([a]) == 1 && ColumnOf([a]) == 2 by {
      assert [a][..0] == [];
    }
    UnclassifiedSilent(NoAllowlist, file, 1, 1, a);
    ClassifiedReported(file, 1, 2, c);
    UnclassifiedSilent(NoAllowlist, file, LineOf([a, c]), ColumnOf([a, c]), b);
  }

  /** An unclassified character between two unreported characters, such as
      the emoji presentation selector U+FE0F in `a\U{FE0F}b`, gives no issue. */
  lemma UnclassifiedBetween(file: string, a: char, c: char, b: char)
    requires Classify(a as int).None? && Classify(c as int).None? && Classify(b as int).None?
    ensures Issues(NoAllowlist, file, [a, c, b]) == []
  {
    IssuesThree(NoAllowlist, file, a, c, b);
    UnclassifiedSilent(NoAllowlist, file, 1, 1, a);
    UnclassifiedSilent(NoAllowlist, file, LineOf([a]), ColumnOf([a]), c);
    UnclassifiedSilent(NoAllowlist, file, LineOf([a, c]), ColumnOf([a, c]), b);
  }

  /** After an unreported character and a CRLF, the next character is on
      line 2 at column 1. */
  lemma ClassifiedAfterCrLf(file: string, x: char, cr: char, lf: char, c: char)
    requires !IsNewline(x) && Classify(x as int).None?
    requires cr == '\r' && lf == '\n'
    requires !IsNewline(c) && Classify(c as int).Some?
    ensures var cls := Classify(c as int).value;
      Issues(NoAllowlist, file, [x, cr, lf, c]) ==
        [Issue(2, 1, ToCodepoint(c as int), c, cls.kind, cls.severity, cls.message)]
  {
    IssuesFour(NoAllowlist, file, x, cr, lf, c);
    var p := [x, cr, lf];
    assert LineOf(p) == 2 && ColumnOf(p) == 1 by {
      assert p[..2] == [x, cr] && p[..2][..1] == [x] && p[..2][..1][..0] == [];
      assert EndsWith([x, cr], [cr]);
    }
    UnclassifiedSilent(NoAllowlist, file, 1, 1, x);
    NewlineSilent(NoAllowlist, file);
    ClassifiedReported(file, 2, 1, c);
  }

  /** The checker, holding its normalised allowlist. */
  class UnicodeChecker {
    const allowlist: Allowlist

    constructor(raw: RawAllowlist)
      ensures allowlist == AllowlistOf(raw)
    {
      var al := NormalizeAllowlist(raw);
      allowlist := al;
    }

    /** `scanText`: walks the text one codepoint at a time, LF, CR and CRLF
        each ending a line, and reports the classified, not allowed characters. */
    method ScanText(text: string, file: string) returns (issues: seq<Issue>)
      ensures issues == Issues(allowlist, file, text)
    {
      issues := [];
      var line: nat, column: nat, i: nat := 1, 1, 0;
      ghost var flag := Flagger(allowlist, file);
      NewlineSilent(allowlist, file);
      while i < |text|
        invariant ScannedTo(flag, text, i, line, column, issues)
        decreases |text| - i
      {
        var ch := text[i];
        if ch == '\n' {
          LineFeedStep(flag, text, i, line, column, issues);
          line, column := line + 1, 1;
          i := i + 1;
        } else if ch == '\r' {
          CarriageReturnEnds(flag, text, i, line, column, issues);
          line, column := line + 1, 1;
          i := i + 1;
          if i < |text| && text[i] == '\n' {
            i := i + 1;
          }
        } else {
          var found := CharIssue(file, text[..i], line, column, ch);
          OrdinaryStep(flag, text, i, line, column, issues, found);
          issues := issues + found;
          column := column + 1;
          i := i + 1;
        }
      }
      assert text[..i] == text;
    }

    /** The classification of one character and the allowlist test. */
    method CharIssue(file: string, ghost before: string, line: nat, column: nat, ch: char) returns (found: seq<Issue>)
      requires !IsNewline(ch) && line == LineOf(before) && column == ColumnOf(before)
      ensures found == IssueAt(allowlist, file, line, column, ch)
      ensures found == Flagger(allowlist, file)(before, ch)
    {
      FlaggerAt(allowlist, file, before, ch, line, column);
      found := [];
      var cp := ch as int;
      var classification := Classify(cp);
      if classification.Some? {
        var codepoint := ToCodepoint(cp);
        if !IsAllowed(allowlist, file, codepoint) {
          found := [Issue(line, column, codepoint, ch,
            classification.value.kind, classification.value.severity, classification.value.message)];
        }
      }
    }
  }

  /** Line, column and issues after the first `i` characters. */
  ghost predicate ScannedPrefix(flag: (string, char) -> seq<Issue>, text: string, i: nat, line: nat, column: nat, issues: seq<Issue>)
  {
    i <= |text|
    && line == LineOf(text[..i]) && column == ColumnOf(text[..i])
    && issues == Scan(flag, text[..i])
  }

  /** The loop state of `scanText`: it never stops between the CR and LF of a CRLF. */
  ghost predicate ScannedTo(flag: (string, char) -> seq<Issue>, text: string, i: nat, line: nat, column: nat, issues: seq<Issue>)
  {
    ScannedPrefix(flag, text, i, line, column, issues)
    && !(0 < i < |text| && text[i - 1] == '\r' && text[i] == '\n')
  }

  /** A newline character yields no issue. */
  lemma NewlineSilent(al: Allowlist, file: string)
    ensures forall p, c :: IsNewline(c) ==> Flagger(al, file)(p, c) == []
  {
  }

  /** An LF (never the second half of a CRLF here) ends the line. */
  lemma LineFeedStep(flag: (string, char) -> seq<Issue>, text: string, i: nat, line: nat, column: nat, issues: seq<Issue>)
    requires ScannedTo(flag, text, i, line, column, issues) && i < |text| && text[i] == '\n'
    requires forall p, c :: IsNewline(c) ==> flag(p, c) == []
    ensures ScannedTo(flag, text, i + 1, line + 1, 1, issues)
  {
    ScanStep(flag, text, i);
    assert text[..i + 1][..i] == text[..i];
    if 0 < i {
      assert text[..i][i - 1] == text[i - 1];
    }
  }

  /** A CR ends the line. */
  lemma CarriageReturnStep(flag: (string, char) -> seq<Issue>, text: string, i: nat, line: nat, column: nat, issues: seq<Issue>)
    requires ScannedTo(flag, text, i, line, column, issues) && i < |text| && text[i] == '\r'
    requires forall p, c :: IsNewline(c) ==> flag(p, c) == []
    ensures ScannedPrefix(flag, text, i + 1, line + 1, 1, issues)
  {
    ScanStep(flag, text, i);
    assert text[..i + 1][..i] == text[..i];
  }

  /** The LF of a CRLF changes neither the line, nor the column, nor the issues. */
  lemma CrLfStep(flag: (string, char) -> seq<Issue>, text: string, i: nat, line: nat, column: nat, issues: seq<Issue>)
    requires ScannedPrefix(flag, text, i, line, column, issues)
    requires 0 < i < |text| && text[i - 1] == '\r' && text[i] == '\n'
    requires forall p, c :: IsNewline(c) ==> flag(p, c) == []
    ensures ScannedTo(flag, text, i + 1, line, column, issues)
  {
    ScanStep(flag, text, i);
    assert text[..i + 1][..i] == text[..i];
    assert EndsWith(text[..i], "\r") by {
      assert text[..i][i - 1..] == "\r";
    }
  }

  /** Where the scan resumes after a CR: past the LF of a CRLF. */
  function AfterCarriageReturn(text: string, i: nat): nat
  {
    if i + 1 < |text| && text[i + 1] == '\n' then i + 2 else i + 1
  }

  lemma CarriageReturnEnds(flag: (string, char) -> seq<Issue>, text: string, i: nat, line: nat, column: nat, issues: seq<Issue>)
    requires ScannedTo(flag, text, i, line, column, issues) && i < |text| && text[i] == '\r'
    requires forall p, c :: IsNewline(c) ==> flag(p, c) == []
    ensures ScannedTo(flag, text, AfterCarriageReturn(text, i), line + 1, 1, issues)
  {
    CarriageReturnStep(flag, text, i, line, column, issues);
    if i + 1 < |text| && text[i + 1] == '\n' {
      CrLfStep(flag, text, i + 1, line + 1, 1, issues);
    }
  }

  /** The issues `Flagger` yields for a character are those at the line and
      column the text before it ends on. */
  lemma FlaggerAt(al: Allowlist, file: string, p: string, c: char, line: nat, column: nat)
    requires line == LineOf(p) && column == ColumnOf(p)
    ensures Flagger(al, file)(p, c) == IssueAt(al, file, line, column, c)
  {
  }

  /** Any other character appends its own issues and advances the column. */
  lemma OrdinaryStep(flag: (string, char) -> seq<Issue>, text: string, i: nat, line: nat, column: nat, issues: seq<Issue>, found: seq<Issue>)
    requires ScannedTo(flag, text, i, line, column, issues) && i < |text| && !IsNewline(text[i])
    requires found == flag(text[..i], text[i])
    ensures ScannedTo(flag, text, i + 1, line, column + 1, issues + found)
  {
    ScanStep(flag, text, i);
    assert text[..i + 1][..i] == text[..i];
  }

}
