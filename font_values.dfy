/** `normalizeFontValue`, shared verbatim by the SVG font rewriter and the SVG
    font inventory: trim, turn every run of whitespace into one space, and
    write every comma, with any whitespace around it, as `", "`. */
module FontValues {
  import opened Text

  /** `.replace(/\s+/g, ' ')`: each maximal run of `\s` becomes one space. */
  function CollapseSpaces(s: string): (r: string)
    decreases |s|
  {
    if s == [] then []
    else if IsSpace(s[0]) then
      var k := SpaceRun(s);
      assert k > 0;
      " " + CollapseSpaces(s[k..])
    else [s[0]] + CollapseSpaces(s[1..])
  }

  /** The comma replacement, whose pattern is whitespace, a comma and
      whitespace, replaced by `", "`. At each position the pattern takes all
      the whitespace there and needs a comma right after it; when there is
      none the character is kept and the scan moves on by one. */
  function SpaceCommas(s: string): (r: string)
    decreases |s|
  {
    if s == [] then []
    else
      var w := SpaceRun(s);
      if w < |s| && s[w] == ',' then ", " + SpaceCommas(s[PastComma(s, w)..])
      else [s[0]] + SpaceCommas(s[1..])
  }

  /** Where the scan resumes after the comma at `w` and the whitespace after it. */
  function PastComma(s: string, w: nat): (k: nat)
    requires w < |s|
    ensures w < k <= |s|
  {
    w + 1 + SpaceRun(s[w + 1..])
  }

  /** `normalizeFontValue`. */
  function NormalizeFontValue(value: string): (r: string)
  {
    SpaceCommas(CollapseSpaces(Trim(value)))
  }

  // ---------------------------------------------------------------------
  // Shapes of the intermediate strings, stated recursively along the same
  // recursion as the two replacements

  /** Every whitespace character is a plain space and none follows another
      (what `CollapseSpaces` produces). */
  predicate SingleSpaced(s: string)
    decreases |s|
  {
    s == [] ||
      if IsSpace(s[0]) then s[0] == ' ' && (|s| == 1 || !IsSpace(s[1])) && SingleSpaced(s[1..])
      else SingleSpaced(s[1..])
  }

  /** What `SpaceCommas` produces from single-spaced text that ends in a
      character other than whitespace: every comma is followed by exactly one
      space, and any other space sits between two characters that are
      neither whitespace nor a comma after it. */
  predicate CommaSpaced(s: string)
    decreases |s|
  {
    s == [] ||
      if s[0] == ',' then
        |s| >= 2 && s[1] == ' ' && (|s| == 2 || !IsSpace(s[2])) && CommaSpaced(s[2..])
      else if IsSpace(s[0]) then
        s[0] == ' ' && |s| >= 2 && !IsSpace(s[1]) && s[1] != ',' && CommaSpaced(s[1..])
      else CommaSpaced(s[1..])
  }

  /** As `CommaSpaced`, except that a comma may end the string. */
  predicate CommaSpacedOpen(s: string)
    decreases |s|
  {
    s == [] ||
      if s[0] == ',' then
        |s| == 1 || (s[1] == ' ' && (|s| == 2 || !IsSpace(s[2])) && CommaSpacedOpen(s[2..]))
      else if IsSpace(s[0]) then
        s[0] == ' ' && |s| >= 2 && !IsSpace(s[1]) && s[1] != ',' && CommaSpacedOpen(s[1..])
      else CommaSpacedOpen(s[1..])
  }

  /** What `SpaceCommas` adds to a string that is already in its form. */
  function Tail(s: string): string
  {
    if s != [] && s[|s| - 1] == ',' then " " else ""
  }

  lemma {:induction false} SingleSpacedTail(s: string, k: nat)
    requires SingleSpaced(s) && k <= |s|
    ensures SingleSpaced(s[k..])
    decreases k
  {
    if k > 0 {
      SingleSpacedTail(s[1..], k - 1);
      assert s[1..][k - 1..] == s[k..];
    }
  }

  /** In a single-spaced string the leading whitespace is at most one space. */
  lemma SingleSpaceRun(s: string)
    requires s == [] || !IsSpace(s[0]) || (s[0] == ' ' && (|s| == 1 || !IsSpace(s[1])))
    ensures SpaceRun(s) == (if s != [] && IsSpace(s[0]) then 1 else 0)
  {
    if s != [] && IsSpace(s[0]) {
      assert s[..1] == [s[0]];
      SpaceRunExact(s, 1);
    } else {
      SpaceRunExact(s, 0);
    }
  }

  /** A string in the closed comma form is in the open one. */
  lemma {:induction false} CommaSpacedIsOpen(s: string)
    requires CommaSpaced(s)
    ensures CommaSpacedOpen(s)
    decreases |s|
  {
    if s != [] {
      if s[0] == ',' {
        CommaSpacedIsOpen(s[2..]);
      } else {
        CommaSpacedIsOpen(s[1..]);
      }
    }
  }

  /** A string in the closed comma form ends in a character other than
      whitespace and a comma, or in `", "`. */
  lemma {:induction false} CommaSpacedEnd(s: string)
    requires CommaSpaced(s) && s != []
    ensures (!IsSpace(s[|s| - 1]) && s[|s| - 1] != ',') || EndsWith(s, ", ")
    decreases |s|
  {
    if s[0] == ',' {
      if |s| > 2 {
        CommaSpacedEnd(s[2..]);
        assert s[2..][|s| - 3] == s[|s| - 1];
        if EndsWith(s[2..], ", ") {
          assert s[|s| - 2..] == s[2..][|s| - 4..];
        }
      } else {
        assert s[|s| - 2..] == s;
      }
    } else if |s| > 1 {
      CommaSpacedEnd(s[1..]);
      assert s[1..][|s| - 2] == s[|s| - 1];
      if EndsWith(s[1..], ", ") {
        assert s[|s| - 2..] == s[1..][|s| - 3..];
      }
    }
  }

  /** Dropping the final space of a closed form ending in `", "` leaves an
      open form. */
  lemma {:induction false} CommaSpacedDropSpace(s: string)
    requires CommaSpaced(s) && EndsWith(s, ", ")
    ensures CommaSpacedOpen(s[..|s| - 1])
    decreases |s|
  {
    var m := s[..|s| - 1];
    assert s[|s| - 2] == ',' && s[|s| - 1] == ' ';
    if s[0] == ',' {
      if |s| > 2 {
        assert s[2..][|s| - 4..] == s[|s| - 2..];
        CommaSpacedDropSpace(s[2..]);
        assert m[2..] == s[2..][..|s| - 3];
      }
    } else {
      assert |s| > 2;
      assert s[1..][|s| - 3..] == s[|s| - 2..];
      CommaSpacedDropSpace(s[1..]);
      assert m[1..] == s[1..][..|s| - 2];
      if IsSpace(s[0]) {
        assert m[1] == s[1];
      }
    }
  }

  // ---------------------------------------------------------------------
  // Collapsing whitespace

  /** Collapsing leaves single spaces and keeps the first and the last
      character when they are not whitespace. */
  lemma {:induction false} CollapseShape(s: string)
    ensures SingleSpaced(CollapseSpaces(s))
    ensures s != [] && !IsSpace(s[0]) ==> CollapseSpaces(s) != [] && CollapseSpaces(s)[0] == s[0]
    ensures s != [] && IsSpace(s[0]) ==> CollapseSpaces(s) != [] && CollapseSpaces(s)[0] == ' '
    ensures s != [] && !IsSpace(s[|s| - 1]) ==>
      CollapseSpaces(s) != [] && CollapseSpaces(s)[|CollapseSpaces(s)| - 1] == s[|s| - 1]
    decreases |s|
  {
    if s != [] {
      var r := CollapseSpaces(s);
      if IsSpace(s[0]) {
        var k := SpaceRun(s);
        var rest := s[k..];
        CollapseShape(rest);
        assert r[1..] == CollapseSpaces(rest);
        if !IsSpace(s[|s| - 1]) {
          assert k < |s|;
          assert rest[|rest| - 1] == s[|s| - 1];
        }
      } else {
        CollapseShape(s[1..]);
        assert r[1..] == CollapseSpaces(s[1..]);
      }
    }
  }

  /** An open comma form has nothing to collapse. */
  lemma {:induction false} CollapseFixed(s: string)
    requires CommaSpacedOpen(s)
    ensures CollapseSpaces(s) == s
    decreases |s|
  {
    if s != [] {
      if s[0] == ',' {
        if |s| > 1 {
          var t := s[1..];
          SingleSpaceRun(t);
          assert t[1..] == s[2..];
          CollapseFixed(s[2..]);
          assert CollapseSpaces(t) == " " + CollapseSpaces(s[2..]);
          assert s == [','] + t;
        }
      } else {
        SingleSpaceRun(s);
        CollapseFixed(s[1..]);
        if IsSpace(s[0]) {
          assert [s[0]] == " ";
        }
      }
    }
  }

  // ---------------------------------------------------------------------
  // Spacing commas

  /** Spacing the commas of single-spaced text that does not end in
      whitespace gives the closed comma form and keeps the first character
      when it is not whitespace. */
  lemma {:induction false} SpaceCommasShape(s: string)
    requires SingleSpaced(s) && (s == [] || !IsSpace(s[|s| - 1]))
    ensures CommaSpaced(SpaceCommas(s))
    ensures s != [] && !IsSpace(s[0]) ==> SpaceCommas(s) != [] && SpaceCommas(s)[0] == s[0]
    decreases |s|, 1
  {
    if s != [] {
      SingleSpaceRun(s);
      var w := SpaceRun(s);
      if w < |s| && s[w] == ',' {
        SpaceCommasShapeComma(s, w);
      } else {
        SpaceCommasShapeKeep(s);
      }
    }
  }

  lemma {:induction false} SpaceCommasShapeComma(s: string, w: nat)
    requires SingleSpaced(s) && s != [] && !IsSpace(s[|s| - 1])
    requires w == SpaceRun(s) && w < |s| && s[w] == ','
    ensures CommaSpaced(SpaceCommas(s))
    ensures !IsSpace(s[0]) ==> SpaceCommas(s) != [] && SpaceCommas(s)[0] == s[0]
    decreases |s|, 0
  {
    var k := PastComma(s, w);
    var rest := s[k..];
    AfterComma(s, w, k);
    SpaceCommasShape(rest);
    SpaceCommasAtComma(s, w, k);
    ClosedAfterComma(SpaceCommas(rest));
  }

  /** What follows a comma and its whitespace in single-spaced text. */
  lemma AfterComma(s: string, w: nat, k: nat)
    requires SingleSpaced(s) && s != [] && !IsSpace(s[|s| - 1])
    requires w < |s| && k == PastComma(s, w)
    ensures SingleSpaced(s[k..])
    ensures s[k..] == [] || (!IsSpace(s[k..][0]) && !IsSpace(s[k..][|s[k..]| - 1]))
  {
    var t := s[w + 1..];
    var rest := s[k..];
    assert rest == t[SpaceRun(t)..];
    SingleSpacedTail(s, k);
    if rest != [] {
      assert rest[|rest| - 1] == s[|s| - 1];
    }
  }

  /** `", "` before a closed comma form that does not start with whitespace
      is one too. */
  lemma ClosedAfterComma(x: string)
    requires CommaSpaced(x) && (x == [] || !IsSpace(x[0]))
    ensures CommaSpaced(", " + x)
  {
    assert (", " + x)[2..] == x;
  }

  lemma {:induction false} SpaceCommasShapeKeep(s: string)
    requires SingleSpaced(s) && s != [] && !IsSpace(s[|s| - 1])
    requires SpaceRun(s) == (if IsSpace(s[0]) then 1 else 0)
    requires !(SpaceRun(s) < |s| && s[SpaceRun(s)] == ',')
    ensures CommaSpaced(SpaceCommas(s))
    ensures !IsSpace(s[0]) ==> SpaceCommas(s) != [] && SpaceCommas(s)[0] == s[0]
    decreases |s|, 0
  {
    SingleSpacedTail(s, 1);
    if |s| > 1 {
      assert s[1..][|s| - 2] == s[|s| - 1];
    }
    SpaceCommasShape(s[1..]);
    SpaceCommasKept(s);
    var r := SpaceCommas(s);
    assert r[1..] == SpaceCommas(s[1..]);
    if IsSpace(s[0]) {
      assert |s| > 1;
      assert s[1..][0] == s[1];
    }
  }

  /** A string in the open comma form is returned as it is, plus the space a
      final comma still lacks. */
  lemma {:induction false} SpaceCommasFixed(s: string)
    requires CommaSpacedOpen(s)
    ensures SpaceCommas(s) == s + Tail(s)
    decreases |s|, 1
  {
    if s != [] {
      if s[0] == ',' {
        SpaceCommasFixedComma(s);
      } else {
        SpaceCommasFixedKeep(s);
      }
    }
  }

  lemma {:induction false} SpaceCommasFixedComma(s: string)
    requires CommaSpacedOpen(s) && s != [] && s[0] == ','
    ensures SpaceCommas(s) == s + Tail(s)
    decreases |s|, 0
  {
    SpaceRunExact(s, 0);
    if |s| > 1 {
      var t := s[1..];
      SingleSpaceRun(t);
      SpaceCommasAtComma(s, 0, 2);
      SpaceCommasFixed(s[2..]);
      if |s| > 2 {
        assert Tail(s[2..]) == Tail(s);
      }
      assert s == ", " + s[2..];
    } else {
      SpaceCommasAtComma(s, 0, 1);
    }
  }

  /** One step of `SpaceCommas` at a comma. */
  lemma SpaceCommasAtComma(s: string, w: nat, k: nat)
    requires w == SpaceRun(s) && w < |s| && s[w] == ','
    requires k == PastComma(s, w)
    ensures SpaceCommas(s) == ", " + SpaceCommas(s[k..])
  {
  }

  /** One step of `SpaceCommas` where no comma follows the whitespace. */
  lemma SpaceCommasKept(s: string)
    requires s != [] && !(SpaceRun(s) < |s| && s[SpaceRun(s)] == ',')
    ensures SpaceCommas(s) == [s[0]] + SpaceCommas(s[1..])
  {
  }

  lemma {:induction false} SpaceCommasFixedKeep(s: string)
    requires CommaSpacedOpen(s) && s != [] && s[0] != ','
    ensures SpaceCommas(s) == s + Tail(s)
    decreases |s|, 0
  {
    SingleSpaceRun(s);
    SpaceCommasFixed(s[1..]);
    if |s| > 1 {
      assert Tail(s[1..]) == Tail(s);
    }
    SpaceCommasKept(s);
    assert s == [s[0]] + s[1..];
  }

  // ---------------------------------------------------------------------
  // Properties of normalizeFontValue

  /** Normalising twice is normalising once. */
  lemma NormalizeIdempotent(value: string)
    ensures NormalizeFontValue(NormalizeFontValue(value)) == NormalizeFontValue(value)
  {
    NormalizedShape(value);
    var n := NormalizeFontValue(value);
    if n != [] {
      NormalFormFixed(n);
    }
  }

  /** A normal form is in the closed comma form and does not start with
      whitespace. */
  lemma NormalizedShape(value: string)
    ensures var n := NormalizeFontValue(value);
      CommaSpaced(n) && (n == [] || !IsSpace(n[0]))
  {
    var t := Trim(value);
    TrimmedShape(value);
    var u := CollapseSpaces(t);
    CollapseShape(t);
    SpaceCommasShape(u);
  }

  /** Text in the closed comma form that does not start with whitespace is
      its own normal form. */
  lemma NormalFormFixed(n: string)
    requires CommaSpaced(n) && n != [] && !IsSpace(n[0])
    ensures NormalizeFontValue(n) == n
  {
    CommaSpacedEnd(n);
    if !IsSpace(n[|n| - 1]) {
      NormalFormFixedClosed(n);
    } else {
      NormalFormFixedSpace(n);
    }
  }

  lemma NormalFormFixedClosed(n: string)
    requires CommaSpaced(n) && n != [] && !IsSpace(n[0]) && !IsSpace(n[|n| - 1])
    ensures NormalizeFontValue(n) == n
  {
    CommaSpacedEnd(n);
    TrimOfTrimmed(n);
    CommaSpacedIsOpen(n);
    CollapseFixed(n);
    SpaceCommasFixed(n);
  }

  lemma NormalFormFixedSpace(n: string)
    requires CommaSpaced(n) && n != [] && !IsSpace(n[0]) && EndsWith(n, ", ")
    ensures NormalizeFontValue(n) == n
  {
    var m := n[..|n| - 1];
    TrailingOneSpace(n);
    CommaSpacedDropSpace(n);
    CollapseFixed(m);
    SpaceCommasFixed(m);
    assert m + " " == n;
  }

  lemma TrailingOneSpace(n: string)
    requires EndsWith(n, ", ") && !IsSpace(n[0])
    ensures Trim(n) == n[..|n| - 1]
  {
    assert n[|n| - 2] == ',';
    SpaceRunExact(n, 0);
    assert TrimStart(n) == n;
    assert TrailingSpaceRun(n[..|n| - 1]) == 0;
    assert TrailingSpaceRun(n) == 1;
  }

  /** A normalised value starts with the first character of the value when
      that is not whitespace. */
  lemma NormalizeFirst(value: string)
    requires value != [] && !IsSpace(value[0])
    ensures NormalizeFontValue(value) != [] && NormalizeFontValue(value)[0] == value[0]
  {
    SpaceRunExact(value, 0);
    TrimmedShape(value);
    var t := Trim(value);
    assert TrimStart(value) == value;
    assert t != [] && t[0] == value[0];
    CollapseShape(t);
    SpaceCommasShape(CollapseSpaces(t));
  }

  /** Text without whitespace or commas is in the open comma form. */
  lemma {:induction false} BareNameOpen(value: string)
    requires NoSpace(value) && ',' !in value
    ensures CommaSpacedOpen(value)
    decreases |value|
  {
    if value != [] {
      assert !IsSpace(value[0]) && value[0] != ',';
      BareNameOpen(value[1..]);
    }
  }

  /** A value without whitespace or commas is its own normal form. */
  lemma NormalizeBareName(value: string)
    requires NoSpace(value) && ',' !in value
    ensures NormalizeFontValue(value) == value
  {
    if value != [] {
      assert !IsSpace(value[0]) && !IsSpace(value[|value| - 1]);
    }
    TrimOfTrimmed(value);
    BareNameOpen(value);
    CollapseFixed(value);
    SpaceCommasFixed(value);
  }

  /** The normal form of a value that is all whitespace is empty, and the
      normal form of any other value is not. */
  lemma NormalizeEmpty(value: string)
    ensures NormalizeFontValue(value) == [] <==> AllSpace(value)
  {
    TrimEmpty(value);
    var t := Trim(value);
    TrimmedShape(value);
    if t != [] {
      CollapseShape(t);
      SpaceCommasShape(CollapseSpaces(t));
    }
  }
}
