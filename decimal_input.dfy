/**
 * The decimal text field used for the sampling parameters (src/components/ui/decimal-input.tsx).
 * The field keeps the text it displays; typing emits the parsed number or `-1`, leaving the
 * field normalises the text, and focusing it clears it.
 *
 * The accepted language `^-?\d*([.]\d+)?$` is modelled by a lexer `Lex` into a `Decimal`
 * and its inverse `Render`; `parseFloat` on an accepted text is the exact value of that decimal.
 */
module DecimalInput {
  import opened Wrappers
  import opened Numbers
  import Text

  /** An optional minus, a possibly empty run of digits, and an optional non-empty fraction. */
  datatype Decimal = Decimal(negative: bool, whole: string, fraction: Option<string>)

  predicate WellFormed(d: Decimal)
  {
    Text.AllDigits(d.whole) && (d.fraction.Some? ==> d.fraction.value != [] && Text.AllDigits(d.fraction.value))
  }

  /** The text of a decimal. */
  function Render(d: Decimal): string
  {
    (if d.negative then "-" else "") + RenderUnsigned(d)
  }

  /** Matching `^-?\d*([.]\d+)?$`: `None` when the text does not match. */
  function Lex(s: string): Option<Decimal>
  {
    if |s| > 0 && s[0] == '-' then LexUnsigned(true, s[1..]) else LexUnsigned(false, s)
  }

  /** Matching `\d*([.]\d+)?` after the sign has been read. */
  function LexUnsigned(negative: bool, t: string): Option<Decimal>
  {
    var k := Text.DigitRun(t);
    var rest := t[k..];
    if rest == [] then Some(Decimal(negative, t[..k], None))
    else if rest[0] == '.' && |rest| > 1 && Text.AllDigits(rest[1..]) then Some(Decimal(negative, t[..k], Some(rest[1..])))
    else None
  }

  function RenderUnsigned(d: Decimal): string
  {
    d.whole + (if d.fraction.Some? then "." + d.fraction.value else "")
  }

  lemma {:induction false} LexUnsignedRender(d: Decimal)
    requires WellFormed(d)
    ensures LexUnsigned(d.negative, RenderUnsigned(d)) == Some(d)
  {
    var rest := if d.fraction.Some? then "." + d.fraction.value else "";
    var t := d.whole + rest;
    Text.DigitRunOfDigits(d.whole, rest);
    assert t[..|d.whole|] == d.whole;
    assert t[|d.whole|..] == rest;
    if d.fraction.Some? {
      assert rest[1..] == d.fraction.value;
    }
  }

  lemma {:induction false} RenderLexUnsigned(negative: bool, t: string)
    requires LexUnsigned(negative, t).Some?
    ensures WellFormed(LexUnsigned(negative, t).value)
    ensures LexUnsigned(negative, t).value.negative == negative
    ensures RenderUnsigned(LexUnsigned(negative, t).value) == t
  {
    Text.DigitRunPrefixIsDigits(t);
    var k := Text.DigitRun(t);
    var rest := t[k..];
    assert t == t[..k] + rest;
    if rest != [] {
      assert rest == "." + rest[1..];
    }
  }

  /** Every well-formed decimal is matched, and lexes back to itself. */
  lemma {:induction false} LexRender(d: Decimal)
    requires WellFormed(d)
    ensures Lex(Render(d)) == Some(d)
  {
    LexUnsignedRender(d);
    var u := RenderUnsigned(d);
    if d.negative {
      assert Render(d) == "-" + u;
      assert ("-" + u)[1..] == u;
    } else {
      assert Render(d) == u;
      if |u| > 0 {
        assert u[0] == '.' || Text.IsDigit(u[0]);
      }
    }
  }

  /** Every matched text is the rendering of a well-formed decimal. */
  lemma {:induction false} RenderLex(s: string)
    requires Lex(s).Some?
    ensures WellFormed(Lex(s).value) && Render(Lex(s).value) == s
  {
    if |s| > 0 && s[0] == '-' {
      RenderLexUnsigned(true, s[1..]);
      var d := LexUnsigned(true, s[1..]).value;
      assert Lex(s) == Some(d);
      assert s == "-" + s[1..];
    } else {
      RenderLexUnsigned(false, s);
      assert Lex(s) == LexUnsigned(false, s);
    }
  }

  /** The value of the digits after the point. */
  function FractionValue(f: string): real
    requires Text.AllDigits(f)
  {
    Text.DigitsValue(f) as real / Text.Pow10(|f|) as real
  }

  /** The value of an optional fraction. */
  function OptionalFractionValue(f: Option<string>): real
    requires f.Some? ==> Text.AllDigits(f.value)
  {
    if f.Some? then FractionValue(f.value) else 0.0
  }

  function Magnitude(d: Decimal): real
    requires WellFormed(d)
  {
    Text.DigitsValue(d.whole) as real + OptionalFractionValue(d.fraction)
  }

  /** `parseFloat` of a matched text: `NaN` when there is no digit at all (the lone "-"). */
  function Value(d: Decimal): Num
    requires WellFormed(d)
  {
    if d.whole == [] && d.fraction.None? then NaN
    else Finite(if d.negative then -Magnitude(d) else Magnitude(d))
  }

  /** The test `handleChange` applies before emitting the parsed number. */
  predicate Accepts(val: string)
  {
    Lex(Text.Trim(val)).Some? && Text.Trim(val) != "" && val != "."
  }

  /**
   * `parseFloat(val)` for an accepted text: leading white space is skipped and the
   * trailing white space after the match is ignored.
   */
  function ParseFloat(val: string): Num
    requires Lex(Text.Trim(val)).Some?
  {
    RenderLex(Text.Trim(val));
    Value(Lex(Text.Trim(val)).value)
  }

  /** What typing `input` does: the new display and the emitted value. */
  function ChangeResult(input: string): (string, Num)
  {
    var val := Text.ReplaceFirst(input, ',', '.');
    (val, if Accepts(val) then ParseFloat(val) else Sentinel)
  }

  // ---------------------------------------------------------------- normal form on leaving the field

  predicate AllZeros(s: string)
  {
    forall i :: 0 <= i < |s| ==> s[i] == '0'
  }

  function StripLeadingZeros(s: string): (r: string)
    ensures r == [] || r[0] != '0'
    ensures |r| <= |s| && r == s[|s| - |r|..]
    ensures AllZeros(s[..|s| - |r|])
  {
    if s != [] && s[0] == '0' then StripLeadingZeros(s[1..]) else s
  }

  function StripTrailingZeros(s: string): (r: string)
    ensures r == [] || r[|r| - 1] != '0'
    ensures |r| <= |s| && r == s[..|r|]
    ensures AllZeros(s[|r|..])
  {
    if s != [] && s[|s| - 1] == '0' then
      var r := StripTrailingZeros(s[..|s| - 1]);
      assert s[|r|..] == s[..|s| - 1][|r|..] + [s[|s| - 1]];
      r
    else s
  }

  /** The digits before the point, without leading zeros, and "0" when none is left. */
  function NormalWhole(w: string): string
  {
    var r := StripLeadingZeros(w);
    if r == [] then "0" else r
  }

  /** The digits after the point, without trailing zeros, and no fraction when none is left. */
  function NormalFraction(f: Option<string>): Option<string>
  {
    if f.None? then None
    else
      var r := StripTrailingZeros(f.value);
      if r == [] then None else Some(r)
  }

  /**
   * The text `Number.prototype.toString` gives for the value of a decimal: no leading zeros
   * (but a "0" before the point), no trailing zeros after it, no point when nothing follows it,
   * and no minus sign on zero.
   */
  function Canonical(d: Decimal): Decimal
  {
    var w := NormalWhole(d.whole);
    var f := NormalFraction(d.fraction);
    Decimal(d.negative && !(w == "0" && f.None?), w, f)
  }

  lemma {:induction false} StripLeadingZerosValue(s: string)
    requires Text.AllDigits(s)
    ensures Text.AllDigits(StripLeadingZeros(s))
    ensures Text.DigitsValue(StripLeadingZeros(s)) == Text.DigitsValue(s)
  {
    if s != [] && s[0] == '0' {
      StripLeadingZerosValue(s[1..]);
      Text.DigitsValueLeadingZero(s[1..]);
      assert s == "0" + s[1..];
    }
  }

  lemma {:induction false} StripTrailingZerosValue(f: string)
    requires Text.AllDigits(f)
    ensures Text.AllDigits(StripTrailingZeros(f))
    ensures FractionValue(StripTrailingZeros(f)) == FractionValue(f)
  {
    if f != [] && f[|f| - 1] == '0' {
      var g := f[..|f| - 1];
      StripTrailingZerosValue(g);
      assert Text.DigitsValue(f) == Text.DigitsValue(g) * 10;
      assert Text.Pow10(|f|) == Text.Pow10(|g|) * 10;
      ScaledRatio(Text.DigitsValue(g), Text.Pow10(|g|));
    }
  }

  lemma {:induction false} ScaledRatio(a: nat, b: nat)
    requires b >= 1
    ensures (a * 10) as real / (b * 10) as real == a as real / b as real
  {
    var x := a as real / b as real;
    assert a as real == x * b as real;
    assert (a * 10) as real == x * (b * 10) as real;
  }

  /** Normalising keeps the value of a decimal that has a digit, and the result always has one. */
  lemma {:induction false} CanonicalValue(d: Decimal)
    requires WellFormed(d)
    ensures WellFormed(Canonical(d))
    ensures Canonical(d).whole != []
    ensures !(d.whole == [] && d.fraction.None?) ==> Value(Canonical(d)) == Value(d)
  {
    NormalWholeValue(d.whole);
    NormalFractionValue(d.fraction);
    var c := Canonical(d);
    assert WellFormed(c);
    assert Magnitude(c) == Magnitude(d);
    assert c.negative != d.negative ==> Magnitude(d) == 0.0;
  }

  lemma {:induction false} NormalWholeValue(w: string)
    requires Text.AllDigits(w)
    ensures NormalWhole(w) != [] && Text.AllDigits(NormalWhole(w))
    ensures Text.DigitsValue(NormalWhole(w)) == Text.DigitsValue(w)
    ensures NormalWhole(w) == "0" <==> Text.DigitsValue(w) == 0
  {
    StripLeadingZerosValue(w);
    var r := StripLeadingZeros(w);
    if r == [] {
      assert Text.DigitsValue("0") == 0 by {
        assert "0"[..0] == [];
      }
    } else {
      assert r[0] != '0';
      RangeOfLeadingDigit(r);
    }
  }

  /** A digit string that does not start with 0 has a non-zero value. */
  lemma {:induction false} RangeOfLeadingDigit(r: string)
    requires Text.AllDigits(r) && r != [] && r[0] != '0'
    ensures Text.DigitsValue(r) > 0
  {
    if |r| > 1 {
      RangeOfLeadingDigit(r[..|r| - 1]);
    }
  }

  lemma {:induction false} NormalFractionValue(f: Option<string>)
    requires f.Some? ==> Text.AllDigits(f.value)
    ensures NormalFraction(f).Some? ==> NormalFraction(f).value != [] && Text.AllDigits(NormalFraction(f).value)
    ensures OptionalFractionValue(NormalFraction(f)) == OptionalFractionValue(f)
    ensures NormalFraction(f).None? <==> OptionalFractionValue(f) == 0.0
  {
    if f.Some? {
      StripTrailingZerosValue(f.value);
      var r := StripTrailingZeros(f.value);
      if r != [] {
        RangeOfTrailingDigit(r);
      }
    }
  }

  lemma {:induction false} RangeOfTrailingDigit(r: string)
    requires Text.AllDigits(r) && r != [] && r[|r| - 1] != '0'
    ensures FractionValue(r) > 0.0
  {
    assert Text.DigitsValue(r) > 0;
  }

  /** A normalised decimal is already normal. */
  lemma {:induction false} CanonicalIsFixpoint(d: Decimal)
    requires WellFormed(d)
    ensures Canonical(Canonical(d)) == Canonical(d)
  {
    var c := Canonical(d);
    if c.whole == "0" {
      assert StripLeadingZeros("0") == [];
    }
  }

  lemma {:induction false} RenderCharacters(d: Decimal)
    requires WellFormed(d)
    ensures forall i :: 0 <= i < |Render(d)| ==> Render(d)[i] == '-' || Render(d)[i] == '.' || Text.IsDigit(Render(d)[i])
  {
  }

  const InvalidValueText := "Invalid Value"

  /** What leaving the field does: the new display and the emitted value. */
  function BlurResult(display: string): (string, Num)
  {
    var val := Text.Trim(Text.ReplaceFirst(display, ',', '.'));
    if Lex(val).None? || val == "" || val == "." then (InvalidValueText, Sentinel)
    else
      RenderLex(val);
      var d := Lex(val).value;
      var num := Value(d);
      (if num.NaN? then "NaN" else Render(Canonical(d)), num)
  }

  /**
   * The blur normalisation is idempotent on its own output, unless that output is "NaN": a
   * normalised plain-decimal text is accepted again and keeps its value, and "Invalid Value"
   * stays invalid.
   */
  lemma {:induction false} BlurIdempotentUnlessNaN(display: string)
    ensures BlurResult(display).0 != "NaN" ==> BlurResult(BlurResult(display).0) == BlurResult(display)
  {
    var val := Text.Trim(Text.ReplaceFirst(display, ',', '.'));
    if Lex(val).None? || val == "" || val == "." {
      InvalidValueStaysInvalid();
    } else {
      RenderLex(val);
      var d := Lex(val).value;
      if Value(d).Finite? {
        BlurOfCanonical(d);
      }
    }
  }

  lemma {:induction false} InvalidValueStaysInvalid()
    ensures BlurResult(InvalidValueText) == (InvalidValueText, Sentinel)
  {
    InvalidTextUnchangedByReplace();
    InvalidTextUnchangedByTrim();
    InvalidTextUnmatched();
    BlurOfUnmatched(InvalidValueText);
  }

  lemma {:induction false} InvalidTextUnchangedByReplace()
    ensures Text.ReplaceFirst(InvalidValueText, ',', '.') == InvalidValueText
  {
    assert ',' !in InvalidValueText;
    Text.ReplaceFirstAbsent(InvalidValueText, ',', '.');
  }

  lemma {:induction false} InvalidTextUnchangedByTrim()
    ensures Text.Trim(InvalidValueText) == InvalidValueText
  {
    Text.TrimOfUnpadded(InvalidValueText);
  }

  lemma {:induction false} InvalidTextUnmatched()
    ensures Lex(InvalidValueText).None?
  {
    assert Text.DigitRun(InvalidValueText) == 0;
  }

  lemma {:induction false} BlurOfUnmatched(display: string)
    requires Lex(Text.Trim(Text.ReplaceFirst(display, ',', '.'))).None?
    ensures BlurResult(display) == (InvalidValueText, Sentinel)
  {
  }

  /** The normal text of a decimal that has a digit is accepted again, unchanged and with the same value. */
  lemma {:induction false} BlurOfCanonical(d: Decimal)
    requires WellFormed(d) && !(d.whole == [] && d.fraction.None?)
    ensures BlurResult(Render(Canonical(d))) == (Render(Canonical(d)), Value(d))
  {
    CanonicalValue(d);
    var c := Canonical(d);
    var t := Render(c);
    RenderIsBare(c);
    LexRender(c);
    RenderWithDigit(c);
    CanonicalValue(c);
    BlurOfMatched(t, c);
    CanonicalIsFixpoint(d);
  }

  /** The text of a decimal has no comma and no surrounding white space. */
  lemma {:induction false} RenderIsBare(c: Decimal)
    requires WellFormed(c)
    ensures Text.ReplaceFirst(Render(c), ',', '.') == Render(c)
    ensures Text.Trim(Render(c)) == Render(c)
  {
    RenderCharacters(c);
    Text.ReplaceFirstAbsent(Render(c), ',', '.');
    Text.TrimOfUnspaced(Render(c));
  }

  lemma {:induction false} BlurOfMatched(val: string, c: Decimal)
    requires Text.Trim(Text.ReplaceFirst(val, ',', '.')) == val
    requires Lex(val) == Some(c) && val != "" && val != "."
    requires WellFormed(c) && Value(c).Finite?
    ensures BlurResult(val) == (Render(Canonical(c)), Value(c))
  {
  }

  lemma {:induction false} RenderWithDigit(c: Decimal)
    requires WellFormed(c) && c.whole != []
    ensures Render(c) != "" && Render(c) != "."
  {
    var u := RenderUnsigned(c);
    assert u[0] == c.whole[0];
    if c.negative {
      assert Render(c)[0] == '-';
    } else {
      assert Render(c) == u;
    }
  }

  /** Typing the text of any well-formed decimal shows it as typed and emits its exact value. */
  lemma {:induction false} ChangeOfDecimalText(d: Decimal)
    requires WellFormed(d) && Render(d) != ""
    ensures ChangeResult(Render(d)) == (Render(d), Value(d))
  {
    RenderIsBare(d);
    LexRender(d);
  }

  /** The empty text, a lone point and a point without digits after it all emit `-1`. */
  lemma {:induction false} ChangeRejections()
    ensures !Accepts("") && ChangeResult("").1 == Sentinel
    ensures !Accepts(".") && ChangeResult(".").1 == Sentinel
    ensures !Accepts("1.") && ChangeResult("1.").1 == Sentinel
  {
    Text.ReplaceFirstAbsent("", ',', '.');
    Text.ReplaceFirstAbsent(".", ',', '.');
    Text.ReplaceFirstAbsent("1.", ',', '.');
    assert Text.Trim("1.") == "1.";
    assert Lex("1.") == None by {
      assert Text.DigitRun("1.") == 1 by {
        assert "1."[1..] == ".";
      }
      assert "1."[1..] == ".";
    }
  }

  /**
   * A lone minus sign matches the pattern: typing it emits `NaN` (not `-1`), leaving the field
   * displays "NaN", and leaving it again turns that into "Invalid Value".
   */
  lemma {:induction false} LoneMinus()
    ensures ChangeResult("-") == ("-", NaN)
    ensures BlurResult("-") == ("NaN", NaN)
    ensures BlurResult("NaN") == (InvalidValueText, Sentinel)
  {
    Text.ReplaceFirstAbsent("-", ',', '.');
    assert Text.Trim("-") == "-";
    assert Lex("-") == Some(Decimal(true, "", None)) by {
      assert "-"[1..] == [];
      assert Text.DigitRun([]) == 0;
      assert ""[0..] == [] && ""[..0] == [];
    }
    Text.ReplaceFirstAbsent("NaN", ',', '.');
    assert Text.Trim("NaN") == "NaN";
    assert Lex("NaN") == None by {
      assert Text.DigitRun("NaN") == 0;
    }
  }

  /** The sentinel collides with a real input: typing "-1" emits the same value as typing "abc". */
  lemma {:induction false} SentinelCollides()
    ensures Accepts("-1") && ChangeResult("-1").1 == Sentinel
    ensures !Accepts("abc") && ChangeResult("abc").1 == Sentinel
  {
    Text.ReplaceFirstAbsent("-1", ',', '.');
    assert Text.Trim("-1") == "-1";
    assert Lex("-1") == Some(Decimal(true, "1", None)) by {
      assert "-1"[1..] == "1";
      assert Text.DigitRun("1") == 1 by {
        assert "1"[1..] == [];
      }
      assert "1"[1..] == [] && "1"[..1] == "1";
    }
    assert Text.DigitsValue("1") == 1 by {
      assert "1"[..0] == [];
    }
    Text.ReplaceFirstAbsent("abc", ',', '.');
    assert Text.Trim("abc") == "abc";
    assert Lex("abc") == None by {
      assert Text.DigitRun("abc") == 0;
    }
  }

  /** The field: the text it displays. It does not follow later changes of the value it was given. */
  class DecimalInputField {
    var display: string

    constructor(initial: Option<string>)
      ensures display == initial.GetOr("")
    {
      display := initial.GetOr("");
    }

    /** `handleFocus`: the display is cleared and `-1` is emitted. */
    method Focus() returns (emitted: Num)
      modifies this
      ensures display == "" && emitted == Sentinel
    {
      display := "";
      emitted := Sentinel;
    }

    /** `handleChange` for the text `input` now in the element. */
    method Change(input: string) returns (emitted: Num)
      modifies this
      ensures (display, emitted) == ChangeResult(input)
    {
      var r := ChangeResult(input);
      display := r.0;
      emitted := r.1;
    }

    /** `handleBlur`. */
    method Blur() returns (emitted: Num)
      modifies this
      ensures (display, emitted) == BlurResult(old(display))
    {
      var r := BlurResult(display);
      display := r.0;
      emitted := r.1;
    }
  }
}
