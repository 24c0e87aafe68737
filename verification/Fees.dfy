// Fee rates between the editor (sat/vB, three decimals) and Bitcoin Core (BTC/kvB,
// eight decimals), in the u64 arithmetic of src/lib.rs and src/policy.rs and in the
// string and BigInt arithmetic of web/static/settings.js.
module Fees {
  import opened Common
  import opened Strings
  import opened Decimals

  const U64_MAX: nat := 0xFFFF_FFFF_FFFF_FFFF

  datatype FeeError = BadSyntax | TooPrecise | Overflow

  type Fee = Result<string, FeeError>

  // ---------------------------------------------------------------- the meaning

  // Before and after the decimal point.
  function Parts(s: string): (string, string) {
    match SplitOnce(s, '.')
    case None => (s, "")
    case Some(pair) => pair
  }

  // A nonnegative decimal number with at most `places` decimals.
  predicate Number(s: string, places: nat) {
    var (whole, frac) := Parts(s);
    whole != "" && AllDigits(whole) && AllDigits(frac) && |frac| <= places
  }

  // The number, counted in units of 10^-places. A sat/vB in thousandths and a
  // BTC/kvB in hundred-millionths count the same unit.
  function Scaled(s: string, places: nat): nat
    requires Number(s, places)
  {
    var (whole, frac) := Parts(s);
    Value(whole) * Pow10(places) + Value(frac) * Pow10(places - |frac|)
  }

  lemma PartsOf(whole: string, frac: string)
    requires AllDigits(whole)
    ensures Parts(whole) == (whole, "")
    ensures Parts(whole + "." + frac) == (whole, frac)
  {
    SplitOnceNone(whole, '.');
    assert '.' !in whole;
    assert whole + "." + frac == whole + ['.'] + frac;
    SplitOnceAt(whole, '.', frac);
  }

  // ------------------------------------------------------------------- src/lib.rs

  function ParseU64(s: string): Option<nat>
    requires AllDigits(s)
  {
    if s == "" || Value(s) > U64_MAX then None else Some(Value(s))
  }

  // `{:0<w}` of a digit string.
  function PadRight(s: string, w: nat): (r: string)
    requires AllDigits(s) && |s| <= w
    ensures AllDigits(r) && |r| == w
  {
    ValueOfZeros(w - |s|);
    s + Repeat('0', w - |s|)
  }

  lemma ValueOfPadRight(s: string, w: nat)
    requires AllDigits(s) && |s| <= w
    ensures Value(PadRight(s, w)) == Value(s) * Pow10(w - |s|)
  {
    ValueOfZeros(w - |s|);
    ValueConcat(s, Repeat('0', w - |s|));
  }

  // whole * unit + fraction in checked u64 arithmetic.
  function Combine(whole: string, frac: string, places: nat): Result<nat, FeeError>
    requires AllDigits(whole) && AllDigits(frac) && |frac| <= places
  {
    match ParseU64(whole)
    case None => Err(Overflow)
    case Some(n) =>
      var scaled := n * Pow10(places);
      if scaled > U64_MAX then Err(Overflow)
      else match ParseU64(PadRight(frac, places))
        case None => Err(Overflow)
        case Some(f) => if scaled + f > U64_MAX then Err(Overflow) else Ok(scaled + f)
  }

  // The integer part of the digits and the fraction, in Core's format.
  function CoreText(units: nat): string {
    assert Pow10(8) == 100_000_000;
    Digits(units / 100_000_000) + "." + Padded(units % 100_000_000, 8)
  }

  function FeeToCore(input: string): Fee {
    if input == "" || exists c :: c in input && !IsDigit(c) && c != '.' then Err(BadSyntax)
    else
      var parts := Split(input, '.');
      if |parts| > 2 || parts[0] == "" then Err(BadSyntax)
      else
        var frac := if |parts| == 2 then parts[1] else "";
        SplitDigits(input);
        if |frac| > 3 then Err(TooPrecise)
        else match Combine(parts[0], frac, 3)
          case Err(e) => Err(e)
          case Ok(value) => Ok(CoreText(value))
  }

  lemma SplitDigits(input: string)
    requires forall c :: c in input ==> IsDigit(c) || c == '.'
    ensures forall part :: part in Split(input, '.') ==> AllDigits(part)
  {
    forall part | part in Split(input, '.')
      ensures AllDigits(part)
    {
      SplitParts(input, '.', part);
    }
  }

  // ----------------------------------------------------------------- src/policy.rs

  function NativeFeeToInput(value: string): Fee {
    var (whole, fraction) := Parts(value);
    if whole == "" || !AllDigits(whole) || |fraction| > 8 || !AllDigits(fraction) then Err(BadSyntax)
    else match Combine(whole, fraction, 8)
      case Err(e) => Err(e)
      case Ok(units) =>
        assert Pow10(3) == 1000;
        var text := Digits(units / 1000) + "." + Padded(units % 1000, 3);
        Ok(TrimEnd(TrimEnd(text, '0'), '.'))
  }

  // -------------------------------------------------------- web/static/settings.js

  // The catalog default of a fee, as the page shows it; "" when it does not match
  // the page's pattern of digits, optionally followed by a point and more digits.
  function DefaultValue(default: string): string {
    var (whole, frac) := Parts(default);
    if whole == "" || !AllDigits(whole) || !AllDigits(frac) || ('.' in default && frac == "") then ""
    else
      ValueConcat(whole, frac);
      var raw := Value(whole + frac);
      if |frac| <= 5 then Digits(raw * Pow10(5 - |frac|))
      else
        var power := |frac| - 5;
        var s := PadStart(Digits(raw), power + 1);
        DropZeroTail(s[..|s| - power] + "." + s[|s| - power..])
  }

  // `padStart(w, '0')`
  function PadStart(s: string, w: nat): (r: string)
    ensures |r| >= w && |r| >= |s|
  {
    if |s| >= w then s else Repeat('0', w - |s|) + s
  }

  // `replace(/\.?0+$/, '')`: the zeros at the end, with a point right before them.
  function DropZeroTail(s: string): string {
    var kept := TrimEnd(s, '0');
    if kept != s && kept != "" && kept[|kept| - 1] == '.' then kept[..|kept| - 1] else kept
  }

  // --------------------------------------------------------------- exact conversion

  lemma CombineExact(whole: string, frac: string, places: nat)
    requires AllDigits(whole) && whole != "" && AllDigits(frac) && |frac| <= places && 0 < places <= 8
    ensures var total := Value(whole) * Pow10(places) + Value(frac) * Pow10(places - |frac|);
      Combine(whole, frac, places) == if total <= U64_MAX then Ok(total) else Err(Overflow)
  {
    ValueOfPadRight(frac, places);
    var f := PadRight(frac, places);
    ValueBound(f);
    Pow10Monotone(places, 8);
    assert Pow10(8) == 100_000_000;
    assert Value(whole) <= Value(whole) * Pow10(places) by { MulGrows(Value(whole), Pow10(places)); }
  }

  lemma {:induction false} Pow10Monotone(a: nat, b: nat)
    requires a <= b
    ensures Pow10(a) <= Pow10(b)
  {
    if a < b {
      Pow10Monotone(a, b - 1);
    }
  }

  lemma MulGrows(n: nat, p: nat)
    requires p > 0
    ensures n <= n * p
  {
  }

  // Accepted exactly on the numbers of at most three decimals that fit, and the
  // value is kept to the last thousandth of a sat/vB.
  lemma FeeToCoreExact(s: string)
    ensures FeeToCore(s).Ok? <==> Number(s, 3) && Scaled(s, 3) <= U64_MAX
    ensures FeeToCore(s).Ok? ==> FeeToCore(s).value == CoreText(Scaled(s, 3))
  {
    NumberChars(s, 3);
    SplitOnceNone(s, '.');
    var (whole, frac) := Parts(s);
    if s != "" && forall c :: c in s ==> IsDigit(c) || c == '.' {
      if SplitOnce(s, '.').None? {
        FeeWithoutPoint(s);
      } else {
        FeeWithPoint(whole, frac);
      }
    }
  }

  lemma FeeWithoutPoint(s: string)
    requires s != "" && AllDigits(s)
    ensures Number(s, 3)
    ensures FeeToCore(s).Ok? <==> Scaled(s, 3) <= U64_MAX
    ensures FeeToCore(s).Ok? ==> FeeToCore(s).value == CoreText(Scaled(s, 3))
  {
    SplitSingle(s, '.');
    PartsOf(s, "");
    CombineExact(s, "", 3);
  }

  lemma FeeWithPoint(whole: string, frac: string)
    requires '.' !in whole && forall c :: c in whole + frac ==> IsDigit(c) || c == '.'
    ensures var s := whole + "." + frac;
      && (FeeToCore(s).Ok? <==> Number(s, 3) && Scaled(s, 3) <= U64_MAX)
      && (FeeToCore(s).Ok? ==> FeeToCore(s).value == CoreText(Scaled(s, 3)))
  {
    SplitAtPoint(whole, frac);
    PartsOf(whole, frac);
    if '.' !in frac && whole != "" && |frac| <= 3 {
      CombineExact(whole, frac, 3);
    }
  }

  lemma SplitAtPoint(whole: string, frac: string)
    requires '.' !in whole && forall c :: c in whole + frac ==> IsDigit(c) || c == '.'
    ensures var s := whole + "." + frac;
      && AllDigits(whole)
      && (forall c :: c in s ==> IsDigit(c) || c == '.')
      && Split(s, '.')[0] == whole
      && if '.' in frac then |Split(s, '.')| > 2 && !AllDigits(frac)
         else AllDigits(frac) && Split(s, '.') == [whole, frac]
  {
    var s := whole + "." + frac;
    assert forall c :: c in whole || c in frac ==> c in whole + frac;
    assert s == whole + ['.'] + frac;
    SplitHead(whole, '.', frac);
    if '.' in frac {
      ManyParts(frac);
    } else {
      SplitSingle(frac, '.');
    }
  }

  lemma ManyParts(frac: string)
    requires '.' in frac
    ensures |Split(frac, '.')| > 1 && !AllDigits(frac)
  {
    SplitOnceNone(frac, '.');
    var (a, b) := SplitOnce(frac, '.').value;
    SplitHead(a, '.', b);
  }

  lemma NumberChars(s: string, places: nat)
    ensures Number(s, places) ==> s != "" && forall c :: c in s ==> IsDigit(c) || c == '.'
  {
    SplitOnceNone(s, '.');
  }

  lemma CoreTextScaled(units: nat)
    ensures Number(CoreText(units), 8) && Scaled(CoreText(units), 8) == units
  {
    assert Pow10(8) == 100_000_000 && Pow10(0) == 1;
    var whole, frac := Digits(units / 100_000_000), Padded(units % 100_000_000, 8);
    PartsOf(whole, frac);
    ValueOfDigits(units / 100_000_000);
    ValueOfPadded(units % 100_000_000, 8);
    hide Digits, Padded, Value, Pow10, Parts;
  }

  // The editor's text for a fee: no zero at the end of the decimals.
  function InputText(units: nat): string {
    assert Pow10(3) == 1000;
    var whole := Digits(units / 1000);
    if units % 1000 == 0 then whole else whole + "." + TrimEnd(Padded(units % 1000, 3), '0')
  }

  lemma {:induction false} TrimTail(head: string, tail: string, c: char)
    requires TrimEnd(tail, c) != ""
    ensures TrimEnd(head + tail, c) == head + TrimEnd(tail, c)
  {
    var t := head + tail;
    assert tail != "" && t[|t| - 1] == tail[|tail| - 1];
    if tail[|tail| - 1] == c {
      assert t[..|t| - 1] == head + tail[..|tail| - 1];
      TrimTail(head, tail[..|tail| - 1], c);
    }
  }

  lemma {:induction false} TrimOnlyZeros(s: string)
    requires AllDigits(s)
    ensures TrimEnd(s, '0') == "" <==> Value(s) == 0
    ensures TrimEnd(s, '0') == "" ==> s == Repeat('0', |s|)
    ensures AllDigits(TrimEnd(s, '0')) && |TrimEnd(s, '0')| <= |s|
  {
    if s != "" {
      assert s[|s| - 1] in s && s[..|s| - 1] + [s[|s| - 1]] == s;
      TrimOnlyZeros(s[..|s| - 1]);
    }
  }

  lemma {:induction false} TrimKeepsScale(s: string)
    requires AllDigits(s)
    ensures var t := TrimEnd(s, '0');
      AllDigits(t) && |t| <= |s| && Value(t) * Pow10(|s| - |t|) == Value(s)
  {
    if s != "" {
      var init := s[..|s| - 1];
      assert s[|s| - 1] in s;
      if s[|s| - 1] == '0' {
        TrimKeepsScale(init);
        MulTen(Value(TrimEnd(init, '0')), Pow10(|init| - |TrimEnd(init, '0')|));
      }
    }
  }

  // The text the converter trims is exactly the canonical one.
  lemma TrimmedIsInputText(units: nat)
    ensures units % 1000 < Pow10(3)
    ensures TrimEnd(TrimEnd(Digits(units / 1000) + "." + Padded(units % 1000, 3), '0'), '.') == InputText(units)
  {
    assert Pow10(3) == 1000;
    var whole, frac := Digits(units / 1000), Padded(units % 1000, 3);
    ValueOfPadded(units % 1000, 3);
    TrimOnlyZeros(frac);
    NoPointAtEnd(whole);
    if units % 1000 == 0 {
      TrimEndRepeat(whole + ".", '0', 3);
      assert whole + "." + frac == (whole + ".") + Repeat('0', 3);
      assert TrimEnd(whole + ".", '0') == whole + ".";
      assert (whole + ".")[..|whole|] == whole;
    } else {
      TrimTail(whole + ".", frac, '0');
      NoPointAtEnd(TrimEnd(frac, '0'));
      var t := whole + "." + TrimEnd(frac, '0');
      assert t[|t| - 1] == TrimEnd(frac, '0')[|TrimEnd(frac, '0')| - 1];
    }
  }

  lemma NoPointAtEnd(s: string)
    requires s != "" && AllDigits(s)
    ensures s[|s| - 1] != '.' && TrimEnd(s, '.') == s
  {
    assert s[|s| - 1] in s;
  }

  lemma InputTextScaled(units: nat)
    ensures Number(InputText(units), 3) && Scaled(InputText(units), 3) == units
  {
    assert Pow10(3) == 1000;
    var whole, padded := Digits(units / 1000), Padded(units % 1000, 3);
    ValueOfDigits(units / 1000);
    ValueOfPadded(units % 1000, 3);
    TrimKeepsScale(padded);
    TrimOnlyZeros(padded);
    PartsOf(whole, TrimEnd(padded, '0'));
    assert Value("") == 0;
  }

  // Accepted exactly on the numbers of at most eight decimals that fit, and the
  // value is kept to the last hundred-millionth of a BTC/kvB.
  lemma NativeFeeToInputExact(s: string)
    ensures NativeFeeToInput(s).Ok? <==> Number(s, 8) && Scaled(s, 8) <= U64_MAX
    ensures NativeFeeToInput(s).Ok? ==> NativeFeeToInput(s).value == InputText(Scaled(s, 8))
  {
    if Number(s, 8) {
      var (whole, frac) := Parts(s);
      CombineExact(whole, frac, 8);
      TrimmedIsInputText(Scaled(s, 8));
    }
  }

  // ------------------------------------------------------------------ round trips

  // A saved fee can always be shown again, and saving what is shown changes nothing.
  lemma SavedFeeIsStable(s: string)
    requires FeeToCore(s).Ok?
    ensures NativeFeeToInput(FeeToCore(s).value).Ok?
    ensures FeeToCore(NativeFeeToInput(FeeToCore(s).value).value) == FeeToCore(s)
  {
    FeeToCoreExact(s);
    var units := Scaled(s, 3);
    CoreTextScaled(units);
    NativeFeeToInputExact(CoreText(units));
    InputTextScaled(units);
    FeeToCoreExact(InputText(units));
  }

  // A fee as the editor writes it: no leading zero, no zero at the end of the decimals.
  predicate CanonicalInput(s: string) {
    var (whole, frac) := Parts(s);
    && Number(s, 3) && Canonical(whole)
    && (frac == "" ==> '.' !in s)
    && (frac != "" ==> frac[|frac| - 1] != '0')
  }

  // A fee as the managed file holds it: no leading zero, exactly eight decimals.
  predicate CanonicalNative(s: string) {
    var (whole, frac) := Parts(s);
    Number(s, 8) && Canonical(whole) && |frac| == 8
  }

  // The digits of a fraction, brought to three decimals and trimmed again.
  lemma InputTail(frac: string, tail: nat)
    requires AllDigits(frac) && |frac| <= 3 && (frac != "" ==> frac[|frac| - 1] != '0')
    requires tail == Value(frac) * Pow10(3 - |frac|) && tail < Pow10(3)
    ensures TrimEnd(Padded(tail, 3), '0') == frac
    ensures tail == 0 <==> frac == ""
  {
    PaddedOfValue(frac);
    PaddedZeros(Value(frac), |frac|, 3 - |frac|);
    assert Padded(tail, 3) == frac + Repeat('0', 3 - |frac|);
    TrimEndRepeat(frac, '0', 3 - |frac|);
    if frac == "" {
      assert Value(frac) == 0;
    } else {
      assert Value(frac) != 0 by { LastDigitCounts(frac); }
      MulGrows(Value(frac), Pow10(3 - |frac|));
    }
    hide Padded, Repeat, Value, Pow10;
  }

  lemma LastDigitCounts(frac: string)
    requires frac != "" && AllDigits(frac) && frac[|frac| - 1] != '0'
    ensures Value(frac) != 0
  {
    var shorter, last := frac[..|frac| - 1], frac[|frac| - 1];
    assert frac == shorter + [last];
    ValueSnoc(shorter, last);
  }

  lemma ThousandUnits()
    ensures Pow10(3) == 1000
  {
  }

  lemma InputDivided(v: nat, t: nat, p: nat, units: nat)
    requires p == 1000 && units == v * p + t && t < p
    ensures units / 1000 == v && units % 1000 == t
  {
    DivUnique(units, p, v, t);
  }

  lemma InputDigits(whole: string, frac: string, units: nat)
    requires AllDigits(whole) && AllDigits(frac) && |frac| <= 3
    requires units == Value(whole) * Pow10(3) + Value(frac) * Pow10(3 - |frac|)
    ensures Value(frac) * Pow10(3 - |frac|) < Pow10(3)
    ensures units / 1000 == Value(whole) && units % 1000 == Value(frac) * Pow10(3 - |frac|)
  {
    hide Value, Pow10;
    ThousandUnits();
    ValueBound(frac);
    ScaledBound(Value(frac), |frac|, 3 - |frac|);
    InputDivided(Value(whole), Value(frac) * Pow10(3 - |frac|), Pow10(3), units);
  }

  lemma InputTextOf(whole: string, frac: string, units: nat)
    requires Digits(units / 1000) == whole && units % 1000 < Pow10(3)
    requires TrimEnd(Padded(units % 1000, 3), '0') == frac && (units % 1000 == 0 <==> frac == "")
    ensures InputText(units) == if frac == "" then whole else whole + "." + frac
  {
    hide Digits, Padded, TrimEnd, Pow10;
  }

  lemma Rejoined(s: string)
    requires CanonicalInput(s)
    ensures var (whole, frac) := Parts(s);
      s == if frac == "" then whole else whole + "." + frac
  {
    SplitOnceNone(s, '.');
  }

  lemma CanonicalInputIsInputText(s: string)
    requires CanonicalInput(s)
    ensures s == InputText(Scaled(s, 3))
  {
    var (whole, frac) := Parts(s);
    var units := Scaled(s, 3);
    hide Digits, Padded, TrimEnd, Pow10, Value, InputText, SplitOnce;
    DigitsOfValue(whole);
    InputDigits(whole, frac, units);
    InputTail(frac, units % 1000);
    InputTextOf(whole, frac, units);
    Rejoined(s);
  }

  lemma CanonicalNativeIsCoreText(s: string)
    requires CanonicalNative(s)
    ensures s == CoreText(Scaled(s, 8))
  {
    SplitOnceNone(s, '.');
    var (whole, frac) := Parts(s);
    assert Pow10(8) == 100_000_000 && Pow10(0) == 1;
    DigitsOfValue(whole);
    PaddedOfValue(frac);
    var units := Scaled(s, 8);
    assert units / 100_000_000 == Value(whole) && units % 100_000_000 == Value(frac);
  }

  // On canonical texts each conversion undoes the other.
  lemma ConversionsInvert(s: string)
    ensures CanonicalInput(s) && FeeToCore(s).Ok? ==>
              CanonicalNative(FeeToCore(s).value) && NativeFeeToInput(FeeToCore(s).value) == Ok(s)
    ensures CanonicalNative(s) && NativeFeeToInput(s).Ok? ==>
              CanonicalInput(NativeFeeToInput(s).value) && FeeToCore(NativeFeeToInput(s).value) == Ok(s)
  {
    FeeToCoreExact(s);
    NativeFeeToInputExact(s);
    if CanonicalInput(s) && FeeToCore(s).Ok? {
      CanonicalInputIsInputText(s);
      var units := Scaled(s, 3);
      CoreTextScaled(units);
      CoreTextCanonical(units);
      NativeFeeToInputExact(CoreText(units));
    }
    if CanonicalNative(s) && NativeFeeToInput(s).Ok? {
      CanonicalNativeIsCoreText(s);
      var units := Scaled(s, 8);
      InputTextScaled(units);
      InputTextCanonical(units);
      FeeToCoreExact(InputText(units));
    }
  }

  lemma CoreTextCanonical(units: nat)
    ensures CanonicalNative(CoreText(units))
  {
    assert Pow10(8) == 100_000_000;
    CoreTextScaled(units);
    PartsOf(Digits(units / 100_000_000), Padded(units % 100_000_000, 8));
    DigitsCanonical(units / 100_000_000);
  }

  lemma InputTextCanonical(units: nat)
    ensures CanonicalInput(InputText(units))
  {
    assert Pow10(3) == 1000;
    InputTextScaled(units);
    var whole, padded := Digits(units / 1000), Padded(units % 1000, 3);
    PartsOf(whole, TrimEnd(padded, '0'));
    DigitsCanonical(units / 1000);
    ValueOfPadded(units % 1000, 3);
    TrimOnlyZeros(padded);
    TrimEndEnds(padded, '0');
  }

  lemma {:induction false} TrimEndEnds(s: string, c: char)
    ensures TrimEnd(s, c) != "" ==> TrimEnd(s, c)[|TrimEnd(s, c)| - 1] != c
  {
    if s != "" && s[|s| - 1] == c {
      TrimEndEnds(s[..|s| - 1], c);
    }
  }

  // ------------------------------------------------------------- the page agrees

  // Where the converter accepts a default, the page shows the same text, exactly
  // when the default does not end in a bare point.
  lemma PageAgrees(s: string)
    requires NativeFeeToInput(s).Ok?
    ensures DefaultValue(s) == NativeFeeToInput(s).value <==> s[|s| - 1] != '.'
  {
    NativeFeeToInputExact(s);
    NumberChars(s, 8);
    SplitOnceNone(s, '.');
    var (whole, frac) := Parts(s);
    var units := Scaled(s, 8);
    if '.' in s && frac == "" {
      InputTextCanonical(units);
      NumberChars(InputText(units), 3);
    } else {
      PageShowsInput(whole, frac, s);
      var last := if frac == "" then whole else frac;
      assert s[|s| - 1] == last[|last| - 1];
      assert last[|last| - 1] in last;
    }
  }

  lemma PageShowsInput(whole: string, frac: string, s: string)
    requires Parts(s) == (whole, frac) && Number(s, 8) && ('.' in s ==> frac != "")
    ensures DefaultValue(s) == InputText(Scaled(s, 8))
  {
    hide Value, Pow10, Digits, PadStart, DropZeroTail, InputText, SplitOnce;
    ValueConcat(whole, frac);
    if |frac| <= 5 {
      FewDecimals(whole, frac, Scaled(s, 8));
    } else {
      ManyDecimals(whole, frac, Scaled(s, 8));
    }
  }

  // A concrete default on which they differ.
  lemma PageDiffersOnBarePoint()
    ensures NativeFeeToInput("0.") == Ok("0") && DefaultValue("0.") == ""
  {
    BarePointIsZero();
    NativeFeeToInputExact("0.");
    assert InputText(0) == "0";
    assert "0."[1] == '.';
  }

  lemma BarePointIsZero()
    ensures Parts("0.") == ("0", "") && Number("0.", 8) && Scaled("0.", 8) == 0
  {
    PartsOf("0", "");
    assert "0" + "." + "" == "0.";
    ValueOfZeros(1);
    assert Repeat('0', 1) == "0";
    ValueOfZeros(0);
  }

  lemma UnitsAre(w: nat, f: nat, p: nat, q: nat, pq: nat, raw: nat, units: nat)
    requires pq == p * q && raw == w * p + f && units == w * pq + f * q
    ensures units == raw * q
  {
    assert (w * p + f) * q == (w * p) * q + f * q;
    assert (w * p) * q == w * (p * q);
  }

  lemma Thousands(raw: nat, a: nat, b: nat, units: nat)
    requires b == 1000 * a && units == raw * b
    ensures units == 1000 * (raw * a)
  {
    assert raw * (1000 * a) == 1000 * (raw * a);
  }

  // The units, from all digits read as one number.
  lemma RawUnits(whole: string, frac: string, units: nat)
    requires AllDigits(whole) && AllDigits(frac) && |frac| <= 8 && AllDigits(whole + frac)
    requires units == Value(whole) * Pow10(8) + Value(frac) * Pow10(8 - |frac|)
    ensures units == Value(whole + frac) * Pow10(8 - |frac|)
  {
    hide Pow10, Value;
    ValueConcat(whole, frac);
    Pow10Add(|frac|, 8 - |frac|);
    UnitsAre(Value(whole), Value(frac), Pow10(|frac|), Pow10(8 - |frac|), Pow10(8), Value(whole + frac), units);
  }

  lemma FewDecimals(whole: string, frac: string, units: nat)
    requires AllDigits(whole) && AllDigits(frac) && |frac| <= 5
    requires units == Value(whole) * Pow10(8) + Value(frac) * Pow10(8 - |frac|)
    ensures AllDigits(whole + frac)
    ensures Digits(Value(whole + frac) * Pow10(5 - |frac|)) == InputText(units)
  {
    hide Pow10, Value, Digits, Padded, TrimEnd;
    ThousandUnits();
    ValueConcat(whole, frac);
    RawUnits(whole, frac, units);
    Pow10Add(3, 5 - |frac|);
    Thousands(Value(whole + frac), Pow10(5 - |frac|), Pow10(8 - |frac|), units);
  }

  lemma ManyDecimals(whole: string, frac: string, units: nat)
    requires AllDigits(whole) && AllDigits(frac) && 5 < |frac| <= 8 && AllDigits(whole + frac)
    requires units == Value(whole) * Pow10(8) + Value(frac) * Pow10(8 - |frac|)
    ensures var power := |frac| - 5;
      var s := PadStart(Digits(Value(whole + frac)), power + 1);
      DropZeroTail(s[..|s| - power] + "." + s[|s| - power..]) == InputText(units)
  {
    hide Pow10, Value, Digits, Padded, PadStart, DropZeroTail, InputText;
    var raw, power := Value(whole + frac), |frac| - 5;
    var rest := 3 - power;
    RawUnits(whole, frac, units);
    var head, tail := Division(raw, Pow10(power));
    PageDigits(raw, power, head, tail);
    SplitUnits(units, raw, power, rest, head, tail);
    PageText(units, power, rest, head, tail);
  }

  lemma Division(n: nat, p: nat) returns (q: nat, r: nat)
    requires p > 0
    ensures n == q * p + r && r < p
  {
    q, r := n / p, n % p;
  }

  lemma PageText(units: nat, power: nat, rest: nat, head: nat, tail: nat)
    requires 0 < power && power + rest == 3 && tail < Pow10(power)
    requires units / 1000 == head && units % 1000 == tail * Pow10(rest)
    ensures DropZeroTail(Digits(head) + "." + Padded(tail, power)) == InputText(units)
  {
    ValueOfPadded(tail, power);
    TrimOnlyZeros(Padded(tail, power));
    TailDropped(Digits(head), Padded(tail, power));
    MulGrows(tail, Pow10(rest));
    if tail != 0 {
      assert Pow10(3) == 1000;
      PaddedZeros(tail, power, rest);
      TrimEndRepeat(Padded(tail, power), '0', rest);
    }
  }

  // The page cuts the padded digits where the decimals begin.
  lemma PageDigits(raw: nat, power: nat, head: nat, tail: nat)
    requires 0 < power && tail < Pow10(power) && raw == head * Pow10(power) + tail
    ensures var s := PadStart(Digits(raw), power + 1);
      s[..|s| - power] == Digits(head) && s[|s| - power..] == Padded(tail, power)
  {
    DivUnique(raw, Pow10(power), head, tail);
    if raw >= Pow10(power) {
      DigitsSplit(raw, power);
      DigitsLength(raw, power + 1);
    } else {
      DivUnique(raw, Pow10(power), 0, raw);
      PageSmallDigits(raw, power);
    }
  }

  lemma PageSmallDigits(raw: nat, power: nat)
    requires 0 < power && raw < Pow10(power)
    ensures var s := PadStart(Digits(raw), power + 1);
      |s| == power + 1 && s[..1] == Digits(0) && s[1..] == Padded(raw, power)
  {
    var d := Digits(raw);
    DigitsShort(raw, power);
    PadStartFront(d, power);
    PadStartIsPadded(raw, d, power);
  }

  lemma PadStartFront(d: string, power: nat)
    requires |d| <= power
    ensures var s := PadStart(d, power + 1);
      |s| == power + 1 && s[..1] == "0" && s[1..] == Repeat('0', power - |d|) + d
  {
    RepeatTail('0', power + 1 - |d|);
    var zeros := Repeat('0', power + 1 - |d|);
    assert (zeros + d)[1..] == zeros[1..] + d;
  }

  lemma PadStartIsPadded(raw: nat, d: string, power: nat)
    requires raw < Pow10(power) && d == Digits(raw) && |d| <= power
    ensures Repeat('0', power - |d|) + d == Padded(raw, power)
  {
    ValueOfDigits(raw);
    var zeros := Repeat('0', power - |d|);
    LeadingZeros(power - |d|, d);
    var s := zeros + d;
    assert |s| == power && AllDigits(s) && Value(s) == raw;
    hide Digits, Repeat, Value;
    PaddedOfValue(s);
  }

  lemma LeadingZeros(n: nat, d: string)
    requires AllDigits(d)
    ensures AllDigits(Repeat('0', n) + d) && Value(Repeat('0', n) + d) == Value(d)
  {
    ValueOfZeros(n);
    ValueConcat(Repeat('0', n), d);
  }

  lemma {:induction false} RepeatTail(c: char, n: nat)
    requires n > 0
    ensures Repeat(c, n)[1..] == Repeat(c, n - 1)
  {
  }

  lemma {:induction false} DigitsLength(n: nat, w: nat)
    requires w > 0 && n >= Pow10(w - 1)
    ensures |Digits(n)| >= w
  {
    if w > 1 {
      DigitsLength(n / 10, w - 1);
    }
  }

  lemma {:induction false} DigitsShort(n: nat, w: nat)
    requires w > 0 && n < Pow10(w)
    ensures |Digits(n)| <= w
  {
    if n >= 10 {
      assert Pow10(1) == 10;
      DigitsShort(n / 10, w - 1);
    }
  }

  lemma SplitUnits(units: nat, raw: nat, power: nat, rest: nat, head: nat, tail: nat)
    requires power + rest == 3 && units == raw * Pow10(rest)
    requires raw == head * Pow10(power) + tail && tail < Pow10(power)
    ensures units / 1000 == head && units % 1000 == tail * Pow10(rest)
  {
    assert Pow10(3) == 1000;
    Pow10Add(power, rest);
    assert units == head * (Pow10(power) * Pow10(rest)) + tail * Pow10(rest);
    ScaledBound(tail, power, rest);
    DivUnique(units, 1000, head, tail * Pow10(rest));
  }

  lemma TailDropped(whole: string, frac: string)
    requires AllDigits(whole) && AllDigits(frac) && frac != ""
    ensures DropZeroTail(whole + "." + frac)
         == if TrimEnd(frac, '0') == "" then whole else whole + "." + TrimEnd(frac, '0')
  {
    TrimOnlyZeros(frac);
    if TrimEnd(frac, '0') == "" {
      TrimEndRepeat(whole + ".", '0', |frac|);
      assert whole + "." + frac == (whole + ".") + Repeat('0', |frac|);
      DropBarePoint(whole, whole + "." + frac);
    } else {
      TrimTail(whole + ".", frac, '0');
      var kept := TrimEnd(frac, '0');
      NoPointAtEnd(kept);
      assert (whole + "." + kept)[|whole + "." + kept| - 1] == kept[|kept| - 1];
    }
  }

  lemma DropBarePoint(whole: string, s: string)
    requires TrimEnd(s, '0') == TrimEnd(whole + ".", '0') && |s| > |whole| + 1
    ensures DropZeroTail(s) == whole
  {
    assert TrimEnd(whole + ".", '0') == whole + ".";
    assert (whole + ".")[..|whole|] == whole;
  }
}
