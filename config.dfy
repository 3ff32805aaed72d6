/** apps/api/src/config.ts: the port and CORS origins read from the
    environment. The environment itself is not modelled; each function takes
    the variable's value, `None` when it is unset. */
module Config {
  import opened Wrappers
  import opened Text

  const DEFAULT_PORT: real := 4000.0
  const DEFAULT_ORIGINS: seq<string> := ["http://localhost:5173"]

  /** A JavaScript number as far as `parsePort` looks at it. */
  datatype JsNumber = Finite(value: real) | Infinite(positive: bool) | NaN

  predicate IsFinite(x: JsNumber) {
    x.Finite?
  }

  /** The value of an unsigned decimal literal `digits[.digits]` or `.digits`. */
  function DecimalLiteralValue(s: string): Option<real> {
    if |s| == 0 then None
    else if '.' in s then
      var k := IndexOfDot(s);
      var whole, frac := s[..k], s[k + 1..];
      if AllDigits(whole) && AllDigits(frac) && (|whole| > 0 || |frac| > 0)
      then Some(DigitsValue(whole) as real + DigitsValue(frac) as real / Pow10(|frac|))
      else None
    else if AllDigits(s) then Some(DigitsValue(s) as real)
    else None
  }

  function IndexOfDot(s: string): (k: nat)
    requires '.' in s
    ensures k < |s| && s[k] == '.' && '.' !in s[..k]
  {
    if s[0] == '.' then 0 else
      assert s == [s[0]] + s[1..];
      1 + IndexOfDot(s[1..])
  }

  function Pow10(n: nat): (p: real)
    ensures p >= 1.0
  {
    if n == 0 then 1.0 else 10.0 * Pow10(n - 1)
  }

  /** 2^53: every integer up to it is a double. */
  const EXACT_INTEGER_LIMIT: int := 0x20_0000_0000_0000

  /** 2^1024 - 2^970, halfway between the largest double and 2^1024: a
      decimal value from here up rounds to Infinity. */
  const OVERFLOW_BOUND: int :=
    0xffff_ffff_ffff_fc00_0000_0000_0000_0000_0000_0000_0000_0000_0000_0000_0000_0000_0000_0000_0000_0000_0000_0000_0000_0000_0000_0000_0000_0000_0000_0000_0000_0000_0000_0000_0000_0000_0000_0000_0000_0000_0000_0000_0000_0000_0000_0000_0000_0000_0000_0000_0000_0000_0000_0000_0000_0000_0000_0000_0000_0000_0000_0000_0000_0000

  /** 2^1075: a positive decimal value of at most 1 / 2^1075, half the least
      subnormal double, rounds to 0. */
  const UNDERFLOW_DENOMINATOR: int :=
    0x8_0000_0000_0000_0000_0000_0000_0000_0000_0000_0000_0000_0000_0000_0000_0000_0000_0000_0000_0000_0000_0000_0000_0000_0000_0000_0000_0000_0000_0000_0000_0000_0000_0000_0000_0000_0000_0000_0000_0000_0000_0000_0000_0000_0000_0000_0000_0000_0000_0000_0000_0000_0000_0000_0000_0000_0000_0000_0000_0000_0000_0000_0000_0000_0000_0000_0000_0000

  /** The double a non-negative decimal value reads as: Infinity from the
      overflow bound up, 0 at or below the underflow bound, and otherwise the
      value itself (the rounding to a nearby double is not modelled). */
  function RoundToDouble(v: real): (x: JsNumber)
    requires v >= 0.0
    ensures x.Infinite? <==> v >= OVERFLOW_BOUND as real
    ensures x.Infinite? ==> x.positive
    ensures x.Finite? ==> 0.0 <= x.value < OVERFLOW_BOUND as real
    ensures x.Finite? && v * (UNDERFLOW_DENOMINATOR as real) > 1.0 ==> x.value == v
  {
    if v >= OVERFLOW_BOUND as real then Infinite(true)
    else if v * (UNDERFLOW_DENOMINATOR as real) <= 1.0 then Finite(0.0)
    else Finite(v)
  }

  /** `Number(s)` for a string: surrounding whitespace is ignored, the empty
      string is 0, and otherwise the trimmed text is read by `SignedLiteral`.
      A negative result needs a leading `-`, and a finite one lies strictly
      between the overflow bounds. */
  function StringToNumber(s: string): (x: JsNumber)
    ensures Trim(s) == "" ==> x == Finite(0.0)
    ensures (x.Finite? && x.value < 0.0) || (x.Infinite? && !x.positive) ==> Trim(s) != "" && Trim(s)[0] == '-'
    ensures x.Finite? ==> -(OVERFLOW_BOUND as real) < x.value < OVERFLOW_BOUND as real
  {
    var t := Trim(s);
    if t == "" then Finite(0.0) else SignedLiteral(t)
  }

  /** A non-empty trimmed text: an optional sign, then `Infinity` or a
      decimal literal; anything else is NaN. */
  function SignedLiteral(t: string): (x: JsNumber)
    requires t != ""
    ensures (x.Finite? && x.value < 0.0) || (x.Infinite? && !x.positive) ==> t[0] == '-'
    ensures x.Finite? ==> -(OVERFLOW_BOUND as real) < x.value < OVERFLOW_BOUND as real
  {
    var negative := t[0] == '-';
    var body := if t[0] == '-' || t[0] == '+' then t[1..] else t;
    if body == "Infinity" then Infinite(!negative)
    else match DecimalLiteralValue(body)
      case Some(v) =>
        DecimalLiteralNonNegative(body);
        var x := RoundToDouble(v);
        if x.Infinite? then Infinite(!negative)
        else Finite(if negative then -x.value else x.value)
      case None => NaN
  }

  lemma DecimalLiteralNonNegative(s: string)
    requires DecimalLiteralValue(s).Some?
    ensures DecimalLiteralValue(s).value >= 0.0
  {
    if '.' in s {
      var k := IndexOfDot(s);
      var whole, frac := s[..k], s[k + 1..];
      assert DigitsValue(frac) as real / Pow10(|frac|) >= 0.0;
    }
  }

  /** `Number(value)`: `Number(undefined)` is NaN. */
  function ToNumber(value: Option<string>): JsNumber {
    match value
    case None => NaN
    case Some(s) => StringToNumber(s)
  }

  /** `parsePort`: the number the variable holds when it is finite and
      positive, otherwise the default port. */
  function ParsePort(value: Option<string>): (port: real)
    ensures port > 0.0
    ensures port < OVERFLOW_BOUND as real
    ensures port == DEFAULT_PORT || (IsFinite(ToNumber(value)) && port == ToNumber(value).value)
    ensures IsFinite(ToNumber(value)) && ToNumber(value).value > 0.0 ==> port == ToNumber(value).value
  {
    var parsed := ToNumber(value);
    if IsFinite(parsed) && parsed.value > 0.0 then parsed.value else DEFAULT_PORT
  }

  /** An unset, empty or blank value gives the default port. */
  lemma ParsePortUnsetOrBlank(s: string)
    requires forall c <- s :: IsWhitespace(c)
    ensures ParsePort(None) == DEFAULT_PORT
    ensures ParsePort(Some(s)) == DEFAULT_PORT
  {
    AllWhitespaceTrimsToEmpty(s);
  }

  /** Zero and negative integers give the default port. */
  lemma ParsePortNonPositive(n: nat)
    ensures ParsePort(Some("0")) == DEFAULT_PORT
    ensures ParsePort(Some("-" + NatToDecimal(n))) == DEFAULT_PORT
  {
    DecimalReads(0);
    assert NatToDecimal(0) == "0";
    NegativeDecimalReads(n);
  }

  /** A negated decimal integer reads as a number that is not positive. */
  lemma NegativeDecimalReads(n: nat)
    ensures var x := StringToNumber("-" + NatToDecimal(n));
      (x.Finite? && x.value <= 0.0) || x == Infinite(false)
  {
    var d := NatToDecimal(n);
    DecimalIsTrimmedLiteral(n);
    var m := "-" + d;
    assert m[0] == '-' && m[1..] == d;
    assert !IsWhitespace(m[0]) && m[|m| - 1] == d[|d| - 1];
    StringToNumberOfTrimmed(m);
    DecimalLiteralNonNegative(d);
  }

  /** A decimal integer, trimmed, reads as the double its value rounds to. */
  lemma DecimalReads(n: nat)
    ensures StringToNumber(NatToDecimal(n)) == RoundToDouble(n as real)
  {
    var d := NatToDecimal(n);
    DecimalIsTrimmedLiteral(n);
    StringToNumberOfTrimmed(d);
  }

  /** `StringToNumber` of a trimmed, non-empty string looks at its sign and
      then at the literal after it. */
  lemma StringToNumberOfTrimmed(t: string)
    requires IsTrimmed(t) && t != ""
    ensures StringToNumber(t) == SignedLiteral(t)
  {
  }

  /** Infinity, with or without a sign, gives the default port. */
  lemma ParsePortInfinite(sign: string)
    requires sign == "" || sign == "+" || sign == "-"
    ensures ParsePort(Some(sign + "Infinity")) == DEFAULT_PORT
  {
    var t := sign + "Infinity";
    assert t[|t| - 1] == 'y' && t[0] in {'+', '-', 'I'};
    StringToNumberOfTrimmed(t);
    assert sign != "" ==> t[1..] == "Infinity";
  }

  /** Text that is not a number gives the default port. */
  lemma ParsePortNotANumber(t: string, c: char)
    requires IsTrimmed(t) && t != []
    requires c in t && !IsDigit(c) && c != '.' && c != '+' && c != '-'
    ensures ParsePort(Some(t)) == DEFAULT_PORT
  {
    StringToNumberOfTrimmed(t);
    var body := if t[0] == '-' || t[0] == '+' then t[1..] else t;
    assert c in body;
    NotALiteral(body, c);
  }

  lemma NotALiteral(body: string, c: char)
    requires c in body && !IsDigit(c) && c != '.'
    ensures DecimalLiteralValue(body).None?
  {
    if '.' in body {
      var k := IndexOfDot(body);
      assert body == body[..k] + [body[k]] + body[k + 1..];
      assert c in body[..k] || c in body[k + 1..];
    }
  }

  lemma {:induction false} AllWhitespaceTrimsToEmpty(s: string)
    requires forall c <- s :: IsWhitespace(c)
    ensures Trim(s) == ""
  {
    if |s| > 0 {
      assert s[0] in s;
      assert forall c <- s[1..] :: c in s;
      AllWhitespaceTrimsToEmpty(s[1..]);
    }
  }

  /** The decimal spelling of a number is a trimmed, dot-free literal whose
      value is the number. */
  lemma DecimalIsTrimmedLiteral(n: nat)
    ensures var d := NatToDecimal(n);
      IsTrimmed(d) && d != "Infinity" && d[0] != '-' && d[0] != '+'
      && DecimalLiteralValue(d) == Some(n as real)
  {
    var d := NatToDecimal(n);
    DigitsValueOfDecimal(n);
    assert !IsDigit('.');
    assert d[0] in d && d[|d| - 1] in d;
    assert d != "Infinity" by { assert "Infinity"[0] == 'I'; }
  }

  /** A positive integer up to 2^53 written in decimal, possibly with blanks
      around it, is the port; every such integer is a double, so JavaScript
      reads it exactly. */
  lemma ParsePortReadsDecimal(n: nat, pad: string)
    requires 0 < n <= EXACT_INTEGER_LIMIT
    requires forall c <- pad :: IsWhitespace(c)
    ensures ParsePort(Some(pad + NatToDecimal(n) + pad)) == n as real
  {
    var d := NatToDecimal(n);
    DecimalIsTrimmedLiteral(n);
    TrimPadded(pad, d);
    assert StringToNumber(pad + d + pad) == SignedLiteral(d);
    DecimalReads(n);
    assert (n as real) * (UNDERFLOW_DENOMINATOR as real) > 1.0;
  }

  /** An integer too large for a double reads as Infinity, so it gives the
      default port. */
  lemma ParsePortOverflow(n: nat)
    requires n >= OVERFLOW_BOUND
    ensures ParsePort(Some(NatToDecimal(n))) == DEFAULT_PORT
  {
    DecimalIsTrimmedLiteral(n);
    StringToNumberOfTrimmed(NatToDecimal(n));
  }

  /** A positive literal too small for a double reads as 0, so it gives the
      default port. */
  lemma ParsePortUnderflow(t: string)
    requires IsTrimmed(t) && t != [] && (IsDigit(t[0]) || t[0] == '.')
    requires DecimalLiteralValue(t).Some?
    requires DecimalLiteralValue(t).value * (UNDERFLOW_DENOMINATOR as real) <= 1.0
    ensures ParsePort(Some(t)) == DEFAULT_PORT
  {
    StringToNumberOfTrimmed(t);
    assert t != "Infinity" by { assert "Infinity"[0] == 'I'; }
    DecimalLiteralNonNegative(t);
  }

  lemma {:induction false} TrimPadded(pad: string, d: string)
    requires forall c <- pad :: IsWhitespace(c)
    requires IsTrimmed(d) && d != []
    ensures Trim(pad + d + pad) == d
  {
    var s := pad + d + pad;
    assert s == pad + (d + pad);
    assert (d + pad)[0] == d[0];
    TrimStartPadded(pad, d + pad);
    assert TrimStart(s) == d + pad;
    TrimEndPadded(d, pad);
    assert Trim(s) == TrimEnd(TrimStart(s));
  }

  lemma {:induction false} TrimStartPadded(pad: string, rest: string)
    requires forall c <- pad :: IsWhitespace(c)
    requires rest != [] && !IsWhitespace(rest[0])
    ensures TrimStart(pad + rest) == rest
  {
    if |pad| > 0 {
      assert pad[0] in pad;
      assert forall c <- pad[1..] :: c in pad;
      assert (pad + rest)[1..] == pad[1..] + rest;
      TrimStartPadded(pad[1..], rest);
    }
  }

  lemma {:induction false} TrimEndPadded(d: string, pad: string)
    requires forall c <- pad :: IsWhitespace(c)
    requires d != [] && !IsWhitespace(d[|d| - 1])
    ensures TrimEnd(d + pad) == d
  {
    if |pad| > 0 {
      assert pad[|pad| - 1] in pad;
      var shorter := pad[..|pad| - 1];
      assert forall c <- shorter :: c in pad;
      assert (d + pad)[..|d + pad| - 1] == d + shorter;
      TrimEndPadded(d, shorter);
    } else {
      assert d + pad == d;
    }
  }

  /** An origin as `parseOrigins` returns it: non-empty, without surrounding
      whitespace, without a comma. */
  predicate IsOrigin(o: string) {
    o != [] && IsTrimmed(o) && ',' !in o
  }

  /** `parseOrigins`: the default list when the variable is unset or empty;
      otherwise the comma-separated parts, trimmed, empty ones dropped, in
      their order. */
  function ParseOrigins(value: Option<string>): (origins: seq<string>)
    ensures value.None? || value == Some("") ==> origins == DEFAULT_ORIGINS
    ensures forall o <- origins :: IsOrigin(o)
  {
    if value.None? || value.value == "" then DEFAULT_ORIGINS
    else
      PartsAreOrigins(value.value);
      NonEmpty(TrimAll(Split(value.value, ',')))
  }

  lemma PartsAreOrigins(s: string)
    ensures forall o <- NonEmpty(TrimAll(Split(s, ','))) :: IsOrigin(o)
  {
    var parts := TrimAll(Split(s, ','));
    forall o <- NonEmpty(parts) ensures IsOrigin(o) {
      var i :| 0 <= i < |parts| && parts[i] == o;
      assert ',' !in Split(s, ',')[i];
    }
  }

  /** Listing well-formed origins with commas reads them back in order. */
  lemma ParseOriginsOfJoin(origins: seq<string>)
    requires |origins| >= 1
    requires forall o <- origins :: IsOrigin(o)
    ensures ParseOrigins(Some(Join(origins, ','))) == origins
  {
    assert forall o <- origins :: ',' !in o;
    assert origins[0] in origins;
    JoinStartsWith(origins);
    ParseOriginsOfParts(origins);
    TrimAllOrigins(origins);
    NonEmptyKeepsAll(origins);
  }

  /** Any comma-free parts listed with commas are read back trimmed, with the
      blank ones dropped and the rest in their order. */
  lemma ParseOriginsOfParts(parts: seq<string>)
    requires |parts| >= 1
    requires forall p <- parts :: ',' !in p
    requires Join(parts, ',') != ""
    ensures ParseOrigins(Some(Join(parts, ','))) == NonEmpty(TrimAll(parts))
  {
    SplitJoin(parts, ',');
  }

  /** Blanks around origins and an empty entry between them are ignored:
      `" a , , b "` gives `[a, b]`. */
  lemma ParseOriginsOfPaddedList(a: string, b: string)
    requires IsOrigin(a) && IsOrigin(b)
    ensures ParseOrigins(Some(" " + a + " , , " + b + " ")) == [a, b]
  {
    var pa, pb := " " + a + " ", " " + b + " ";
    var parts := [pa, " ", pb];
    JoinOfThree(pa, " ", pb);
    assert " " + a + " , , " + b + " " == pa + "," + " " + "," + pb;
    assert forall p <- parts :: ',' !in p;
    ParseOriginsOfParts(parts);
    PaddedPartsTrim(" ", a, b);
    DropsTheBlank(a, b);
  }

  lemma PaddedPartsTrim(pad: string, a: string, b: string)
    requires forall c <- pad :: IsWhitespace(c)
    requires IsOrigin(a) && IsOrigin(b)
    ensures TrimAll([pad + a + pad, pad, pad + b + pad]) == [a, "", b]
  {
    TrimPadded(pad, a);
    TrimPadded(pad, b);
    AllWhitespaceTrimsToEmpty(pad);
    TrimAllOfThree(pad + a + pad, pad, pad + b + pad);
  }

  lemma TrimAllOfThree(x: string, y: string, z: string)
    ensures TrimAll([x, y, z]) == [Trim(x), Trim(y), Trim(z)]
  {
  }

  lemma DropsTheBlank(a: string, b: string)
    requires a != [] && b != []
    ensures NonEmpty([a, "", b]) == [a, b]
  {
    assert [a, "", b] == [a] + ([""] + [b]);
    NonEmptyAppend([a], [""] + [b]);
    NonEmptyAppend([""], [b]);
  }

  lemma JoinOfThree(a: string, b: string, c: string)
    ensures Join([a, b, c], ',') == a + "," + b + "," + c
  {
    var parts := [a, b, c];
    assert Join(parts[2..], ',') == c;
    assert Join(parts[1..], ',') == b + [','] + c;
  }

  lemma JoinStartsWith(origins: seq<string>)
    requires |origins| >= 1 && origins[0] != []
    ensures Join(origins, ',') != []
  {
  }

  lemma TrimAllOrigins(origins: seq<string>)
    requires forall o <- origins :: IsOrigin(o)
    ensures TrimAll(origins) == origins
  {
    forall i | 0 <= i < |origins| ensures TrimAll(origins)[i] == origins[i] {
      assert origins[i] in origins;
    }
  }

  /** A value made only of commas and blanks gives no origin at all, not the
      default list. */
  lemma ParseOriginsOfSeparators(s: string)
    requires s != ""
    requires forall c <- s :: c == ',' || IsWhitespace(c)
    ensures ParseOrigins(Some(s)) == []
  {
    var parts := Split(s, ',');
    forall i | 0 <= i < |parts| ensures Trim(parts[i]) == "" {
      PieceOfBlanks(s, i);
      AllWhitespaceTrimsToEmpty(parts[i]);
    }
    AllEmpty(TrimAll(parts));
  }

  lemma {:induction false} PieceOfBlanks(s: string, i: nat)
    requires forall c <- s :: c == ',' || IsWhitespace(c)
    requires i < |Split(s, ',')|
    ensures forall c <- Split(s, ',')[i] :: IsWhitespace(c)
  {
    if |s| > 0 {
      assert s[0] in s;
      assert forall c <- s[1..] :: c in s;
      var rest := Split(s[1..], ',');
      if s[0] == ',' {
        if i > 0 { PieceOfBlanks(s[1..], i - 1); }
      } else if i == 0 {
        PieceOfBlanks(s[1..], 0);
      } else {
        PieceOfBlanks(s[1..], i);
      }
    }
  }

  lemma {:induction false} AllEmpty(xs: seq<string>)
    requires forall i :: 0 <= i < |xs| ==> xs[i] == ""
    ensures NonEmpty(xs) == []
  {
    if |xs| > 0 { AllEmpty(xs[1..]); }
  }
}
