module IntToString {
  // The body generated for int_to_string: a loop that counts the digits, a loop that writes them backwards into a
  // 21-byte buffer, and a minus sign in front.

  import opened Words
  import Bits

  const BUFFER := 21
  const END := 20

  // ---- decimal text ----

  predicate IsDigit(c: char) { '0' <= c <= '9' }

  function DigitChar(d: nat): (c: char)
    requires d < 10
    ensures IsDigit(c) && c as int - '0' as int == d
  {
    ('0' as int + d) as char
  }

  function DigitValue(c: char): (d: nat)
    requires IsDigit(c)
    ensures d < 10
  {
    c as int - '0' as int
  }

  function Digits(n: nat): (s: string)
    ensures |s| > 0 && forall c | c in s :: IsDigit(c)
  {
    if n < 10 then [DigitChar(n)] else Digits(n / 10) + [DigitChar(n % 10)]
  }

  function Decimal(n: int): string {
    if n < 0 then ['-'] + Digits(-n) else Digits(n)
  }

  predicate AllDigits(s: string) { forall c | c in s :: IsDigit(c) }

  function ParseNat(s: string): nat
    requires AllDigits(s)
  {
    if s == [] then 0 else 10 * ParseNat(s[..|s| - 1]) + DigitValue(s[|s| - 1])
  }

  datatype Parsed = Number(value: int) | Malformed

  function Parse(s: string): Parsed {
    if s != [] && AllDigits(s) then Number(ParseNat(s))
    else if |s| > 1 && s[0] == '-' && AllDigits(s[1..]) then Number(0 - ParseNat(s[1..]))
    else Malformed
  }

  /** No leading zero, and no minus sign before a zero. */
  predicate Canonical(s: string) {
    if s != [] && s[0] == '-' then |s| > 1 && AllDigits(s[1..]) && s[1] != '0'
    else s != [] && AllDigits(s) && (|s| > 1 ==> s[0] != '0')
  }

  lemma {:induction false} DigitsFacts(n: nat)
    ensures ParseNat(Digits(n)) == n
    ensures n > 0 ==> Digits(n)[0] != '0'
    ensures n == 0 ==> Digits(n) == ['0']
  {
    if n >= 10 {
      DigitsFacts(n / 10);
      assert Digits(n)[..|Digits(n)| - 1] == Digits(n / 10);
    } else {
      assert Digits(n)[..0] == [];
    }
  }

  lemma {:induction false} ParsedDigits(s: string)
    requires s != [] && AllDigits(s) && (|s| > 1 ==> s[0] != '0')
    ensures Digits(ParseNat(s)) == s
    ensures s[0] != '0' ==> ParseNat(s) > 0
  {
    if |s| > 1 {
      ParsedDigits(s[..|s| - 1]);
      assert s == s[..|s| - 1] + [s[|s| - 1]];
    } else {
      assert s[..0] == [];
      assert s == [s[0]];
    }
  }

  /** Every integer has one canonical text, which reads back as that integer. */
  lemma ParseDecimal(n: int)
    ensures Canonical(Decimal(n)) && Parse(Decimal(n)) == Number(n)
  {
    DigitsFacts(if n < 0 then -n else n);
    if n < 0 {
      assert Decimal(n)[1..] == Digits(-n);
      assert !IsDigit(Decimal(n)[0]);
    } else {
      assert Digits(n)[0] in Digits(n);
    }
  }

  lemma DecimalParse(s: string)
    requires Canonical(s)
    ensures Parse(s).Number? && Decimal(Parse(s).value) == s
  {
    if s[0] == '-' {
      assert s[0] in s && !AllDigits(s);
      ParsedDigits(s[1..]);
      assert s == ['-'] + s[1..];
    } else {
      ParsedDigits(s);
    }
  }

  function Power10(k: nat): (p: nat)
    ensures p > 0
  {
    if k == 0 then 1 else 10 * Power10(k - 1)
  }

  lemma {:induction false} DigitCount(n: nat, k: nat)
    requires k > 0 && n < Power10(k)
    ensures |Digits(n)| <= k
  {
    if n >= 10 { DigitCount(n / 10, k - 1); }
  }

  // ---- the parameter ----

  /** The signed value of a parameter of the given width. */
  function Signed(width: nat, raw: nat): int {
    if width > 0 && raw >= Pow2(width - 1) then raw - Pow2(width) else raw
  }

  predicate Fits(n: int, width: nat) { width > 0 && 0 - Pow2(width - 1) <= n < Pow2(width - 1) }

  /** A number of the width is held as its residue, and that is read as the number again. */
  lemma SignedNumber(n: int, width: nat)
    requires Fits(n, width)
    ensures 0 <= n % Pow2(width) < Pow2(width) && Signed(width, n % Pow2(width)) == n
  {
    var m := Pow2(width);
    assert m == 2 * Pow2(width - 1);
    hide Pow2;
    Bits.SignedResidue(n, n, m);
  }

  /** Reading a word of a width keeps its residue and gives a number of the width. */
  lemma SignedFits(width: nat, raw: nat)
    requires width > 0 && raw < Pow2(width)
    ensures Fits(Signed(width, raw), width) && Signed(width, raw) % Pow2(width) == raw
  {
    var m := Pow2(width);
    assert m == 2 * Pow2(width - 1);
    hide Pow2;
    if raw >= Pow2(width - 1) { Bits.Residue(raw - m, -1, raw, m); } else { Bits.SmallResidue(raw, m); }
  }

  /** The parameter as a 64-bit word: sign-extended when narrower, truncated when wider. */
  function Extended(width: nat, raw: nat): (w: nat)
    ensures IsWord(w)
  {
    if width < 64 then ToWord(Signed(width, raw)) else raw % WORD
  }

  lemma {:induction false} Pow2Below(a: nat, b: nat)
    requires a <= b
    ensures Pow2(a) <= Pow2(b)
  {
    if a < b { Pow2Below(a, b - 1); }
  }

  /** Up to 64 bits nothing is lost; a wider value is taken modulo 2^64. */
  lemma ExtendedValue(width: nat, raw: nat)
    requires 0 < width && raw < Pow2(width)
    ensures ToInt(Extended(width, raw)) == Wrap(Signed(width, raw))
    ensures width <= 64 ==> ToInt(Extended(width, raw)) == Signed(width, raw)
    ensures forall n: int | Fits(n, width) && n % Pow2(width) == raw :: ToInt(Extended(width, raw)) == Wrap(n) && (width <= 64 ==> Wrap(n) == n)
  {
    Pow2Of64();
    assert Pow2(64) == 2 * Pow2(63);
    if width <= 64 {
      Pow2Below(width - 1, 63);
      ToIntToWord(Signed(width, raw));
      if width == 64 && raw >= HALF { ModShift(raw - WORD, 1); }
    } else if raw >= Pow2(width - 1) {
      Pow2Sum(width - 64, 64);
      ModShift(raw, 0 - Pow2(width - 64));
    }
    forall n: int | Fits(n, width) && n % Pow2(width) == raw ensures Signed(width, raw) == n { SignedNumber(n, width); }
  }

  // ---- the generated body ----

  /** The magnitude: zero minus the word, wrapping, when the word is negative. The minimum maps to 2^63. */
  function Magnitude(w: nat): nat
    requires IsWord(w)
  {
    if ToInt(w) < 0 then ToWord(0 - w) else w
  }

  lemma MagnitudeIs(w: nat)
    requires IsWord(w)
    ensures Magnitude(w) == (if ToInt(w) < 0 then -ToInt(w) else ToInt(w)) <= HALF
  {
    if ToInt(w) < 0 { ModShift(0 - w, 1); }
  }

  lemma FitsIn19()
    ensures HALF < Power10(19)
  {
    assert Power10(5) == 100000;
    assert Power10(10) == 100000 * Power10(5);
    assert Power10(15) == 100000 * Power10(10);
    assert Power10(19) == 10000 * Power10(15);
  }

  /** The counting loop runs once even for zero. */
  method CountDigits(magnitude: nat) returns (count: nat)
    ensures count == |Digits(magnitude)|
  {
    count := 0;
    var rest: nat := magnitude;
    while count == 0 || rest > 0
      invariant count == 0 ==> rest == magnitude
      invariant count > 0 ==> |Digits(magnitude)| == count + if rest > 0 then |Digits(rest)| else 0
      decreases count == 0, rest
    {
      count := count + 1;
      rest := rest / 10;
    }
  }

  /** The filling loop writes the last digit first, down from index 20. */
  method FillDigits(buffer: array<char>, magnitude: nat) returns (position: nat)
    requires buffer.Length == BUFFER && |Digits(magnitude)| <= END
    modifies buffer
    ensures position == END - |Digits(magnitude)| && buffer[position..END] == Digits(magnitude)
    ensures forall x | 0 <= x < BUFFER && !(position <= x < END) :: buffer[x] == old(buffer[x])
  {
    position := END;
    var rest: nat := magnitude;
    while position == END || rest > 0
      invariant position == END ==> rest == magnitude
      invariant Remaining(rest, position) <= position <= END
      invariant Digits(magnitude) == (if position == END || rest > 0 then Digits(rest) else []) + buffer[position..END]
      invariant forall x | 0 <= x < BUFFER && !(position <= x < END) :: buffer[x] == old(buffer[x])
      decreases position == END, rest
    {
      ghost var before := buffer[position..END];
      position := position - 1;
      buffer[position] := DigitChar(rest % 10);
      assert buffer[position..END] == [DigitChar(rest % 10)] + before;
      rest := rest / 10;
    }
  }

  function Remaining(rest: nat, position: nat): nat {
    if position == END || rest > 0 then |Digits(rest)| else 0
  }

  /** The text of an integer of any width ends at index 20 of the buffer, and nothing else is written. */
  method Format(width: nat, raw: nat) returns (buffer: array<char>, start: nat, length: nat)
    requires 0 < width && raw < Pow2(width)
    ensures buffer.Length == BUFFER && start + length == END
    ensures forall n: int | Fits(n, width) && n % Pow2(width) == raw ::
      buffer[start..start + length] == Decimal(Wrap(n)) && (width <= 64 ==> buffer[start..start + length] == Decimal(n))
    ensures buffer[start..start + length] == Decimal(Wrap(Signed(width, raw)))
    ensures Fits(Signed(width, raw), width) && Signed(width, raw) % Pow2(width) == raw
    ensures width <= 64 ==> Parse(buffer[start..start + length]) == Number(Signed(width, raw))
  {
    hide Pow2, Extended, Signed, Digits, Parse, Magnitude, Fits;
    SignedFits(width, raw);
    var w := Extended(width, raw);
    ExtendedValue(width, raw);
    MagnitudeIs(w);
    FitsIn19();
    var magnitude := Magnitude(w);
    DigitCount(magnitude, 19);
    var negative := ToInt(w) < 0;
    var digits := CountDigits(magnitude);
    length := digits + if negative then 1 else 0;
    buffer := new char[BUFFER];
    start := FillDigits(buffer, magnitude);
    if negative {
      ghost var text := buffer[start..END];
      start := start - 1;
      buffer[start] := '-';
      assert buffer[start..END] == ['-'] + text;
    }
    ParseDecimal(ToInt(w));
  }
}
