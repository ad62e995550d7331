/** The number printers of src/lib/io/printf.c (214-374, 374-446, 516-560): what they emit reads back to
    the argument. */
module Printf {
  import opened Bits

  /** Where putc_fun puts characters, given by their codes. */
  class Console {
    var out: seq<int>

    constructor ()
      ensures out == []
    {
      out := [];
    }

    method Putc(c: int)
      modifies this
      ensures out == old(out) + [c]
    {
      out := out + [c];
    }
  }

  // ----- numerals -----

  /** The value of a sequence of digits, the most significant first. */
  function Value(ds: seq<int>, b: int): int {
    if |ds| == 0 then 0 else Value(ds[..|ds| - 1], b) * b + ds[|ds| - 1]
  }

  /** Digits in base b, without a leading zero. */
  ghost predicate Numeral(ds: seq<int>, b: int) {
    && (forall i :: 0 <= i < |ds| ==> 0 <= ds[i] < b)
    && (|ds| > 0 ==> ds[0] != 0)
  }

  /** The digits of n; none for zero. */
  function Digits(n: int, b: int): (ds: seq<int>)
    requires n >= 0 && b >= 2
    ensures n > 0 ==> |ds| > 0
  {
    if n == 0 then [] else Digits(n / b, b) + [n % b]
  }

  /** Reading the digits of n back gives n, and they have no leading zero. */
  lemma {:induction false} ReadBack(n: int, b: int)
    requires n >= 0 && b >= 2
    ensures Value(Digits(n, b), b) == n && Numeral(Digits(n, b), b)
    decreases n
  {
    if n > 0 {
      Quotient(n, b);
      ReadBack(n / b, b);
      var ds := Digits(n, b);
      assert ds[..|ds| - 1] == Digits(n / b, b);
    }
  }

  lemma Quotient(n: int, b: int)
    requires n > 0 && b >= 2
    ensures 0 <= n / b < n && n == n / b * b + n % b
  {
    if n / b >= n { MulMono(n, n / b, b); MulMono(2, b, n); }
  }

  /** A value has one numeral only. */
  lemma {:induction false} OneNumeral(ds: seq<int>, b: int)
    requires b >= 2 && Numeral(ds, b)
    ensures Value(ds, b) >= 0 && (|ds| > 0 ==> Value(ds, b) > 0) && ds == Digits(Value(ds, b), b)
  {
    if |ds| > 0 {
      var rest, last := ds[..|ds| - 1], ds[|ds| - 1];
      OneNumeral(rest, b);
      var v := Value(rest, b);
      MulMono(0, v, b);
      if |rest| > 0 { MulMono(1, v, b); } else { assert ds[0] == last; }
      DivUnique(v * b + last, b, v, last);
      assert ds == rest + [last];
    }
  }

  /** n without its last j digits. */
  function Strip(n: int, b: int, j: nat): int
    requires n >= 0 && b >= 2
    ensures Strip(n, b, j) >= 0
  {
    if j == 0 then n else Strip(n, b, j - 1) / b
  }

  function Length(n: int, b: int): nat
    requires n >= 0 && b >= 2
  {
    if n == 0 then 0 else (Quotient(n, b); 1 + Length(n / b, b))
  }

  lemma {:induction false} StripLength(n: int, b: int, j: nat)
    requires n >= 0 && b >= 2
    ensures Length(Strip(n, b, j), b) == if Length(n, b) >= j then Length(n, b) - j else 0
    decreases j
  {
    if j > 0 { StripLength(n, b, j - 1); }
  }

  /** The digit at place i, and the digits above it. */
  lemma NextDigit(n: int, b: int, i: nat)
    requires n >= 0 && b >= 2 && i < Length(n, b)
    ensures Digits(Strip(n, b, i), b) == Digits(Strip(n, b, i + 1), b) + [Strip(n, b, i) % b]
  {
    StripLength(n, b, i);
  }

  lemma AllStripped(n: int, b: int)
    requires n >= 0 && b >= 2
    ensures Strip(n, b, Length(n, b)) == 0
  {
    StripLength(n, b, Length(n, b));
  }

  // ----- characters -----

  const ZERO := 48
  const PLUS := 43
  const MINUS := 45
  const SPACE := 32
  const LOWER_X := 120
  const UPPER_X := 88

  function DigitChar(v: int, upper: bool): int {
    if v > 9 then (if upper then 65 else 97) - 10 + v else ZERO + v
  }

  function Chars(ds: seq<int>, upper: bool): (cs: seq<int>)
    ensures |cs| == |ds|
  {
    seq(|ds|, i requires 0 <= i < |ds| => DigitChar(ds[i], upper))
  }

  lemma CharsMore(ds: seq<int>, d: int, upper: bool)
    ensures Chars(ds + [d], upper) == Chars(ds, upper) + [DigitChar(d, upper)]
  {
  }

  /** What is printed for n: its digits, or a single zero. */
  function Text(n: int, b: int, upper: bool): seq<int>
    requires n >= 0 && b >= 2
  {
    if n == 0 then [ZERO] else Chars(Digits(n, b), upper)
  }

  // ----- reading -----

  function CharValue(c: int): int {
    if c >= 97 then c - 97 + 10 else if c >= 65 then c - 65 + 10 else c - ZERO
  }

  /** What a reader makes of a text in base b. */
  function Read(cs: seq<int>, b: int): int {
    Value(seq(|cs|, i requires 0 <= i < |cs| => CharValue(cs[i])), b)
  }

  /** Reading what is printed for n gives n. */
  lemma TextReads(n: int, b: int, upper: bool)
    requires n >= 0 && 2 <= b <= 16
    ensures Read(Text(n, b, upper), b) == n
  {
    var cs := Text(n, b, upper);
    var ds := seq(|cs|, i requires 0 <= i < |cs| => CharValue(cs[i]));
    if n == 0 {
      assert ds == [0];
      assert ds[..0] == [];
      assert Value([], b) == 0;
    } else {
      ReadBack(n, b);
      ReadsChars(Digits(n, b), ds, upper);
    }
  }

  /** Two numbers are never printed alike. */
  lemma TextInjective(n: int, m: int, b: int, upper: bool)
    requires n >= 0 && m >= 0 && 2 <= b <= 16 && Text(n, b, upper) == Text(m, b, upper)
    ensures n == m
  {
    hide Text, Read;
    TextReads(n, b, upper);
    TextReads(m, b, upper);
  }

  lemma ReadsChars(es: seq<int>, ds: seq<int>, upper: bool)
    requires |ds| == |es| && forall i :: 0 <= i < |es| ==> 0 <= es[i] < 16 && ds[i] == CharValue(Chars(es, upper)[i])
    ensures ds == es
  {
  }

  /** The same with an optional sign or space in front. */
  function ReadSigned(cs: seq<int>): int {
    if |cs| > 0 && cs[0] == MINUS then -Read(cs[1..], 10)
    else if |cs| > 0 && (cs[0] == PLUS || cs[0] == SPACE) then Read(cs[1..], 10)
    else Read(cs, 10)
  }

  lemma FirstIsDigit(n: int)
    requires n >= 0
    ensures |Text(n, 10, false)| > 0 && ZERO <= Text(n, 10, false)[0] <= ZERO + 9
  {
    ReadBack(n, 10);
  }

  /** What is printed for d reads as d, whatever the flags. */
  lemma SignedReads(d: int, f: Format)
    ensures ReadSigned(Sign(d, f) + Text(Abs(d), 10, false)) == d
  {
    hide Read, Text;
    var t := Text(Abs(d), 10, false);
    FirstIsDigit(Abs(d));
    TextReads(Abs(d), 10, false);
    if |Sign(d, f)| > 0 {
      assert ([Sign(d, f)[0]] + t)[1..] == t;
    } else {
      assert [] + t == t;
    }
  }

  // ----- arguments and flags -----

  datatype LengthMod = Default | Short2 | Short | Long | Long2 | Longest | Size | Ptrdiff

  datatype Format = Format(length: LengthMod, plus: bool, space: bool, precedingId: bool, upper: bool)

  const INT_RANGE := 0x1_0000_0000
  const LONG_RANGE := 0x1_0000_0000_0000_0000

  /** What va_arg can deliver for a signed conversion of this length. */
  predicate SignedArg(l: LengthMod, arg: int) {
    match l
    case Default => -INT_RANGE / 2 <= arg < INT_RANGE / 2
    case Short2 => -INT_RANGE / 2 <= arg < INT_RANGE / 2
    case Short => -INT_RANGE / 2 <= arg < INT_RANGE / 2
    case Size => 0 <= arg < LONG_RANGE
    case _ => -LONG_RANGE / 2 <= arg < LONG_RANGE / 2
  }

  /** The intmax_t d: the masks of hh and h keep low bytes and drop the sign. */
  function Signed(l: LengthMod, arg: int): int {
    match l
    case Short2 => arg % 0x100
    case Short => arg % 0x1_0000
    case Size => if arg >= LONG_RANGE / 2 then arg - LONG_RANGE else arg
    case _ => arg
  }

  /** The value the C standard (ISO/IEC 9899, 7.21.6.1, the length modifiers) asks for: hh and h convert
      to signed char and short. */
  function Wanted(l: LengthMod, arg: int): int {
    match l
    case Short2 => if arg % 0x100 < 0x80 then arg % 0x100 else arg % 0x100 - 0x100
    case Short => if arg % 0x1_0000 < 0x8000 then arg % 0x1_0000 else arg % 0x1_0000 - 0x1_0000
    case _ => arg
  }

  /** hh and h print the wrong number exactly when the converted argument is negative, and z when the
      size does not fit intmax_t. */
  lemma SignLost(l: LengthMod, arg: int)
    requires SignedArg(l, arg)
    ensures Signed(l, arg) == Wanted(l, arg) <==>
              match l
              case Short2 => arg % 0x100 < 0x80
              case Short => arg % 0x1_0000 < 0x8000
              case Size => arg < LONG_RANGE / 2
              case _ => true
  {
    assert 0 <= arg % 0x100 < 0x100 && 0 <= arg % 0x1_0000 < 0x1_0000;
  }

  /** What a signed conversion prints for the argument. */
  function Printed(f: Format, arg: int): seq<int> {
    Sign(Signed(f.length, arg), f) + Text(Abs(Signed(f.length, arg)), 10, false)
  }

  /** %hhd of a signed char, and %hd of a short, print text that reads back to the value exactly when it is
      not negative. */
  lemma ShortPrinted(f: Format, v: int)
    requires f.length.Short2? || f.length.Short?
    requires if f.length.Short2? then -0x80 <= v < 0x80 else -0x8000 <= v < 0x8000
    ensures SignedArg(f.length, v) && (ReadSigned(Printed(f, v)) == v <==> v >= 0)
  {
    hide ReadSigned, Sign, Text;
    SignedReads(Signed(f.length, v), f);
  }

  /** For instance %hhd of -1 prints 255. */
  lemma ShortPrintedOnce()
    ensures Printed(Format(Short2, false, false, false, false), -1) == [ZERO + 2, ZERO + 5, ZERO + 5]
  {
    assert Digits(255, 10) == [2, 5, 5] by { assert Digits(25, 10) == [2, 5] by { assert Digits(2, 10) == [2]; } }
  }

  predicate UnsignedArg(l: LengthMod, arg: int) {
    match l
    case Default => 0 <= arg < INT_RANGE
    case Short2 => 0 <= arg < INT_RANGE
    case Short => 0 <= arg < INT_RANGE
    case Longest => -LONG_RANGE / 2 <= arg < LONG_RANGE / 2
    case Ptrdiff => -LONG_RANGE / 2 <= arg < LONG_RANGE / 2
    case _ => 0 <= arg < LONG_RANGE
  }

  /** The uintmax_t u: signed arguments wrap. */
  function Unsigned(l: LengthMod, arg: int): (u: int)
    requires UnsignedArg(l, arg)
    ensures 0 <= u < LONG_RANGE
  {
    match l
    case Short2 => arg % 0x100
    case Short => arg % 0x1_0000
    case _ => arg % LONG_RANGE
  }

  function Abs(d: int): int { if d < 0 then -d else d }

  /** The sign character of a signed conversion, if any. */
  function Sign(d: int, f: Format): seq<int> {
    if d < 0 then [MINUS] else if f.plus then [PLUS] else if f.space then [SPACE] else []
  }

  /** What the unsigned conversions print for the argument. */
  function UnsignedText(f: Format, arg: int): seq<int>
    requires UnsignedArg(f.length, arg)
  {
    Text(Unsigned(f.length, arg), 10, false)
  }

  function OctalText(f: Format, arg: int): seq<int>
    requires UnsignedArg(f.length, arg)
  {
    (if f.precedingId then [ZERO] else []) + Text(Unsigned(f.length, arg), 8, false)
  }

  function HexText(f: Format, arg: int): seq<int>
    requires UnsignedArg(f.length, arg)
  {
    (if f.precedingId then [ZERO, if f.upper then UPPER_X else LOWER_X] else [])
    + Text(Unsigned(f.length, arg), 16, f.upper)
  }

  /** v is a value of the type the length modifier stands for; j and t take their arguments as signed. */
  predicate OfType(l: LengthMod, v: int) {
    match l
    case Short2 => 0 <= v < 0x100
    case Short => 0 <= v < 0x1_0000
    case Default => 0 <= v < INT_RANGE
    case Longest => -LONG_RANGE / 2 <= v < LONG_RANGE / 2
    case Ptrdiff => -LONG_RANGE / 2 <= v < LONG_RANGE / 2
    case _ => 0 <= v < LONG_RANGE
  }

  /** A reader of hexadecimal text skips 0x. */
  function ReadHex(cs: seq<int>): int {
    if |cs| >= 2 && (cs[1] == LOWER_X || cs[1] == UPPER_X) then Read(cs[2..], 16) else Read(cs, 16)
  }

  /** For every length modifier and every value of its type, what the three unsigned conversions print reads back to
      that value, and to the value plus 2^64 when it is negative. */
  lemma UnsignedReads(f: Format, v: int)
    requires OfType(f.length, v)
    ensures UnsignedArg(f.length, v)
    ensures Read(UnsignedText(f, v), 10) == (if v < 0 then v + LONG_RANGE else v)
    ensures Read(OctalText(f, v), 8) == (if v < 0 then v + LONG_RANGE else v)
    ensures ReadHex(HexText(f, v)) == (if v < 0 then v + LONG_RANGE else v)
  {
    hide Read, Text;
    var u := Unsigned(f.length, v);
    assert u == if v < 0 then v + LONG_RANGE else v by { WrapNegative(v); }
    TextReads(u, 10, false);
    TextReads(u, 8, false);
    LeadingZero(Text(u, 8, false), 8);
    assert [] + Text(u, 8, false) == Text(u, 8, false);
    HexReads(f, u);
  }

  lemma WrapNegative(v: int)
    ensures -LONG_RANGE <= v < 0 ==> v % LONG_RANGE == v + LONG_RANGE
    ensures 0 <= v < LONG_RANGE ==> v % LONG_RANGE == v
  {
  }

  /** An hh or h argument outside the type prints like its remainder. */
  lemma UnsignedLike(f: Format, arg: int)
    requires (f.length.Short2? || f.length.Short?) && UnsignedArg(f.length, arg)
    ensures var v := arg % (if f.length.Short2? then 0x100 else 0x1_0000);
            && OfType(f.length, v) && UnsignedArg(f.length, v)
            && UnsignedText(f, arg) == UnsignedText(f, v) && OctalText(f, arg) == OctalText(f, v)
            && HexText(f, arg) == HexText(f, v)
  {
    hide Text;
  }

  lemma {:induction false} LeadingZero(cs: seq<int>, b: int)
    ensures Read([ZERO] + cs, b) == Read(cs, b)
  {
    var t := [ZERO] + cs;
    ZeroFirst(seq(|t|, i requires 0 <= i < |t| => CharValue(t[i])),
        seq(|cs|, i requires 0 <= i < |cs| => CharValue(cs[i])), b);
  }

  lemma {:induction false} ZeroFirst(es: seq<int>, ds: seq<int>, b: int)
    requires es == [0] + ds
    ensures Value(es, b) == Value(ds, b)
  {
    if |ds| == 0 {
      assert es[..0] == [] && Value(es[..0], b) == 0;
    } else {
      assert es[..|es| - 1] == [0] + ds[..|ds| - 1];
      ZeroFirst(es[..|es| - 1], ds[..|ds| - 1], b);
    }
  }

  /** No character of a number is an x, so a reader knows whether there is a prefix. */
  lemma HexReads(f: Format, u: int)
    requires u >= 0
    ensures ReadHex((if f.precedingId then [ZERO, if f.upper then UPPER_X else LOWER_X] else [])
        + Text(u, 16, f.upper)) == u
  {
    hide Read, Text;
    var t := Text(u, 16, f.upper);
    TextReads(u, 16, f.upper);
    TextCase(u, 16, f.upper);
    if f.precedingId {
      var p := [ZERO, if f.upper then UPPER_X else LOWER_X];
      assert (p + t)[2..] == t;
    } else {
      assert [] + t == t;
    }
  }

  /** Every character is a decimal digit or a letter of the case asked for. */
  lemma TextCase(n: int, b: int, upper: bool)
    requires n >= 0 && 2 <= b <= 16
    ensures forall i :: 0 <= i < |Text(n, b, upper)| ==>
        var c := Text(n, b, upper)[i];
        ZERO <= c <= ZERO + 9 || (if upper then 65 <= c <= 70 else 97 <= c <= 102)
  {
    ReadBack(n, b);
  }

  /** The first character is a sign exactly as the value and the flags ask for; all others are digits. */
  lemma SignFirst(d: int, f: Format)
    ensures var t := Sign(d, f) + Text(Abs(d), 10, false);
            && |t| > 0 && (t[0] == MINUS <==> d < 0) && (t[0] == PLUS <==> d >= 0 && f.plus)
            && (t[0] == SPACE <==> d >= 0 && f.space && !f.plus)
            && forall i :: 0 < i < |t| ==> ZERO <= t[i] <= ZERO + 9
  {
    hide Text;
    FirstIsDigit(Abs(d));
    DecimalDigits(Abs(d));
  }

  lemma DecimalDigits(n: int)
    requires n >= 0
    ensures forall i :: 0 <= i < |Text(n, 10, false)| ==> ZERO <= Text(n, 10, false)[i] <= ZERO + 9
  {
    ReadBack(n, 10);
  }

  /** What a signed conversion prints reads back to the argument, but for z beyond intmax_t, and for hh and h, where
      ShortPrinted says when; what these print depends on the low bytes alone. */
  lemma SignedPrinted(f: Format, arg: int)
    requires SignedArg(f.length, arg)
    ensures !f.length.Short2? && !f.length.Short? ==>
        ReadSigned(Printed(f, arg)) == if f.length.Size? && arg >= LONG_RANGE / 2 then arg - LONG_RANGE else arg
    ensures f.length.Short2? ==> Printed(f, arg) == Printed(f, arg % 0x100)
    ensures f.length.Short? ==> Printed(f, arg) == Printed(f, arg % 0x1_0000)
  {
    hide ReadSigned, Sign, Text;
    SignedReads(Signed(f.length, arg), f);
  }

  // ----- the printers -----

  /** while (n > 0) { n /= 10; i++; } */
  method CountDigits(n0: int, b: int) returns (i: nat)
    requires n0 >= 0 && b >= 2
    ensures i == Length(n0, b)
  {
    var n := n0;
    i := 0;
    while n > 0
      invariant n >= 0 && i + Length(n, b) == Length(n0, b)
      decreases n
    {
      Quotient(n, b);
      n := n / b;
      i := i + 1;
    }
  }

  /** for (j = 0; j < i; j++) n /= 10; */
  method DropDigits(n0: int, i: nat) returns (n: int)
    requires n0 >= 0
    ensures n == Strip(n0, 10, i)
  {
    n := n0;
    for j := 0 to i
      invariant n == Strip(n0, 10, j)
    {
      n := n / 10;
    }
  }

  /** The digit loop of the decimal printers: while (i-- > 0) { ...; putc_fun('0' + (n % 10)); count++; } */
  method EmitDecimal(c: Console, v: int, len: nat) returns (count: nat)
    requires v >= 0 && len == Length(v, 10)
    modifies c
    ensures c.out == old(c.out) + Chars(Digits(v, 10), false) && count == |Digits(v, 10)|
  {
    var i := len;
    count := 0;
    AllStripped(v, 10);
    ghost var shown: seq<int> := [];
    while i > 0
      invariant 0 <= i <= len && shown == Digits(Strip(v, 10, i), 10)
      invariant c.out == old(c.out) + Chars(shown, false) && count == |shown|
    {
      i := i - 1;
      var n := DropDigits(v, i);
      NextDigit(v, 10, i);
      CharsMore(shown, n % 10, false);
      c.Putc(ZERO + n % 10);
      count := count + 1;
      shown := shown + [n % 10];
    }
  }

  /** - for numbers below 0, else + or a space as the flags say. */
  method PutSign(c: Console, d: int, f: Format) returns (count: nat)
    modifies c
    ensures c.out == old(c.out) + Sign(d, f) && count == |Sign(d, f)|
  {
    count := 0;
    if d < 0 {
      c.Putc(MINUS);
      count := count + 1;
    } else if f.plus {
      c.Putc(PLUS);
      count := count + 1;
    } else if f.space {
      c.Putc(SPACE);
      count := count + 1;
    }
  }

  /** generic_printf_decimal: the sign, then the digits of |d|; the count is the number of characters. */
  method PrintDecimal(c: Console, f: Format, arg: int) returns (count: nat)
    requires SignedArg(f.length, arg) && Signed(f.length, arg) > -LONG_RANGE / 2
    modifies c
    ensures c.out == old(c.out) + Printed(f, arg)
    ensures count == |c.out| - |old(c.out)|
  {
    hide Signed, Sign, Length, Digits, Chars;
    NoneStripped(0, 10);
    NoChars(false);
    var d := Signed(f.length, arg);
    var i := CountDigits(if d < 0 then -d else d, 10);
    count := PutSign(c, d, f);
    if d == 0 {
      c.Putc(ZERO);
      count := count + 1;
    }
    var k := EmitDecimal(c, if d < 0 then -d else d, i);
    count := count + k;
  }

  /** generic_printf_unsigned. */
  method PrintUnsigned(c: Console, f: Format, arg: int) returns (count: nat)
    requires UnsignedArg(f.length, arg)
    modifies c
    ensures c.out == old(c.out) + UnsignedText(f, arg)
    ensures count == |c.out| - |old(c.out)|
  {
    var u := Unsigned(f.length, arg);
    count := 0;
    var i := CountDigits(u, 10);
    if u == 0 {
      c.Putc(ZERO);
      count := count + 1;
    }
    var k := EmitDecimal(c, u, i);
    count := count + k;
  }

  // ----- octal and hexadecimal: digits by shifting and masking -----

  lemma {:induction false} ShrTwice(x: nat, a: nat, b: nat)
    ensures Shr(x, a + b) == Shr(Shr(x, a), b)
  {
    if a > 0 { ShrTwice(x / 2, a - 1, b); }
  }

  /** o >> 3 * i drops i octal digits, x >> 4 * i drops i hexadecimal ones. */
  lemma {:induction false} ShrStrips(x: nat, w: nat, i: nat)
    requires w == 3 || w == 4
    ensures Pow2(w) >= 2 && Shr(x, w * i) == Strip(x, Pow2(w), i)
  {
    assert Pow2(3) == 8 && Pow2(4) == 16;
    if i > 0 {
      ShrStrips(x, w, i - 1);
      ShrTwice(x, w * (i - 1), w);
      ShrIsDiv(Shr(x, w * (i - 1)), w);
      assert w * (i - 1) + w == w * i;
    }
  }

  lemma LowDigit(n: nat)
    ensures And(n, 7) == n % 8 && And(n, 15) == n % 16
  {
    LowBits(n, 3);
    LowBits(n, 4);
    assert Pow2(3) == 8 && Pow2(4) == 16;
  }

  /** One more low bit. */
  lemma RemainderStep(n: int, p: int)
    requires n >= 0 && p > 0
    ensures n % (2 * p) == 2 * (n / 2 % p) + n % 2
  {
    var q, r := n / 2 / p, n / 2 % p;
    assert n == 2 * (q * p + r) + n % 2;
    Doubled(q, p);
    DivUnique(n, 2 * p, q, 2 * r + n % 2);
  }

  lemma Doubled(q: int, p: int)
    ensures q * (2 * p) == 2 * (q * p)
  {
  }

  /** Masking with w ones is the remainder by 2^w. */
  lemma {:induction false} LowBits(n: nat, w: nat)
    ensures Pow2(w) > 0 && And(n, Pow2(w) - 1) == n % Pow2(w)
  {
    if w == 0 {
      assert Pow2(0) == 1;
      AndZero(n);
    } else {
      var p := Pow2(w - 1);
      LowBits(n / 2, w - 1);
      RemainderStep(n, p);
      MaskStep(n, p);
    }
  }

  lemma {:induction false} AndZero(n: nat)
    ensures And(n, 0) == 0
  {
    if n > 0 { AndZero(n / 2); }
  }

  lemma {:induction false} MaskStep(n: nat, p: nat)
    requires p > 0
    ensures And(n, 2 * p - 1) == 2 * And(n / 2, p - 1) + n % 2
  {
    assert (2 * p - 1) / 2 == p - 1 && (2 * p - 1) % 2 == 1;
    if n == 0 { AndZero(p - 1); }
  }

  /** while (n > 0) { n >>= w; i++; } */
  method CountShifts(n0: nat, w: nat) returns (i: nat)
    requires w == 3 || w == 4
    ensures Pow2(w) >= 2 && i == Length(n0, Pow2(w))
  {
    assert Pow2(3) == 8 && Pow2(4) == 16;
    var n := n0;
    i := 0;
    while n > 0
      invariant n >= 0 && i + Length(n, Pow2(w)) == Length(n0, Pow2(w))
      decreases n
    {
      Quotient(n, Pow2(w));
      ShrIsDiv(n, w);
      n := Shr(n, w);
      i := i + 1;
    }
  }

  /** The digit loop of the octal printer: n = o >> 3 * i, then n & 7. */
  method EmitOctal(c: Console, o: nat, len: nat) returns (count: nat)
    requires len == Length(o, 8)
    modifies c
    ensures c.out == old(c.out) + Chars(Digits(o, 8), false) && count == |Digits(o, 8)|
  {
    hide Digits, Length, Shr, And, Pow2, Chars, Strip;
    var i := len;
    count := 0;
    AllStripped(o, 8);
    NoneStripped(o, 8);
    ghost var shown := Digits(Strip(o, 8, i), 8);
    NoChars(false);
    while i > 0
      invariant 0 <= i <= len && shown == Digits(Strip(o, 8, i), 8)
      invariant c.out == old(c.out) + Chars(shown, false) && count == |shown|
    {
      i := i - 1;
      OctalPlace(o, i);
      var n := Shr(o, 3 * i);
      LowDigit(n);
      NextDigit(o, 8, i);
      CharsMore(shown, n % 8, false);
      c.Putc(ZERO + And(n, 7));
      count := count + 1;
      shown := shown + [n % 8];
    }
  }

  lemma OctalPlace(o: nat, i: nat)
    ensures Shr(o, 3 * i) == Strip(o, 8, i)
  {
    assert Pow2(3) == 8;
    ShrStrips(o, 3, i);
  }

  lemma HexPlace(x: nat, i: nat)
    ensures Shr(x, 4 * i) == Strip(x, 16, i)
  {
    assert Pow2(4) == 16;
    ShrStrips(x, 4, i);
  }

  lemma NoneStripped(n: int, b: int)
    requires n >= 0 && b >= 2
    ensures Strip(n, b, 0) == n && Digits(0, b) == []
  {
  }

  lemma NoChars(upper: bool)
    ensures Chars([], upper) == []
  {
  }

  /** With '#' a zero follows the flag's zero exactly when the value is zero; the C standard asks for one zero
      then (ISO/IEC 9899, 7.21.6.1, the flag characters). */
  lemma SecondZero(f: Format, v: int)
    requires OfType(f.length, v) && f.precedingId
    ensures UnsignedArg(f.length, v)
    ensures var t := OctalText(f, v); |t| >= 2 && t[0] == ZERO && (t[1] == ZERO <==> v == 0)
  {
    hide Text;
    WrapNegative(v);
    OctalFirst(Unsigned(f.length, v));
  }

  lemma OctalFirst(o: int)
    requires o >= 0
    ensures |Text(o, 8, false)| > 0 && (Text(o, 8, false)[0] == ZERO <==> o == 0)
  {
    ReadBack(o, 8);
    if o > 0 { assert Digits(o, 8)[0] != 0; }
  }

  /** generic_printf_octal.  With '#' the digits follow a 0, also those of zero. */
  method PrintOctal(c: Console, f: Format, arg: int) returns (count: nat)
    requires UnsignedArg(f.length, arg)
    modifies c
    ensures c.out == old(c.out) + OctalText(f, arg)
    ensures count == |c.out| - |old(c.out)|
  {
    hide Length, Unsigned, Shr;
    assert Pow2(3) == 8;
    var o := Unsigned(f.length, arg);
    count := 0;
    var i := CountShifts(o, 3);
    if f.precedingId {
      c.Putc(ZERO);
      count := count + 1;
    }
    if o == 0 {
      c.Putc(ZERO);
      count := count + 1;
    }
    var k := EmitOctal(c, o, i);
    count := count + k;
  }

  /** One hexadecimal digit. */
  method PutHex(c: Console, v: int, upper: bool)
    modifies c
    ensures c.out == old(c.out) + [DigitChar(v, upper)]
  {
    if v > 9 {
      if !upper { c.Putc(97 - 10 + v); } else { c.Putc(65 - 10 + v); }
    } else {
      c.Putc(ZERO + v);
    }
  }

  /** The digit loop of the hexadecimal printer: n = x >> 4 * i, then n & 0xF. */
  method EmitHex(c: Console, x: nat, len: nat, upper: bool) returns (count: nat)
    requires len == Length(x, 16)
    modifies c
    ensures c.out == old(c.out) + Chars(Digits(x, 16), upper) && count == |Digits(x, 16)|
  {
    hide Digits, Length, Shr, And, Pow2, Chars, Strip, DigitChar;
    var i := len;
    count := 0;
    AllStripped(x, 16);
    NoneStripped(x, 16);
    ghost var shown := Digits(Strip(x, 16, i), 16);
    NoChars(upper);
    while i > 0
      invariant 0 <= i <= len && shown == Digits(Strip(x, 16, i), 16)
      invariant c.out == old(c.out) + Chars(shown, upper) && count == |shown|
    {
      i := i - 1;
      HexPlace(x, i);
      var n := Shr(x, 4 * i);
      LowDigit(n);
      NextDigit(x, 16, i);
      CharsMore(shown, n % 16, upper);
      PutHex(c, And(n, 15), upper);
      count := count + 1;
      shown := shown + [n % 16];
    }
  }

  /** generic_printf_hex. */
  method PrintHex(c: Console, f: Format, arg: int) returns (count: nat)
    requires UnsignedArg(f.length, arg)
    modifies c
    ensures c.out == old(c.out) + HexText(f, arg)
    ensures count == |c.out| - |old(c.out)|
  {
    hide Length, Unsigned, Shr;
    assert Pow2(4) == 16;
    var x := Unsigned(f.length, arg);
    count := 0;
    var i := CountShifts(x, 4);
    if f.precedingId {
      c.Putc(ZERO);
      count := count + 1;
      c.Putc(if f.upper then UPPER_X else LOWER_X);
      count := count + 1;
    }
    if x == 0 {
      c.Putc(ZERO);
      count := count + 1;
    }
    var k := EmitHex(c, x, i, f.upper);
    count := count + k;
  }

  // ----- pointers -----

  /** The pointer as a size_t. */
  function Address(p: int): int { if p < 0 then p + LONG_RANGE else p }

  lemma Pow2Of64()
    ensures Pow2(64) == LONG_RANGE
  {
    Pow2Of32();
    Pow2Add(32, 32);
  }

  /** p >> 4 * i on ptrdiff_t shifts the sign in, but its low four bits are those of the address. */
  lemma Nibble(p: int, i: nat)
    requires -LONG_RANGE / 2 <= p < LONG_RANGE / 2 && i < 16
    ensures Address(p) >= 0 && p / Pow2(4 * i) % 16 == Strip(Address(p), 16, i) % 16
  {
    hide Pow2, Strip, Shr;
    HexPlace(Address(p), i);
    ShrIsDiv(Address(p), 4 * i);
    LongRangeSplit(i);
    if p < 0 {
      HighBitsOnly(p, Pow2(4 * i), Pow2(64 - 4 * i - 4));
    }
  }

  lemma HighBitsOnly(p: int, d: int, u: int)
    requires d > 0
    ensures (p + d * (16 * u)) / d % 16 == p / d % 16
  {
    Shifted(p, d, 16 * u);
    SixteensOff(p / d, u);
  }

  lemma SixteensOff(x: int, u: int)
    ensures (x + 16 * u) % 16 == x % 16
  {
  }

  lemma LongRangeSplit(i: nat)
    requires i < 16
    ensures Pow2(4 * i) > 0 && LONG_RANGE == Pow2(4 * i) * (16 * Pow2(64 - 4 * i - 4))
  {
    hide Pow2;
    Pow2Of64();
    Pow2Add(4 * i, 64 - 4 * i);
    Pow2Add(4, 64 - 4 * i - 4);
    Pow2Of4();
  }

  lemma Pow2Of4()
    ensures Pow2(4) == 16
  {
  }

  lemma Shifted(p: int, d: int, k: int)
    requires d > 0
    ensures (p + d * k) / d == p / d + k
  {
    var q, r := p / d, p % d;
    assert p == q * d + r;
    assert d * k == k * d;
    assert (q + k) * d == q * d + k * d;
    DivUnique(p + d * k, d, q + k, r);
  }

  lemma {:induction false} SixteenNibbles(n: int, k: nat)
    requires 0 <= n < Pow2(4 * k)
    ensures Length(n, 16) <= k
    decreases k
  {
    if n > 0 {
      assert Pow2(0) == 1;
      Pow2Add(4, 4 * (k - 1));
      assert Pow2(4) == 16;
      assert n / 16 < Pow2(4 * (k - 1));
      SixteenNibbles(n / 16, k - 1);
    }
  }

  /** The digit loop of the pointer printer: p is shifted with its sign. */
  method EmitPointer(c: Console, p: int, len: nat) returns (count: nat)
    requires -LONG_RANGE / 2 <= p < LONG_RANGE / 2 && Address(p) >= 0 && len == Length(Address(p), 16) <= 16
    modifies c
    ensures c.out == old(c.out) + Chars(Digits(Address(p), 16), false) && count == |Digits(Address(p), 16)|
  {
    hide Digits, Length, Shr, And, Chars, Strip, DigitChar;
    ghost var a := Address(p);
    var i := len;
    count := 0;
    AllStripped(a, 16);
    NoneStripped(a, 16);
    ghost var shown := Digits(Strip(a, 16, i), 16);
    NoChars(false);
    while i > 0
      invariant 0 <= i <= len && shown == Digits(Strip(a, 16, i), 16)
      invariant c.out == old(c.out) + Chars(shown, false) && count == |shown|
    {
      i := i - 1;
      Nibble(p, i);
      NextDigit(a, 16, i);
      var v := p / Pow2(4 * i) % 16;
      CharsMore(shown, v, false);
      PutHex(c, v, false);
      count := count + 1;
      shown := shown + [v];
    }
  }

  lemma PointerLength(p: int)
    requires -LONG_RANGE / 2 <= p < LONG_RANGE / 2
    ensures Address(p) >= 0 && Length(Address(p), 16) <= 16 && Pow2(4) == 16
  {
    Pow2Of64();
    SixteenNibbles(Address(p), 16);
  }

  /** generic_printf_pointer. */
  method PrintPointer(c: Console, p: int) returns (count: nat)
    requires -LONG_RANGE / 2 <= p < LONG_RANGE / 2
    modifies c
    ensures c.out == old(c.out) + [ZERO, LOWER_X] + Text(Address(p), 16, false)
    ensures count == |c.out| - |old(c.out)|
  {
    hide Length, Shr, Pow2, Digits, Chars, Strip;
    PointerLength(p);
    NoneStripped(0, 16);
    NoChars(false);
    var i := CountShifts(Address(p), 4);
    count := 0;
    c.Putc(ZERO);
    count := count + 1;
    c.Putc(LOWER_X);
    count := count + 1;
    if p == 0 {
      c.Putc(ZERO);
      count := count + 1;
    }
    var k := EmitPointer(c, p, i);
    count := count + k;
  }
}
