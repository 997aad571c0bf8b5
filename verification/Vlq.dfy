/** Base64 variable-length quantities as the playground server writes and reads them, over a growable byte buffer. */
module Vlq {

  import opened Common

  type Byte = b: int | 0 <= b < 256

  const SEMICOLON: Byte := 59
  const COMMA: Byte := 44
  const NEWLINE: Byte := 10

  // ---- 32-bit arithmetic ----

  /** What a bitwise operator makes of a number: its value modulo 2^32, as a signed integer. */
  function ToInt32(n: int): (r: int)
    ensures -0x8000_0000 <= r < 0x8000_0000
    ensures -0x8000_0000 <= n < 0x8000_0000 ==> r == n
  {
    var m := n % 0x1_0000_0000;
    if m < 0x8000_0000 then m else m - 0x1_0000_0000
  }

  function Pow2(k: nat): (p: int)
    ensures p >= 1
  {
    if k == 0 then 1 else 2 * Pow2(k - 1)
  }

  lemma Pow2Five(k: nat)
    ensures Pow2(k + 5) == 32 * Pow2(k)
  {
    assert Pow2(k + 5) == 2 * Pow2(k + 4) == 4 * Pow2(k + 3) == 8 * Pow2(k + 2) == 16 * Pow2(k + 1);
  }

  lemma {:induction false} Pow2Mono(a: nat, b: nat)
    requires a <= b
    ensures Pow2(a) <= Pow2(b)
    decreases b - a
  {
    if a < b { Pow2Mono(a, b - 1); }
  }

  // ---- the alphabet ----

  function IntegerToChar(i: int): Byte
    requires 0 <= i < 64
  {
    if i < 26 then 65 + i
    else if i < 52 then 97 + (i - 26)
    else if i < 62 then 48 + (i - 52)
    else if i == 62 then 43 else 47
  }

  /** 255 marks a byte outside the alphabet; '=' sits at position 64 of the table. */
  function CharToInteger(b: Byte): int {
    if 65 <= b <= 90 then b - 65
    else if 97 <= b <= 122 then b - 97 + 26
    else if 48 <= b <= 57 then b - 48 + 52
    else if b == 43 then 62
    else if b == 47 then 63
    else if b == 61 then 64
    else 255
  }

  const UPPER := "ABCDEFGHIJKLMNOPQRSTUVWXYZ"
  const LOWER := "abcdefghijklmnopqrstuvwxyz"
  const DIGITS := "0123456789"
  const ALPHABET := UPPER + LOWER + DIGITS + "+/="

  lemma Letters()
    ensures |UPPER| == 26 && forall i :: 0 <= i < 26 ==> UPPER[i] as int == 65 + i
    ensures |LOWER| == 26 && forall i :: 0 <= i < 26 ==> LOWER[i] as int == 97 + i
    ensures |DIGITS| == 10 && forall i :: 0 <= i < 10 ==> DIGITS[i] as int == 48 + i
  {
  }

  ghost predicate IsTable(alphabet: string) {
    && |alphabet| == 65
    && (forall i :: 0 <= i < 64 ==> IntegerToChar(i) == alphabet[i] as int)
    && (forall i :: 0 <= i < 65 ==> alphabet[i] as int < 256 && CharToInteger(alphabet[i] as int) == i)
    && (forall b: Byte :: CharToInteger(b) == 255 <==> b as char !in alphabet)
  }

  lemma TableOf(upper: string, lower: string, digits: string, alphabet: string)
    requires |upper| == 26 && (forall i :: 0 <= i < 26 ==> upper[i] as int == 65 + i)
    requires |lower| == 26 && (forall i :: 0 <= i < 26 ==> lower[i] as int == 97 + i)
    requires |digits| == 10 && (forall i :: 0 <= i < 10 ==> digits[i] as int == 48 + i)
    requires alphabet == upper + lower + digits + "+/="
    ensures IsTable(alphabet)
  {
    forall b: Byte | CharToInteger(b) != 255 ensures b as char in alphabet {
      assert alphabet[CharToInteger(b)] == b as char;
    }
  }

  /** The tables are those of the Base64 alphabet with its padding sign, and no other byte has a value. */
  lemma Alphabet()
    ensures IsTable(ALPHABET)
    ensures SEMICOLON == ';' as int && COMMA == ',' as int && NEWLINE == '\n' as int
  {
    Letters();
    TableOf(UPPER, LOWER, DIGITS, ALPHABET);
  }

  // ---- encoding ----

  /** The sign goes to the lowest bit. */
  function ZigZag(num: int): int {
    if num < 0 then ToInt32(2 * -num) + 1 else ToInt32(2 * num)
  }

  function Digits(n: int): (s: seq<Byte>)
    ensures |s| >= 1
    decreases if n > 0 then n else 0
  {
    if n / 32 > 0 then [IntegerToChar(n % 32 + 32)] + Digits(n / 32) else [IntegerToChar(n % 32)]
  }

  function Encode(num: int): seq<Byte> {
    Digits(ZigZag(num))
  }

  /** Small numbers as they appear in every source map. */
  lemma KnownEncodings()
    ensures Encode(0) == ['A' as int] && Encode(1) == ['C' as int] && Encode(-1) == ['D' as int] && Encode(2) == ['E' as int]
    ensures Encode(4) == ['I' as int] && Encode(15) == ['e' as int]
    ensures Encode(16) == ['g' as int, 'B' as int] && Encode(-16) == ['h' as int, 'B' as int]
  {
    assert Digits(1) == [IntegerToChar(1)];
  }

  // ---- decoding, one byte at a time, as the reader does it ----

  /** The number being read; `shift` is where its next five bits go. */
  datatype Partial = Partial(value: int, shift: nat)

  const START := Partial(0, 0)

  function Add(p: Partial, digit: int): int {
    p.value + ToInt32((digit % 32) * Pow2(p.shift % 32))
  }

  function Continues(digit: int): bool {
    (digit / 32) % 2 == 1
  }

  /** The signed number, once its last digit is in. */
  function Signed(value: int): int {
    var half := ToInt32(value) / 2;
    if value % 2 == 1 then -half else half
  }

  /** Reads one number from the front: its value and how many bytes it took. */
  function Decode(p: Partial, s: seq<Byte>): Option<(int, nat)>
    decreases |s|
  {
    if s == [] then None
    else
      var digit := CharToInteger(s[0]);
      var value := Add(p, digit);
      if digit == 255 then None
      else if Continues(digit) then
        match Decode(Partial(value, p.shift + 5), s[1..])
        case None => None
        case Some((v, n)) => Some((v, n + 1))
      else Some((Signed(value), 1))
  }

  lemma AddExact(p: Partial, digit: int)
    requires 0 <= digit < 64 && p.shift <= 30 && (digit % 32) * Pow2(p.shift) < 0x8000_0000
    ensures Add(p, digit) == p.value + (digit % 32) * Pow2(p.shift)
  {
    hide Pow2, ToInt32;
    MulIsNatural(digit % 32, Pow2(p.shift));
  }

  lemma MulIsNatural(a: int, b: int)
    requires a >= 0 && b >= 0
    ensures a * b >= 0
  {
  }

  /** Splitting off the lowest five bits. */
  lemma SplitBits(n: nat, k: int)
    requires k >= 1
    ensures n * k == (n % 32) * k + (n / 32) * (32 * k)
    ensures (n % 32) * k >= 0 && (n / 32) * (32 * k) >= 0
  {
  }

  lemma Pow2At26()
    ensures Pow2(26) == 0x400_0000
  {
    Pow2Five(0);
    Pow2Five(5);
    Pow2Five(10);
    Pow2Five(15);
    Pow2Five(20);
  }

  lemma MulAtLeast(m: int, k: int)
    requires m >= 1 && k >= 0
    ensures m * k >= k
  {
  }

  lemma ShiftBound(shift: nat, m: int)
    requires m >= 1 && m * (32 * Pow2(shift)) < 0x8000_0000
    ensures shift <= 25
  {
    hide Pow2;
    MulAtLeast(m, 32 * Pow2(shift));
    if shift > 25 {
      Pow2Mono(26, shift);
      Pow2At26();
    }
  }

  lemma DigitIsRead(digit: int)
    requires 0 <= digit < 64
    ensures CharToInteger(IntegerToChar(digit)) == digit
  {
  }

  /** One digit is read: it is added, and either it was the last or reading goes on five bits higher. */
  lemma DecodeStep(p: Partial, digit: int, more: seq<Byte>)
    requires 0 <= digit < 64 && p.shift <= 30 && (digit % 32) * Pow2(p.shift) < 0x8000_0000
    ensures
      var value := p.value + (digit % 32) * Pow2(p.shift);
      Decode(p, [IntegerToChar(digit)] + more) ==
        if digit < 32 then Some((Signed(value), 1))
        else match Decode(Partial(value, p.shift + 5), more)
             case None => None
             case Some((v, n)) => Some((v, n + 1))
  {
    hide IntegerToChar, CharToInteger, Signed, Pow2, Add;
    var s := [IntegerToChar(digit)] + more;
    assert s[1..] == more;
    DigitIsRead(digit);
    AddExact(p, digit);
  }

  lemma DigitsStep(n: nat)
    ensures Digits(n) == if n >= 32 then [IntegerToChar(n % 32 + 32)] + Digits(n / 32) else [IntegerToChar(n)]
  {
  }

  /** The reader accumulates exactly the number whose digits it is given. */
  lemma {:induction false} DecodeDigits(p: Partial, n: nat, rest: seq<Byte>)
    requires p.value >= 0 && p.shift <= 30 && p.value + n * Pow2(p.shift) < 0x8000_0000
    ensures Decode(p, Digits(n) + rest) == Some((Signed(p.value + n * Pow2(p.shift)), |Digits(n)|))
    decreases n
  {
    hide IntegerToChar, Signed, Pow2, Decode, Digits;
    var k := Pow2(p.shift);
    SplitBits(n, k);
    DigitsStep(n);
    if n >= 32 {
      var digit := n % 32 + 32;
      assert digit % 32 == n % 32;
      assert Digits(n) + rest == [IntegerToChar(digit)] + (Digits(n / 32) + rest);
      DecodeStep(p, digit, Digits(n / 32) + rest);
      Pow2Five(p.shift);
      ShiftBound(p.shift, n / 32);
      DecodeDigits(Partial(p.value + (n % 32) * k, p.shift + 5), n / 32, rest);
    } else {
      assert n % 32 == n;
      DecodeStep(p, n, rest);
    }
  }

  lemma ZigZagSigned(num: int)
    requires -0x4000_0000 < num < 0x4000_0000
    ensures 0 <= ZigZag(num) < 0x8000_0000 && Signed(ZigZag(num)) == num
  {
  }

  lemma ZigZagRange(num: int)
    ensures -0x8000_0000 <= ZigZag(num) < 0x8000_0000
  {
    assert ToInt32(2 * -num) % 2 == 0;
  }

  lemma SignedIsSmall(value: int)
    requires 0 <= value < 0x8000_0000
    ensures -0x4000_0000 < Signed(value) < 0x4000_0000
  {
  }

  /** An overflowed number is written as its last five bits only. */
  lemma NegativeIsOneDigit(n: int)
    requires n < 0
    ensures Digits(n) == [IntegerToChar(n % 32)]
  {
  }

  lemma OneDigit(d: nat)
    requires d < 32
    ensures Decode(START, [IntegerToChar(d)]) == Some((Signed(d), 1))
  {
    hide Signed, IntegerToChar, CharToInteger, ToInt32, Add;
    DigitIsRead(d);
    AddExact(START, d);
  }

  /** What decoding an encoded number gives lies strictly between -2^30 and 2^30, whatever the number was. */
  lemma DecodedIsSmall(num: int)
    ensures Decode(START, Encode(num)).Some?
    ensures -0x4000_0000 < Decode(START, Encode(num)).value.0 < 0x4000_0000
  {
    hide Decode, Digits, Signed, ZigZag, ToInt32, IntegerToChar;
    var n := ZigZag(num);
    ZigZagRange(num);
    if n >= 0 {
      DecodeDigits(START, n, []);
      assert Digits(n) + [] == Digits(n);
      SignedIsSmall(n);
    } else {
      NegativeIsOneDigit(n);
      OneDigit(n % 32);
      SignedIsSmall(n % 32);
    }
  }

  /** Reading back what was written returns the number, and stops exactly behind it, if and only if it is below 2^30. */
  lemma RoundTrip(num: int, rest: seq<Byte>)
    ensures -0x4000_0000 < num < 0x4000_0000 ==> Decode(START, Encode(num) + rest) == Some((num, |Encode(num)|))
    ensures Decode(START, Encode(num)) == Some((num, |Encode(num)|)) ==> -0x4000_0000 < num < 0x4000_0000
  {
    hide Decode, Digits, Signed, ZigZag, ToInt32;
    if -0x4000_0000 < num < 0x4000_0000 {
      ZigZagSigned(num);
      assert Pow2(0) == 1;
      DecodeDigits(START, ZigZag(num), rest);
    }
    DecodedIsSmall(num);
  }

  /** The smallest number that does not come back. */
  lemma OverflowsAtTwoToThirty()
    ensures Decode(START, Encode(0x4000_0000)) != Some((0x4000_0000, |Encode(0x4000_0000)|))
    ensures Decode(START, Encode(0x3FFF_FFFF)) == Some((0x3FFF_FFFF, |Encode(0x3FFF_FFFF)|))
  {
    hide Decode, Encode;
    RoundTrip(0x4000_0000, []);
    RoundTrip(0x3FFF_FFFF, []);
    assert Encode(0x3FFF_FFFF) + [] == Encode(0x3FFF_FFFF);
  }

  // ---- the buffer ----

  class DynamicBuffer {
    var buffer: array<Byte>
    var size: nat

    ghost predicate Valid() reads this {
      size <= buffer.Length
    }

    ghost function Contents(): seq<Byte>
      reads this, buffer
      requires Valid()
    {
      buffer[..size]
    }

    constructor ()
      ensures Valid() && fresh(buffer) && Contents() == []
    {
      buffer := new Byte[512](i => 0);
      size := 0;
    }

    /** At least doubles the buffer when it is too small; what was written stays. */
    method EnsureCapacity(capacity: nat)
      requires Valid()
      modifies this`buffer
      ensures Valid() && buffer.Length >= capacity && buffer.Length >= old(buffer.Length)
      ensures buffer == old(buffer) || fresh(buffer)
      ensures Contents() == old(Contents())
    {
      if buffer.Length >= capacity {
        return;
      }
      var oldBuffer := buffer;
      var length := if oldBuffer.Length * 2 >= capacity then oldBuffer.Length * 2 else capacity;
      var grown := new Byte[length](i => 0);
      forall i | 0 <= i < oldBuffer.Length { grown[i] := oldBuffer[i]; }
      buffer := grown;
    }

    method AddByte(b: Byte)
      requires Valid()
      modifies this, buffer
      ensures Valid() && (buffer == old(buffer) || fresh(buffer))
      ensures Contents() == old(Contents()) + [b]
    {
      EnsureCapacity(size + 1);
      buffer[size] := b;
      size := size + 1;
    }

    method AddVLQ(num: int)
      requires Valid()
      modifies this, buffer
      ensures Valid() && (buffer == old(buffer) || fresh(buffer))
      ensures Contents() == old(Contents()) + Encode(num)
    {
      var n := if num < 0 then ToInt32(2 * -num) + 1 else ToInt32(2 * num);
      ghost var written: seq<Byte> := [];
      assert [] + Digits(n) == Encode(num);
      var more := true;
      while more
        invariant Valid() && (buffer == old(buffer) || fresh(buffer))
        invariant Contents() == old(Contents()) + written
        invariant Encode(num) == if more then written + Digits(n) else written
        decreases more, if n > 0 then n else 0
      {
        var clamped := n % 32;
        var next := n / 32;
        if next > 0 {
          clamped := clamped + 32;
        }
        var b := IntegerToChar(clamped);
        assert Digits(n) == if next > 0 then [b] + Digits(next) else [b];
        assert written + ([b] + Digits(next)) == written + [b] + Digits(next);
        AddByte(b);
        assert old(Contents()) + written + [b] == old(Contents()) + (written + [b]);
        written := written + [b];
        n := next;
        more := n > 0;
      }
    }

    method AddBuffer(b: seq<Byte>)
      requires Valid()
      modifies this, buffer
      ensures Valid() && (buffer == old(buffer) || fresh(buffer))
      ensures Contents() == old(Contents()) + b
    {
      EnsureCapacity(size + |b|);
      forall i | 0 <= i < |b| { buffer[size + i] := b[i]; }
      size := size + |b|;
    }
  }
}
