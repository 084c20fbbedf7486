/**
 Text in a number column: `converter >> numValue` reads every printed 64-bit integer back, clamps what is beyond,
 and the element of the buffer holds it modulo the size of its type.
 */
module NumberReading {
  import opened Decimals
  import opened AppBuffers
  import opened Slots

  function Clamp(v: int): int {
    if v < -0x8000_0000_0000_0000 then -0x8000_0000_0000_0000
    else if v < 0x8000_0000_0000_0000 then v
    else 0x7FFF_FFFF_FFFF_FFFF
  }

  lemma {:induction false} LeadingRun(digits: string, tail: string)
    requires AllDigits(digits) && (tail == "" || !IsDigit(tail[0]))
    ensures LeadingDigits(digits + tail) == digits
    decreases digits
  {
    var all := digits + tail;
    if digits == "" {
      assert all == tail;
    } else {
      assert all[1..] == digits[1..] + tail;
      LeadingRun(digits[1..], tail);
    }
  }

  /**
   What a text is read as: white space is skipped, a sign counts, the digits up to the first other character are
   the value, and a value beyond 64 bits is clamped. Without digits it is 0.
   */
  lemma ReadsSigned(spaces: string, sign: string, digits: string, tail: string)
    requires Blank(spaces) && sign in {"", "+", "-"} && AllDigits(digits) && (tail == "" || !IsDigit(tail[0]))
    requires sign + digits == "" && tail != "" ==> tail[0] !in BLANKS && tail[0] !in "+-"
    ensures ReadNumber(spaces + (sign + (digits + tail))) ==
      Clamp(if sign == "-" then 0 - Value(digits) else Value(digits))
  {
    hide Value, SkipSpaces, LeadingDigits, Blank;
    var text := sign + (digits + tail);
    LeadingRun(digits, tail);
    FirstOf(sign, digits, tail);
    SkipsBlanks(spaces, text);
    if sign == "" {
      assert text == digits + tail;
    } else {
      assert text[1..] == digits + tail;
    }
  }

  lemma FirstOf(sign: string, digits: string, tail: string)
    requires sign in {"", "+", "-"} && AllDigits(digits)
    requires sign + digits == "" && tail != "" ==> tail[0] !in BLANKS && tail[0] !in "+-"
    ensures var text := sign + (digits + tail); text == "" || !IsSpace(text[0])
    ensures var text := sign + (digits + tail);
      && (text != "" && text[0] == '-' <==> sign == "-")
      && (text != "" && text[0] == '+' <==> sign == "+")
  {
    var text := sign + (digits + tail);
    if sign + digits == "" {
      assert text == tail;
    } else if sign == "" {
      assert text[0] == digits[0];
    }
  }

  /** Every 64-bit number is read back as printed, whatever follows its last digit; the others are clamped. */
  lemma ReadsPrinted(spaces: string, v: int, tail: string)
    requires Blank(spaces) && (tail == "" || !IsDigit(tail[0]))
    ensures ReadNumber(spaces + (Print(v) + tail)) == Clamp(v)
  {
    hide ReadNumber, Digits;
    var sign, digits := if v < 0 then "-" else "", Digits(if v < 0 then -v else v);
    ValueOfDigits(if v < 0 then -v else v);
    ReadsSigned(spaces, sign, digits, tail);
    assert sign + (digits + tail) == Print(v) + tail;
  }

  /** Bytes of the integer types. */
  function TypeSize(kind: NativeType): nat {
    if kind.SignedBigint? || kind.UnsignedBigint? then 8
    else if kind.SignedLong? || kind.UnsignedLong? then 4
    else if kind.SignedShort? || kind.UnsignedShort? then 2
    else if kind.SignedTinyInt? || kind.UnsignedTinyInt? || kind.Bit? then 1
    else 0
  }

  /**
   After a printed 64-bit number has been put into a number column, the element holds it modulo the size of its
   type, and the length indicator that size.
   */
  lemma NumberInElement(m: string, b: AppBuffer, spaces: string, v: int, tail: string)
    requires Fits(b, |m|) && Apart(b) && TypeSize(b.kind) > 0
    requires Blank(spaces) && (tail == "" || !IsDigit(tail[0])) && Clamp(v) == v
    ensures var (after, res) := PutString(m, b, spaces + (Print(v) + tail));
      && |after| == |m| && res == Done
      && (b.data.Some? ==> Unsigned(after[DataAt(b)..DataAt(b) + TypeSize(b.kind)]) == v % Pow256(TypeSize(b.kind)))
      && (b.reslen.Some? ==> Unsigned(after[LenAt(b)..LenAt(b) + 8]) == TypeSize(b.kind))
  {
    hide ReadNumber, Print, LittleEndian, Unsigned, Pow256, Store, Apart, Blank;
    var n := TypeSize(b.kind);
    assert n == Width(b.kind);
    ReadsPrinted(spaces, v, tail);
    StoreHolds(m, b, LittleEndian(v, n), n);
    NumberReadsBack(v, n);
    NumberReadsBack(n, 8);
    SmallLength(n);
  }

  lemma SmallLength(n: nat)
    requires n < 256
    ensures n % Pow256(8) == n
  {
    Sizes();
  }

  lemma Sizes()
    ensures Pow256(1) == 0x100 && Pow256(2) == 0x1_0000 && Pow256(4) == 0x1_0000_0000
    ensures Pow256(8) == 0x1_0000_0000_0000_0000
  {
    assert Pow256(6) == 0x1_0000_0000_0000;
  }

  /** The two's complement reading of an element. */
  function Signed(s: string): int {
    if 2 * Unsigned(s) < Pow256(|s|) then Unsigned(s) else Unsigned(s) - Pow256(|s|)
  }

  /**
   A number survives in a signed element exactly when it is in the range of the type, and in an unsigned one
   exactly when it is not negative and below the size of the type.
   */
  lemma SurvivesIff(v: int, width: nat)
    requires width > 0
    ensures var size: int := Pow256(width);
      && (Signed(LittleEndian(v, width)) == v <==> 0 - size <= 2 * v < size)
      && (Unsigned(LittleEndian(v, width)) == v <==> 0 <= v < size)
  {
    hide LittleEndian, Unsigned;
    NumberReadsBack(v, width);
    Residue(v, Pow256(width));
  }

  lemma Residue(v: int, size: int)
    requires size > 0
    ensures v % size == v <==> 0 <= v < size
    ensures 0 - size <= v < 0 ==> v % size == v + size
  {
    if 0 <= v < size {
      ModUnique(v, size, 0, v);
    } else if 0 - size <= v < 0 {
      ModUnique(v, size, -1, v + size);
    }
  }
}
