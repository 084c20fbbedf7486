/**
 `ApplicationDataBuffer`: a typed window into application memory. A window is an address, an element
 size and two offsets, and a Put writes one element and one length indicator through it. Memory is an
 array of bytes, each byte a `char`; text is ANSI text, one byte a character.
 */
module AppBuffers {
  import opened Options
  import opened Decimals

  datatype ConversionResult = Done | FractionTruncated | TextTruncated | Unsupported | IndicatorNeeded | NoneFound | Failed

  datatype NativeType =
    | CharText | WideText | Binary
    | SignedTinyInt | Bit | UnsignedTinyInt
    | SignedShort | UnsignedShort | SignedLong | UnsignedLong | SignedBigint | UnsignedBigint
    | Interval
    | DefaultType

  const LEN_SIZE: nat := 8

  /** The size of `SQL_INTERVAL_STRUCT`. */
  const INTERVAL_SIZE: nat := 28

  const SQL_NULL_DATA: int := -1
  const NUL: char := 0 as char

  datatype AppBuffer = AppBuffer(
    kind: NativeType,
    data: Option<nat>,
    buflen: nat,
    reslen: Option<nat>,
    byteOffset: nat,
    elementOffset: nat)

  /** The size of a fixed-width type. */
  function Width(kind: NativeType): nat {
    match kind
    case SignedTinyInt => 1
    case Bit => 1
    case UnsignedTinyInt => 1
    case SignedShort => 2
    case UnsignedShort => 2
    case SignedLong => 4
    case UnsignedLong => 4
    case SignedBigint => 8
    case UnsignedBigint => 8
    case _ => 0
  }

  predicate IsText(kind: NativeType) {
    kind.CharText? || kind.WideText? || kind.Binary?
  }

  /** `GetElementSize`: the distance between two elements of a bound array. */
  function ElementSize(b: AppBuffer): nat {
    if IsText(b.kind) then b.buflen else Width(b.kind)
  }

  /** `ApplyOffset` on the data pointer and on the length pointer. */
  function DataAt(b: AppBuffer): nat
    requires b.data.Some?
  {
    b.data.value + (b.byteOffset + ElementSize(b) * b.elementOffset)
  }

  function LenAt(b: AppBuffer): nat
    requires b.reslen.Some?
  {
    b.reslen.value + (b.byteOffset + LEN_SIZE * b.elementOffset)
  }

  /** The bytes a Put may need: the element, or the whole buffer for a type without element size. */
  function Extent(b: AppBuffer): nat {
    match b.kind
    case DefaultType => b.buflen
    case Interval => INTERVAL_SIZE
    case _ => ElementSize(b)
  }

  predicate Fits(b: AppBuffer, size: nat) {
    && (b.data.Some? ==> DataAt(b) + Extent(b) <= size)
    && (b.reslen.Some? ==> LenAt(b) + LEN_SIZE <= size)
  }

  predicate InData(b: AppBuffer, at: int) {
    b.data.Some? && DataAt(b) <= at < DataAt(b) + Extent(b)
  }

  predicate InLen(b: AppBuffer, at: int) {
    b.reslen.Some? && LenAt(b) <= at < LenAt(b) + LEN_SIZE
  }

  /** Element `b.elementOffset` of the bound array and its length indicator. */
  predicate InSlot(b: AppBuffer, at: int) {
    InData(b, at) || InLen(b, at)
  }

  /** `m` with `bytes` stored at `at`. */
  function Poke(m: string, at: nat, bytes: string): (r: string)
    requires at + |bytes| <= |m|
    ensures |r| == |m|
    ensures forall i | 0 <= i < |m| :: r[i] == if at <= i < at + |bytes| then bytes[i - at] else m[i]
  {
    m[..at] + bytes + m[at + |bytes|..]
  }

  /** Byte `i` of a two's complement integer, lowest first. */
  function ByteOf(v: int, i: nat): char
    decreases i
  {
    if i == 0 then (v % 256) as char else ByteOf(v / 256, i - 1)
  }

  /** The `width` low-order bytes of an integer. */
  function LittleEndian(v: int, width: nat): (s: string)
    ensures |s| == width
  {
    seq(width, i requires 0 <= i < width => ByteOf(v, i))
  }

  /** The text a C string function sees: everything before the first NUL. */
  function CStr(s: string): (r: string)
    ensures r <= s && NUL !in r && (|r| < |s| ==> s[|r|] == NUL)
  {
    if s == "" || s[0] == NUL then "" else [s[0]] + CStr(s[1..])
  }

  /** UTF-16 units of ANSI text. */
  function Widen(s: string): (r: string)
    ensures |r| == 2 * |s|
  {
    if s == "" then "" else [s[0], NUL] + Widen(s[1..])
  }

  /** A text in the encoding of the buffer. */
  function Encoded(kind: NativeType, s: string): (r: string)
    ensures |r| == Bytes(kind, |s|)
  {
    if kind.WideText? then Widen(s) else s
  }

  function Min(a: int, b: int): int {
    if a < b then a else b
  }

  /** Stores the element bytes and, when an indicator is bound, the length. */
  function Store(m: string, b: AppBuffer, bytes: string, len: int): (r: string)
    requires Fits(b, |m|) && |bytes| <= Extent(b)
    ensures |r| == |m|
  {
    var m1 := if b.data.Some? then Poke(m, DataAt(b), bytes) else m;
    if b.reslen.Some? then Poke(m1, LenAt(b), LittleEndian(len, LEN_SIZE)) else m1
  }

  /** Bytes of one character in the element. */
  function CharSize(kind: NativeType): nat {
    if kind.WideText? then 2 else 1
  }

  /** The bytes of `n` characters, and the characters a buffer has room for. */
  function Bytes(kind: NativeType, n: nat): nat {
    if kind.WideText? then 2 * n else n
  }

  function Room(b: AppBuffer): nat {
    if b.kind.WideText? then b.buflen / 2 else b.buflen
  }

  /** How many characters of `text` fit beside the terminator. */
  function Kept(b: AppBuffer, text: string): (n: nat)
    requires b.buflen >= CharSize(b.kind)
    ensures n <= |CStr(text)| && n < Room(b)
    ensures n < |CStr(text)| <==> |CStr(text)| >= Room(b)
  {
    Min(|CStr(text)|, Room(b) - 1)
  }

  /** The element a text Put leaves behind: the kept characters and a terminator. */
  function TextImage(b: AppBuffer, text: string): (image: string)
    requires b.buflen >= CharSize(b.kind)
    ensures |image| == Bytes(b.kind, Kept(b, text) + 1) <= b.buflen
  {
    Encoded(b.kind, CStr(text)[..Kept(b, text)] + [NUL])
  }

  /** `PutStrToStrBuffer` */
  function PutText(m: string, b: AppBuffer, text: string): (r: (string, ConversionResult))
    requires Fits(b, |m|) && (IsText(b.kind) || b.kind.DefaultType?)
    ensures |r.0| == |m|
  {
    if b.data.None? then (m, Done)
    else if b.buflen < CharSize(b.kind) then (m, TextTruncated)
    else (Store(m, b, TextImage(b, text), Bytes(b.kind, Kept(b, text))),
          if Kept(b, text) < |CStr(text)| then TextTruncated else Done)
  }

  /** `PutNumToNumBuffer`: a C cast to the buffer's type. */
  function PutNumber(m: string, b: AppBuffer, v: int): (r: (string, ConversionResult))
    requires Fits(b, |m|) && Width(b.kind) > 0
    ensures |r.0| == |m|
  {
    (Store(m, b, LittleEndian(v, Width(b.kind)), Width(b.kind)), Done)
  }

  function LeadingDigits(s: string): (r: string)
    ensures AllDigits(r) && r <= s
  {
    if s != "" && IsDigit(s[0]) then [s[0]] + LeadingDigits(s[1..]) else ""
  }

  const INT64_MAX: int := 0x7FFF_FFFF_FFFF_FFFF

  predicate IsSpace(ch: char) {
    ch == ' ' || 9 <= ch as int <= 13
  }

  function SkipSpaces(s: string): string {
    if s != "" && IsSpace(s[0]) then SkipSpaces(s[1..]) else s
  }

  /** White space of the C locale. */
  const BLANKS: string := " \t\n\U{0B}\U{0C}\r"

  predicate Blank(s: string) {
    forall ch | ch in s :: ch in BLANKS
  }

  lemma {:induction false} SkipsBlanks(spaces: string, text: string)
    requires Blank(spaces) && (text == "" || !IsSpace(text[0]))
    ensures SkipSpaces(spaces + text) == text
    decreases spaces
  {
    var all := spaces + text;
    if spaces == "" {
      assert all == text;
    } else {
      assert spaces[0] in spaces && all[1..] == spaces[1..] + text;
      SkipsBlanks(spaces[1..], text);
    }
  }

  /** `stringstream >> int64_t`: spaces, an optional sign, digits; clamped, and 0 when there are no digits. */
  function ReadNumber(text: string): (v: int)
    ensures -INT64_MAX - 1 <= v <= INT64_MAX
  {
    var s := SkipSpaces(text);
    var negative := s != "" && s[0] == '-';
    var v := Value(LeadingDigits(if s != "" && (s[0] == '-' || s[0] == '+') then s[1..] else s));
    if negative then -Min(v, INT64_MAX + 1) else Min(v, INT64_MAX)
  }

  /** `PutString` */
  function PutString(m: string, b: AppBuffer, text: string): (r: (string, ConversionResult))
    requires Fits(b, |m|)
    ensures |r.0| == |m|
  {
    if Width(b.kind) > 0 then PutNumber(m, b, ReadNumber(text))
    else if b.kind.Interval? then (m, Unsupported)
    else PutText(m, b, text)
  }

  // ---- The methods write through the pointers. ----

  method StoreBytes(mem: array<char>, at: nat, bytes: string)
    requires at + |bytes| <= mem.Length
    modifies mem
    ensures mem[..] == Poke(old(mem[..]), at, bytes)
  {
    for i := 0 to |bytes|
      invariant forall j | 0 <= j < mem.Length ::
        mem[j] == if at <= j < at + i then bytes[j - at] else old(mem[j])
    {
      mem[at + i] := bytes[i];
    }
  }

  method SetResLen(mem: array<char>, b: AppBuffer, len: int)
    requires Fits(b, mem.Length)
    modifies mem
    ensures mem[..] ==
      if b.reslen.Some? then Poke(old(mem[..]), LenAt(b), LittleEndian(len, LEN_SIZE)) else old(mem[..])
  {
    if b.reslen.Some? {
      StoreBytes(mem, LenAt(b), LittleEndian(len, LEN_SIZE));
    }
  }

  method PutNumToNumBuffer(mem: array<char>, b: AppBuffer, v: int) returns (res: ConversionResult)
    requires Fits(b, mem.Length) && Width(b.kind) > 0
    modifies mem
    ensures (mem[..], res) == PutNumber(old(mem[..]), b, v)
  {
    if b.data.Some? {
      StoreBytes(mem, DataAt(b), LittleEndian(v, Width(b.kind)));
    }
    SetResLen(mem, b, Width(b.kind));
    res := Done;
  }

  /** Length of a C string. */
  method StrLen(s: string) returns (n: nat)
    ensures n == |CStr(s)|
  {
    n := 0;
    while n < |s| && s[n] != NUL
      invariant n <= |s| && NUL !in s[..n]
    {
      n := n + 1;
    }
    CStrIs(s, n);
  }

  lemma {:induction false} CStrIs(s: string, n: nat)
    requires n <= |s| && NUL !in s[..n] && (n < |s| ==> s[n] == NUL)
    ensures CStr(s) == s[..n]
  {
    if n > 0 {
      assert s[0] == s[..n][0];
      assert s[1..][..n - 1] == s[..n][1..];
      CStrIs(s[1..], n - 1);
      assert s[..n] == [s[0]] + s[1..][..n - 1];
    }
  }

  /** One character, in the encoding of the buffer. */
  method StoreChar(mem: array<char>, kind: NativeType, at: nat, ch: char)
    requires at + CharSize(kind) <= mem.Length
    modifies mem
    ensures mem[..] == Poke(old(mem[..]), at, Encoded(kind, [ch]))
  {
    mem[at] := ch;
    if kind.WideText? {
      mem[at + 1] := NUL;
    }
    OneEncoded(kind, ch);
  }

  lemma OneEncoded(kind: NativeType, ch: char)
    ensures Encoded(kind, [ch]) == if kind.WideText? then [ch, NUL] else [ch]
  {
    assert [ch][1..] == "";
  }

  lemma {:induction false} EncodedMore(kind: NativeType, s: string, ch: char)
    ensures Encoded(kind, s + [ch]) == Encoded(kind, s) + Encoded(kind, [ch])
    ensures |Encoded(kind, s)| == Bytes(kind, |s|)
  {
    if kind.WideText? && s != "" {
      EncodedMore(kind, s[1..], ch);
      assert (s + [ch])[1..] == s[1..] + [ch];
    } else if kind.WideText? {
      assert s + [ch] == [ch];
    }
  }

  lemma PokeMore(m: string, at: nat, x: string, y: string)
    requires at + |x| + |y| <= |m|
    ensures Poke(Poke(m, at, x), at + |x|, y) == Poke(m, at, x + y)
  {
  }

  lemma PokeNothing(m: string, at: nat)
    requires at <= |m|
    ensures Poke(m, at, "") == m
  {
  }

  /**
   The copy loops of `CopyUtf8StringToSqlCharString` and `CopyUtf8StringToSqlWcharString`: as many
   characters as fit beside the terminator.
   */
  method CopyText(mem: array<char>, b: AppBuffer, text: string) returns (written: nat, isTruncated: bool)
    requires Fits(b, mem.Length) && b.data.Some? && b.buflen >= CharSize(b.kind)
    requires IsText(b.kind) || b.kind.DefaultType?
    modifies mem
    ensures mem[..] == Poke(old(mem[..]), DataAt(b), TextImage(b, text))
    ensures written == Bytes(b.kind, Kept(b, text))
    ensures isTruncated == (Kept(b, text) < |CStr(text)|)
  {
    hide Poke, Encoded, CStr;
    var length := StrLen(text);
    var count := Min(length, Room(b) - 1);
    PokeNothing(mem[..], DataAt(b));
    NoneEncoded(b.kind);
    for i := 0 to count
      invariant mem[..] == Poke(old(mem[..]), DataAt(b), Encoded(b.kind, text[..i]))
    {
      StoreChar(mem, b.kind, DataAt(b) + Bytes(b.kind, i), text[i]);
      EncodedMore(b.kind, text[..i], text[i]);
      PokeMore(old(mem[..]), DataAt(b), Encoded(b.kind, text[..i]), Encoded(b.kind, [text[i]]));
      assert text[..i + 1] == text[..i] + [text[i]];
    }
    StoreChar(mem, b.kind, DataAt(b) + Bytes(b.kind, count), NUL);
    EncodedMore(b.kind, text[..count], NUL);
    PokeMore(old(mem[..]), DataAt(b), Encoded(b.kind, text[..count]), Encoded(b.kind, [NUL]));
    assert text[..count] == CStr(text)[..count];
    written, isTruncated := Bytes(b.kind, count), count < length;
  }

  lemma NoneEncoded(kind: NativeType)
    ensures Encoded(kind, "") == ""
  {
  }

  method PutStrToStrBuffer(mem: array<char>, b: AppBuffer, text: string) returns (res: ConversionResult)
    requires Fits(b, mem.Length) && (IsText(b.kind) || b.kind.DefaultType?)
    modifies mem
    ensures (mem[..], res) == PutText(old(mem[..]), b, text)
  {
    if b.data.None? {
      return Done;
    }
    if b.buflen < CharSize(b.kind) {
      return TextTruncated;
    }
    var written, isTruncated := CopyText(mem, b, text);
    SetResLen(mem, b, written);
    res := if isTruncated then TextTruncated else Done;
  }

  method PutStringToBuffer(mem: array<char>, b: AppBuffer, text: string) returns (res: ConversionResult)
    requires Fits(b, mem.Length)
    modifies mem
    ensures (mem[..], res) == PutString(old(mem[..]), b, text)
  {
    if Width(b.kind) > 0 {
      res := PutNumToNumBuffer(mem, b, ReadNumber(text));
    } else if b.kind.Interval? {
      res := Unsupported;
    } else {
      res := PutStrToStrBuffer(mem, b, text);
    }
  }
}
