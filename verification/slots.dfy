/**
 Slots: element i of every bound array. A Put stays inside its slot, slots of different elements and
 of different columns do not overlap, and a slot keeps what was put into it.
 */
module Slots {
  import opened Options
  import opened Datums
  import opened Decimals
  import opened AppBuffers
  import opened Renderer

  type Bindings = map<nat, AppBuffer>

  /** `SetByteOffset` and `SetElementOffset`: the window moved to element `i`. */
  function At(b: AppBuffer, byteOffset: nat, i: nat): AppBuffer {
    b.(byteOffset := byteOffset, elementOffset := i)
  }

  /** A Put changes nothing outside its slot. */
  lemma PutStaysInSlot(m: string, b: AppBuffer, d: Datum, at: nat)
    requires Fits(b, |m|) && at < |m| && !InSlot(b, at)
    ensures ReadCell(m, b, d).0[at] == m[at]
  {
    hide Text, ReadNumber, CStr;
  }

  // ---- What a slot holds. ----

  /** The data and the length indicator of the slot do not overlap. */
  predicate Apart(b: AppBuffer) {
    b.data.Some? && b.reslen.Some? ==> DataAt(b) + Extent(b) <= LenAt(b) || LenAt(b) + LEN_SIZE <= DataAt(b)
  }

  predicate BytesAt(m: string, at: nat, bytes: string) {
    at + |bytes| <= |m| && m[at..at + |bytes|] == bytes
  }

  /** The slot holds an element and a length. */
  predicate HoldsBytes(m: string, b: AppBuffer, bytes: string, len: int) {
    && (b.data.Some? ==> BytesAt(m, DataAt(b), bytes))
    && (b.reslen.Some? ==> BytesAt(m, LenAt(b), LittleEndian(len, LEN_SIZE)))
  }

  predicate HoldsText(m: string, b: AppBuffer, text: string) {
    if Width(b.kind) > 0 then HoldsBytes(m, b, LittleEndian(ReadNumber(text), Width(b.kind)), Width(b.kind))
    else !b.kind.Interval? && b.data.Some? && b.buflen >= CharSize(b.kind) ==>
      HoldsBytes(m, b, TextImage(b, text), Bytes(b.kind, Kept(b, text)))
  }

  /** A value that puts something puts its text. */
  predicate HoldsCell(m: string, b: AppBuffer, d: Datum) {
    d.Unset? || (d.RowOf? && !d.isSet) || HoldsText(m, b, Text(d))
  }

  lemma StoreHolds(m: string, b: AppBuffer, bytes: string, len: int)
    requires Fits(b, |m|) && Apart(b) && |bytes| <= Extent(b)
    ensures HoldsBytes(Store(m, b, bytes, len), b, bytes, len)
  {
    hide LittleEndian;
  }

  lemma PutHolds(m: string, b: AppBuffer, d: Datum)
    requires Fits(b, |m|) && Apart(b)
    ensures HoldsCell(ReadCell(m, b, d).0, b, d)
  {
    hide ItemsText, PointsText, ReadNumber, CStr, LittleEndian, TextImage, Kept, Store, HoldsBytes;
    var text := Text(d);
    if Width(b.kind) > 0 {
      StoreHolds(m, b, LittleEndian(ReadNumber(text), Width(b.kind)), Width(b.kind));
    } else if !b.kind.Interval? && b.data.Some? && b.buflen >= CharSize(b.kind) {
      StoreHolds(m, b, TextImage(b, text), Bytes(b.kind, Kept(b, text)));
    }
  }

  // ---- What a Put reports, and what a text element is. ----

  /** A value that is put as a text of its own. */
  predicate HasText(d: Datum) {
    !d.Unset? && !d.Null? && !(d.RowOf? && !d.isSet)
  }

  /**
   What a conversion reports: a failure for a value without kind, the missing data of a row, success for a null and
   for a number column. A text is truncated exactly when it leaves no room for the terminator.
   */
  lemma ConversionSays(m: string, b: AppBuffer, d: Datum)
    requires Fits(b, |m|)
    ensures var r := ReadCell(m, b, d).1;
      && (r.Failed? <==> d.Unset?)
      && (r.NoneFound? <==> d.RowOf? && !d.isSet)
      && (d.Null? ==> r.Done?)
      && (HasText(d) ==>
            if Width(b.kind) > 0 then r.Done?
            else if b.kind.Interval? then r.Unsupported?
            else if b.data.None? then r.Done?
            else if b.buflen < (if b.kind.WideText? then 2 else 1) || |CStr(Text(d))| >= Room(b) then r.TextTruncated?
            else r.Done?)
  {
    hide Text, ReadNumber, CStr, Store, TextImage;
  }

  /**
   A text element, byte by byte: the longest prefix of the C string that leaves room for a terminator, each
   character in one byte or, in a wide buffer, in two with the high one 0, and the terminator.
   */
  lemma ImageMeans(b: AppBuffer, text: string)
    requires b.buflen >= CharSize(b.kind)
    ensures var n, image, size := Kept(b, text), TextImage(b, text), if b.kind.WideText? then 2 else 1;
      && n <= |CStr(text)| && |image| == size * (n + 1) <= b.buflen
      && (n < |CStr(text)| ==> size * (n + 2) > b.buflen)
      && (forall i: nat | i < n :: image[size * i] == text[i])
      && image[size * n] == NUL
      && (size == 2 ==> forall i: nat | i <= n :: image[2 * i + 1] == NUL)
      && Bytes(b.kind, n) == size * n
  {
    hide CStr, Widen;
    var kept := CStr(text)[..Kept(b, text)] + [NUL];
    if b.kind.WideText? { Widened(kept); }
  }

  lemma {:induction false} Widened(s: string)
    ensures |Widen(s)| == 2 * |s|
    ensures forall i: nat | i < |s| :: Widen(s)[2 * i] == s[i] && Widen(s)[2 * i + 1] == NUL
    decreases s
  {
    if s != "" {
      Widened(s[1..]);
      forall i: nat | i < |s| ensures Widen(s)[2 * i] == s[i] && Widen(s)[2 * i + 1] == NUL {
        if i > 0 {
          assert Widen(s)[2 * i] == Widen(s[1..])[2 * (i - 1)] && Widen(s)[2 * i + 1] == Widen(s[1..])[2 * (i - 1) + 1];
        }
      }
    }
  }

  lemma HoldsFrame(m: string, n: string, b: AppBuffer, d: Datum)
    requires |m| == |n| && HoldsCell(m, b, d)
    requires forall at | 0 <= at < |m| && InSlot(b, at) :: m[at] == n[at]
    ensures HoldsCell(n, b, d)
  {
    hide Text, ReadNumber, CStr, LittleEndian, Kept;
  }

  // ---- The layout of the bound arrays. ----

  /** The bytes of the data array and of the indicator array for `n` elements. */
  predicate InDataArray(b: AppBuffer, byteOffset: nat, n: nat, at: int) {
    b.data.Some? && b.data.value + byteOffset <= at < b.data.value + byteOffset + ElementSize(b) * n
  }

  predicate InLenArray(b: AppBuffer, byteOffset: nat, n: nat, at: int) {
    b.reslen.Some? && b.reslen.value + byteOffset <= at < b.reslen.value + byteOffset + LEN_SIZE * n
  }

  predicate InArrays(b: AppBuffer, byteOffset: nat, n: nat, at: int) {
    InDataArray(b, byteOffset, n, at) || InLenArray(b, byteOffset, n, at)
  }

  /** The arrays of one column lie in memory and do not overlap each other. */
  predicate ArraysFit(b: AppBuffer, byteOffset: nat, n: nat, size: nat) {
    && !b.kind.DefaultType? && !b.kind.Interval?
    && (b.data.Some? ==> b.data.value + byteOffset + ElementSize(b) * n <= size)
    && (b.reslen.Some? ==> b.reslen.value + byteOffset + LEN_SIZE * n <= size)
    && (b.data.Some? && b.reslen.Some? ==>
          || b.data.value + ElementSize(b) * n <= b.reslen.value
          || b.reslen.value + LEN_SIZE * n <= b.data.value)
  }

  /** What the application promises when it binds columns for `n` rows. */
  ghost predicate Layout(bindings: Bindings, byteOffset: nat, n: nat, size: nat) {
    && (forall k | k in bindings :: ArraysFit(bindings[k], byteOffset, n, size))
    && (forall k, l, at | k in bindings && l in bindings && k != l ::
          !(InArrays(bindings[k], byteOffset, n, at) && InArrays(bindings[l], byteOffset, n, at)))
  }

  lemma Mul(a: nat, i: nat, n: nat)
    requires i < n
    ensures a * i + a <= a * n
  {
    Distribute(a, i, n - i);
    Distribute(a, n - i - 1, 1);
  }

  lemma Distribute(a: nat, i: nat, j: nat)
    ensures a * (i + j) == a * i + a * j && a * i >= 0
  {
  }

  /** Element `i` of `n` lies inside the arrays. */
  lemma SlotInArrays(b: AppBuffer, byteOffset: nat, n: nat, size: nat, i: nat)
    requires ArraysFit(b, byteOffset, n, size) && i < n
    ensures Fits(At(b, byteOffset, i), size) && Apart(At(b, byteOffset, i))
    ensures forall at | InData(At(b, byteOffset, i), at) :: InDataArray(b, byteOffset, n, at)
    ensures forall at | InLen(At(b, byteOffset, i), at) :: InLenArray(b, byteOffset, n, at)
  {
    Mul(ElementSize(b), i, n);
    Mul(LEN_SIZE, i, n);
  }

  /** Slots of different elements of one column do not overlap. */
  lemma ElementsApart(b: AppBuffer, byteOffset: nat, n: nat, size: nat, i: nat, j: nat, at: int)
    requires ArraysFit(b, byteOffset, n, size) && i < n && j < n && i != j
    ensures !(InSlot(At(b, byteOffset, i), at) && InSlot(At(b, byteOffset, j), at))
  {
    hide ArraysFit;
    SlotInArrays(b, byteOffset, n, size, i);
    SlotInArrays(b, byteOffset, n, size, j);
    ArraysApart(b, byteOffset, n, size, at);
    var first, second := if i < j then i else j, if i < j then j else i;
    Mul(ElementSize(b), first, second);
    Mul(LEN_SIZE, first, second);
  }

  lemma ArraysApart(b: AppBuffer, byteOffset: nat, n: nat, size: nat, at: int)
    requires ArraysFit(b, byteOffset, n, size)
    ensures !(InDataArray(b, byteOffset, n, at) && InLenArray(b, byteOffset, n, at))
    ensures Extent(b) == ElementSize(b)
  {
  }

  /**
   Which column types support arrays at all: the elements of a bound array stay apart exactly when the type has
   an element size. A buffer of the default type or of an interval type has stride 0, so its rows overwrite each
   other.
   */
  lemma StrideIff(b: AppBuffer, byteOffset: nat)
    requires b.data.Some? && Extent(b) > 0
    ensures (forall i: nat, j: nat, at: int | i != j ::
               !(InData(At(b, byteOffset, i), at) && InData(At(b, byteOffset, j), at)))
       <==> ElementSize(b) > 0
    ensures ElementSize(b) == 0 <==> b.kind.DefaultType? || b.kind.Interval?
  {
    if ElementSize(b) == 0 {
      var at := b.data.value + byteOffset;
      assert InData(At(b, byteOffset, 0), at) && InData(At(b, byteOffset, 1), at);
    } else {
      forall i: nat, j: nat, at: int | i != j
        ensures !(InData(At(b, byteOffset, i), at) && InData(At(b, byteOffset, j), at))
      {
        Mul(ElementSize(b), if i < j then i else j, if i < j then j else i);
      }
    }
  }

  // ---- The length indicator. ----

  function Indicator(m: string, b: AppBuffer): string
    requires Fits(b, |m|) && b.reslen.Some?
  {
    m[LenAt(b)..LenAt(b) + LEN_SIZE]
  }

  /**
   A null is not reported through the indicator: it is left alone or gets the length of what was put, which is
   never SQL_NULL_DATA.
   */
  lemma NullIndicator(m: string, b: AppBuffer)
    requires Fits(b, |m|) && Apart(b) && b.reslen.Some?
    ensures |ReadCell(m, b, Null).0| == |m|
    ensures var before, after := Indicator(m, b), Indicator(ReadCell(m, b, Null).0, b);
      if Width(b.kind) > 0 then after == LittleEndian(Width(b.kind), LEN_SIZE)
      else if b.kind.Interval? || b.data.None? || b.buflen < CharSize(b.kind) then after == before
      else after == LittleEndian(Bytes(b.kind, Kept(b, "-")), LEN_SIZE)
    ensures Indicator(ReadCell(m, b, Null).0, b) == LittleEndian(SQL_NULL_DATA, LEN_SIZE) ==>
      Indicator(ReadCell(m, b, Null).0, b) == Indicator(m, b)
  {
    hide ReadNumber, LittleEndian, TextImage, CStr, Store;
    NotNullData(Width(b.kind));
    if Width(b.kind) > 0 {
      StoreHolds(m, b, LittleEndian(ReadNumber("-"), Width(b.kind)), Width(b.kind));
    } else if !b.kind.Interval? && b.data.Some? && b.buflen >= CharSize(b.kind) {
      DashLength(b);
      NotNullData(Bytes(b.kind, Kept(b, "-")));
      StoreHolds(m, b, TextImage(b, "-"), Bytes(b.kind, Kept(b, "-")));
    }
  }

  lemma NotNullData(len: nat)
    requires len < 255
    ensures LittleEndian(len, LEN_SIZE) != LittleEndian(SQL_NULL_DATA, LEN_SIZE)
  {
    assert LittleEndian(len, LEN_SIZE)[0] == ByteOf(len, 0);
    assert LittleEndian(SQL_NULL_DATA, LEN_SIZE)[0] == ByteOf(SQL_NULL_DATA, 0);
  }

  lemma DashLength(b: AppBuffer)
    requires b.buflen >= CharSize(b.kind)
    ensures Bytes(b.kind, Kept(b, "-")) <= 2
  {
    CStrIs("-", 1);
  }

  // ---- Reading a number back. ----

  function Pow256(k: nat): (p: nat)
    ensures p > 0
  {
    if k == 0 then 1 else 256 * Pow256(k - 1)
  }

  function Unsigned(s: string): nat {
    if s == "" then 0 else s[0] as nat + 256 * Unsigned(s[1..])
  }

  /** The stored bytes are the number modulo the size of its type. */
  lemma {:induction false} NumberReadsBack(v: int, width: nat)
    ensures Unsigned(LittleEndian(v, width)) == v % Pow256(width)
    decreases width
  {
    if width > 0 {
      var rest := LittleEndian(v / 256, width - 1);
      assert LittleEndian(v, width)[1..] == rest by {
        forall i | 0 <= i < width - 1 ensures LittleEndian(v, width)[1..][i] == rest[i] {
          assert ByteOf(v, i + 1) == ByteOf(v / 256, i);
        }
      }
      NumberReadsBack(v / 256, width - 1);
      ModSplit(v, Pow256(width - 1));
    }
  }

  lemma ModSplit(v: int, p: nat)
    requires p > 0
    ensures v % (256 * p) == v % 256 + 256 * ((v / 256) % p)
  {
    var q, r := (v / 256) / p, v % 256 + 256 * ((v / 256) % p);
    assert v / 256 == q * p + (v / 256) % p;
    assert v == 256 * (v / 256) + v % 256;
    assert v == q * (256 * p) + r;
    assert 0 <= r < 256 * p;
    ModUnique(v, 256 * p, q, r);
  }

  lemma ModUnique(v: int, m: nat, q: int, r: nat)
    requires r < m && v == q * m + r
    ensures v % m == r
  {
    var d := v / m - q;
    assert v == (v / m) * m + v % m;
    assert d * m == r - v % m;
    OnlyZero(d, m);
  }

  lemma OnlyZero(d: int, m: nat)
    requires 0 < d * m + m && d * m < m
    ensures d == 0
  {
    if d > 0 { Distribute(m, d - 1, 1); }
    if d < 0 { Distribute(m, -d - 1, 1); }
  }
}
