/** From the option --output-limit A,M to the sizes that the filter is set up with. */
module OutputLimit {
  import opened Arithmetic
  import opened Ring
  import opened OutputFilter

  const MEGABYTE: nat := 0x10_0000

  /** What the option comes to: a syntax error, no limit at all, or the two sizes. */
  datatype Setting = SyntaxError | Unlimited | Sizes(activateSize: nat, maxSize: nat)

  predicate IsInt32(x: int) { -0x8000_0000 <= x < 0x8000_0000 }

  /** Arithmetic on int as the usual compilers do it: it wraps. */
  function Int32(x: int): (r: int)
    ensures IsInt32(r)
  {
    (x + TWO31) % TWO32 - TWO31
  }

  /** The conversion of an int to unsigned long long. */
  function Unsigned64(x: int): nat { x % TWO64 }

  /** x*1024*1024 on int. */
  function Bytes(x: int): int { Int32(Int32(x * 1024) * 1024) }

  /** The option parser, and the test for 0 before the filter is set up. */
  function Parsed(a: int, m: int): Setting {
    if a >= m then SyntaxError
    else if Unsigned64(Bytes(m)) == 0 then Unlimited
    else Sizes(Unsigned64(Bytes(a)), Unsigned64(Bytes(m)))
  }

  /** The number of megabytes that is left of x after the wrap. */
  function Wrapped(x: int): (r: int)
    ensures -2048 <= r < 2048
  {
    (x + 2048) % 4096 - 2048
  }

  lemma Int32Is(x: int, q: int, r: int)
    requires x == q * TWO32 + r && IsInt32(r)
    ensures Int32(x) == r
  {
    QuotientRemainder(x + TWO31, q, r + TWO31, TWO32);
  }

  /** The wrap happens in whole megabytes. */
  lemma BytesWrap(x: int)
    ensures Bytes(x) == Wrapped(x) * MEGABYTE
  {
    var q, r := (x + 0x20_0000) / 0x40_0000, (x + 0x20_0000) % 0x40_0000;
    var y := r - 0x20_0000;
    assert x == q * 0x40_0000 + y;
    Int32Is(x * 1024, q, y * 1024);
    var q', r' := (y + 2048) / 4096, (y + 2048) % 4096;
    assert y == q' * 4096 + (r' - 2048);
    Int32Is(y * 1024 * 1024, q', (r' - 2048) * MEGABYTE);
    QuotientRemainder(x + 2048, q * 1024 + q', r', 4096);
  }

  /** Sizes with which the filter is right for every stream. */
  predicate IsSound(s: Setting) {
    s.Sizes? && s.activateSize < s.maxSize && s.maxSize - s.activateSize <= TWO32
  }

  /** The parser gives the filter such sizes exactly if the two numbers, after the wrap,
      have the same sign and are still in order. */
  lemma SoundIffOrderSurvives(a: int, m: int)
    ensures IsSound(Parsed(a, m)) <==> a < m && Wrapped(a) < Wrapped(m) && (Wrapped(a) < 0 <==> Wrapped(m) < 0)
  {
    BytesWrap(a);
    BytesWrap(m);
    UnsignedIs(Wrapped(a) * MEGABYTE);
    UnsignedIs(Wrapped(m) * MEGABYTE);
  }

  /** A limit that is a multiple of 4096 megabytes is none at all, and this is the only way to have none; the option is
      refused exactly if the numbers are not in order. */
  lemma UnlimitedIffMultiple(a: int, m: int)
    ensures Parsed(a, m).SyntaxError? <==> a >= m
    ensures Parsed(a, m).Unlimited? <==> a < m && m % 4096 == 0
  {
    BytesWrap(m);
    UnsignedIs(Wrapped(m) * MEGABYTE);
    assert Wrapped(m) == 0 <==> m % 4096 == 0;
  }

  lemma UnsignedIs(x: int)
    requires IsInt32(x)
    ensures Unsigned64(x) == if x < 0 then x + TWO64 else x
  {
    if x < 0 {
      QuotientRemainder(x, -1, x + TWO64, TWO64);
    } else {
      QuotientRemainder(x, 0, x, TWO64);
    }
  }

  predicate IsExact(s: Setting, a: int, m: int) {
    s.Sizes? && s.activateSize == a * MEGABYTE && s.maxSize == m * MEGABYTE
  }

  /** The filter gets the sizes asked for exactly below 2 gigabytes, and every stream then comes out right. */
  lemma ExactIffSmall(a: int, m: int)
    requires IsInt32(a) && IsInt32(m)
    ensures IsExact(Parsed(a, m), a, m) <==> 0 <= a < m < 2048
    ensures 0 <= a < m < 2048 ==> IsSound(Parsed(a, m)) && forall n: nat :: Exact(n, a * MEGABYTE, m * MEGABYTE)
  {
    BytesWrap(a);
    BytesWrap(m);
    UnsignedIs(Wrapped(a) * MEGABYTE);
    UnsignedIs(Wrapped(m) * MEGABYTE);
  }

  /** --output-limit 0,6000 gives sound sizes, but 1904 megabytes instead of 6000. */
  lemma OtherSizesHere()
    ensures Parsed(0, 6000) == Sizes(0, 1904 * MEGABYTE) && IsSound(Parsed(0, 6000))
  {
    BytesWrap(0);
    BytesWrap(6000);
    UnsignedIs(0);
    UnsignedIs(1904 * MEGABYTE);
  }

  /** No setting makes the filter ask for a ring of more than 2^32 bytes that memory could hold. */
  lemma RingIsSmallOrHuge(a: int, m: int)
    requires Parsed(a, m).Sizes?
    ensures var p := Parsed(a, m);
            var size := RingSize(p.activateSize, p.maxSize);
            && (size <= TWO32 || size > TWO64 - TWO32)
            && (IsSound(p) ==> 0 < size == p.maxSize - p.activateSize)
  {
    BytesWrap(a);
    BytesWrap(m);
    UnsignedIs(Wrapped(a) * MEGABYTE);
    UnsignedIs(Wrapped(m) * MEGABYTE);
    var d := Parsed(a, m).maxSize - Parsed(a, m).activateSize;
    var q := if d < 0 then -1 else 0;
    QuotientRemainder(d, q, d - q * TWO64, TWO64);
  }

  /** Of the settings that pass the parser, those with an empty ring: the numbers differ by a multiple of 4096.
      The first byte that comes to the ring then keeps the copy loop going for ever. */
  lemma EmptyRingIff(a: int, m: int)
    requires Parsed(a, m).Sizes?
    ensures Parsed(a, m).activateSize == Parsed(a, m).maxSize <==> (m - a) % 4096 == 0
    ensures var size := RingSize(Parsed(a, m).activateSize, Parsed(a, m).maxSize);
            (m - a) % 4096 == 0 ==> size == 0 && !CopyEnds(1, 0, size)
  {
    BytesWrap(a);
    BytesWrap(m);
    UnsignedIs(Wrapped(a) * MEGABYTE);
    UnsignedIs(Wrapped(m) * MEGABYTE);
    SameResidue(a + 2048, m + 2048, 4096);
    EmptyRingNeverEnds(1);
    QuotientRemainder(0, 0, 0, TWO64);
  }

  lemma SameResidue(a: int, b: int, m: int)
    requires m > 0
    ensures a % m == b % m <==> (b - a) % m == 0
  {
    var q, q' := a / m, b / m;
    assert (q' - q) * m == q' * m - q * m;
    if a % m <= b % m {
      QuotientRemainder(b - a, q' - q, b % m - a % m, m);
    } else {
      assert (q' - q - 1) * m == (q' - q) * m - m;
      QuotientRemainder(b - a, q' - q - 1, b % m - a % m + m, m);
    }
  }

  /** --output-limit 1,4097 passes the parser and gives an empty ring. */
  lemma EmptyRingHere()
    ensures Parsed(1, 4097) == Sizes(MEGABYTE, MEGABYTE)
    ensures RingSize(MEGABYTE, MEGABYTE) == 0 && !CopyEnds(1, 0, RingSize(MEGABYTE, MEGABYTE))
  {
    BytesWrap(1);
    BytesWrap(4097);
    UnsignedIs(MEGABYTE);
    EmptyRingIff(1, 4097);
  }
}
