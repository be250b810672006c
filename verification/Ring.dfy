/** The ring of the last bytes, seen on values: where byte number j goes and how the ring is unrolled. */
module Ring {
  import opened Arithmetic
  import opened FileDescriptor

  const TWO31: nat := 0x8000_0000
  const TWO32: nat := 0x1_0000_0000

  /** The unsigned 32-bit write position after n bytes were copied at position w of a ring of `size` bytes. */
  function Advance(w: nat, n: nat, size: nat): nat {
    var next := (w + n) % TWO32;
    if next >= size then 0 else next
  }

  /** Where the position starts over: at the end of the ring, or at 2^32 if the ring is larger. */
  function Wrap(size: nat): nat {
    if size <= TWO32 then size else TWO32
  }

  /** The position after copies of these lengths, one memcpy each. */
  function PositionAfter(lengths: seq<nat>, size: nat): nat {
    if lengths == [] then 0
    else Advance(PositionAfter(lengths[..|lengths| - 1], size), lengths[|lengths| - 1], size)
  }

  function Sum(lengths: seq<nat>): nat {
    if lengths == [] then 0 else Sum(lengths[..|lengths| - 1]) + lengths[|lengths| - 1]
  }

  /** Lengths that the copy loop can choose: within an int, and never past the end of the ring. */
  ghost predicate Fits(lengths: seq<nat>, size: nat) {
    lengths == []
    || (var front, last := lengths[..|lengths| - 1], lengths[|lengths| - 1];
        Fits(front, size) && last < TWO31 && PositionAfter(front, size) + last <= size)
  }

  /** However the bytes were cut into copies, the position is their number modulo the wrap. */
  lemma {:induction false} PositionWraps(lengths: seq<nat>, size: nat)
    requires size > 0 && Fits(lengths, size)
    ensures PositionAfter(lengths, size) == Sum(lengths) % Wrap(size)
  {
    if lengths == [] {
      QuotientRemainder(0, 0, 0, Wrap(size));
    } else {
      var front := lengths[..|lengths| - 1];
      PositionWraps(front, size);
      AdvanceIsModulo(Sum(front), size, lengths[|lengths| - 1]);
    }
  }

  lemma OneMoreCopy(front: seq<nat>, last: nat, size: nat)
    ensures PositionAfter(front + [last], size) == Advance(PositionAfter(front, size), last, size)
    ensures Sum(front + [last]) == Sum(front) + last
    ensures Fits(front + [last], size)
        <==> Fits(front, size) && last < TWO31 && PositionAfter(front, size) + last <= size
  {
    assert (front + [last])[..|front|] == front;
  }

  /** The position is the byte count modulo the ring size exactly for rings of at most 2^32 bytes:
      in a larger one the position wraps at 2^32, before the ring is full. */
  lemma PositionIsModulo(size: nat)
    requires size > 0
    ensures (forall lengths :: Fits(lengths, size) ==> PositionAfter(lengths, size) == Sum(lengths) % size)
        <==> size <= TWO32
  {
    if size <= TWO32 {
      forall lengths | Fits(lengths, size) ensures PositionAfter(lengths, size) == Sum(lengths) % size {
        PositionWraps(lengths, size);
      }
    } else {
      var a, b := TWO31 - 1, 2;
      OneMoreCopy([], a, size);
      OneMoreCopy([] + [a], a, size);
      OneMoreCopy([] + [a] + [a], b, size);
      var lengths := [] + [a] + [a] + [b];
      assert Fits(lengths, size) && Sum(lengths) == TWO32 && PositionAfter(lengths, size) == 0;
      QuotientRemainder(TWO32, 0, TWO32, size);
    }
  }

  /** Copying n bytes without passing the end of the ring moves the position to its new modulus. */
  lemma AdvanceIsModulo(total: nat, size: nat, n: nat)
    requires 0 < size && total % Wrap(size) + n <= size
    ensures Advance(total % Wrap(size), n, size) == (total + n) % Wrap(size)
  {
    hide Advance;
    if size > TWO32 {
      AdvanceInLargeRing(total, size, n);
    } else {
      AdvanceInRing(total, size, n);
    }
  }

  lemma AdvanceInRing(total: nat, size: nat, n: nat)
    requires 0 < size <= TWO32 && total % size + n <= size
    ensures Advance(total % size, n, size) == (total + n) % size
  {
    var q, w := total / size, total % size;
    if w + n == size {
      QuotientRemainder(total + n, q + 1, 0, size);
    } else {
      QuotientRemainder(total + n, q, w + n, size);
    }
  }

  lemma AdvanceInLargeRing(total: nat, size: nat, n: nat)
    requires size > TWO32
    ensures Advance(total % TWO32, n, size) == (total + n) % TWO32
  {
    assert total + n == total / TWO32 * TWO32 + (total % TWO32 + n);
    MultiplesDoNotMatter(total / TWO32, TWO32, total % TWO32 + n);
  }

  lemma MultiplesDoNotMatter(q: int, m: int, x: int)
    requires m > 0
    ensures (q * m + x) % m == x % m
  {
    var q', r := x / m, x % m;
    assert (q + q') * m == q * m + q' * m;
    QuotientRemainder(q * m + x, q + q', r, m);
  }

  /** Byte number j of `past` is in the slot j mod |data|. */
  ghost predicate InPlace(data: seq<Byte>, past: seq<Byte>, j: int) {
    0 <= j < |past| && |data| > 0 && data[j % |data|] == past[j]
  }

  /** What a ring of `size` bytes gets right: everything if the position wraps at its end, else the first 2^32 bytes. */
  predicate Faithful(size: nat, count: nat) {
    size <= TWO32 || count <= TWO32
  }

  /** w is where the next byte goes; as far as the ring is faithful, `data` holds the last |data| bytes of `past`
      (or all of them), byte number j at j mod |data|. */
  ghost predicate Holds(data: seq<Byte>, w: nat, past: seq<Byte>) {
    && |data| > 0
    && w == |past| % Wrap(|data|)
    && (Faithful(|data|, |past|) ==> forall j :: 0 <= j < |past| && |past| - j <= |data| ==> InPlace(data, past, j))
  }

  lemma EmptyRing(data: seq<Byte>)
    requires |data| > 0
    ensures Holds(data, 0, [])
  {
    QuotientRemainder(0, 0, 0, Wrap(|data|));
  }

  /** Where byte number j sits in a ring of `size` bytes, relative to the position after `total` bytes. */
  lemma Slot(total: nat, size: nat, j: nat)
    requires size > 0 && j < total + size - total % size && total < j + size + 1
    ensures var w := total % size;
            j % size == if j >= total then w + (j - total)
                        else if j >= total - w then w - (total - j)
                        else size + w - (total - j)
  {
    var q, w := total / size, total % size;
    if j >= total {
      QuotientRemainder(j, q, w + (j - total), size);
    } else if j >= total - w {
      QuotientRemainder(j, q, w - (total - j), size);
    } else {
      QuotientRemainder(j, q - 1, size + w - (total - j), size);
    }
  }

  /** data' is data with the chunk copied at position w. */
  ghost predicate Copied(data: seq<Byte>, w: nat, chunk: seq<Byte>, data': seq<Byte>) {
    && |data'| == |data|
    && w + |chunk| <= |data|
    && forall i :: 0 <= i < |data| ==> data'[i] == if w <= i < w + |chunk| then chunk[i - w] else data[i]
  }

  /** One memcpy of the copy loop. */
  lemma CopyExtends(data: seq<Byte>, w: nat, past: seq<Byte>, chunk: seq<Byte>, data': seq<Byte>)
    requires Holds(data, w, past) && Copied(data, w, chunk, data')
    ensures Holds(data', Advance(w, |chunk|, |data|), past + chunk)
  {
    var size, all := |data|, past + chunk;
    AdvanceIsModulo(|past|, size, |chunk|);
    if Faithful(size, |all|) {
      forall j | 0 <= j < |all| && |all| - j <= size ensures InPlace(data', all, j) {
        assert j < |past| ==> InPlace(data, past, j);
        if size <= TWO32 {
          Slot(|past|, size, j);
        } else {
          QuotientRemainder(j, 0, j, size);
          if |past| < TWO32 { QuotientRemainder(|past|, 0, |past|, TWO32); }
        }
      }
    }
  }

  /** What flush writes of the ring when `count` bytes were put into it. */
  function Flushed(data: seq<Byte>, w: nat, count: nat): seq<Byte>
    requires w <= |data|
  {
    if count <= |data| then data[..count] else data[w..] + data[..w]
  }

  /** The last `size` bytes, or all of them. */
  function Latest(past: seq<Byte>, size: nat): seq<Byte> {
    if |past| <= size then past else past[|past| - size..]
  }

  lemma PositionIsInside(data: seq<Byte>, w: nat, past: seq<Byte>)
    requires Holds(data, w, past)
    ensures w < |data|
  {}

  /** Reading the ring from w round to w gives the last |data| bytes. */
  lemma Unroll(data: seq<Byte>, w: nat, past: seq<Byte>)
    requires Holds(data, w, past)
    ensures w < |data|
    ensures Faithful(|data|, |past|) ==> Flushed(data, w, |past|) == Latest(past, |data|)
  {
    var size := |data|;
    if Faithful(size, |past|) {
      if |past| > size {
        var read := data[w..] + data[..w];
        forall i | 0 <= i < size ensures read[i] == past[|past| - size..][i] {
          Slot(|past|, size, |past| - size + i);
          assert InPlace(data, past, |past| - size + i);
        }
      } else {
        forall j | 0 <= j < |past| ensures data[j] == past[j] {
          QuotientRemainder(j, 0, j, size);
          assert InPlace(data, past, j);
        }
      }
    }
  }

  // ---- rings of more than 2^32 bytes ----

  /** The ring after the bytes of `past` have been written one at a time into `empty`. */
  ghost function Filled(empty: seq<Byte>, past: seq<Byte>): (data: seq<Byte>)
    requires |empty| > 0
    ensures |data| == |empty|
  {
    if past == [] then empty
    else
      var front, last := past[..|past| - 1], past[|past| - 1];
      Filled(empty, front)[|front| % Wrap(|empty|) := last]
  }

  lemma {:induction false} FilledHolds(empty: seq<Byte>, past: seq<Byte>)
    requires |empty| > 0
    ensures Holds(Filled(empty, past), |past| % Wrap(|empty|), past)
  {
    if past == [] {
      EmptyRing(empty);
    } else {
      var front, last := past[..|past| - 1], past[|past| - 1];
      FilledHolds(empty, front);
      var w := |front| % Wrap(|empty|);
      CopyExtends(Filled(empty, front), w, front, [last], Filled(empty, past));
      assert front + [last] == past;
      AdvanceIsModulo(|front|, |empty|, 1);
    }
  }

  /** Byte 2^32 of a large ring is never written. */
  lemma {:induction false} NeverWritten(empty: seq<Byte>, past: seq<Byte>)
    requires |empty| > TWO32
    ensures Filled(empty, past)[TWO32] == empty[TWO32]
  {
    if past != [] { NeverWritten(empty, past[..|past| - 1]); }
  }

  /** Byte 0 of a large ring is overwritten by byte number 2^32 of the stream. */
  lemma {:induction false} Overwritten(empty: seq<Byte>, past: seq<Byte>)
    requires |empty| > TWO32 && |past| > TWO32
    requires forall j :: 1 <= j < |past| ==> past[j] == 'a'
    ensures Filled(empty, past)[0] == 'a'
  {
    var front := past[..|past| - 1];
    if |front| > TWO32 {
      Overwritten(empty, front);
    } else {
      assert TWO32 % TWO32 == 0;
    }
  }

  /** What flush writes of n bytes that came one at a time is right, for every content, exactly if the ring has at most
      2^32 bytes or at most 2^32 bytes came. */
  lemma RightIffFaithful(empty: seq<Byte>, n: nat)
    requires |empty| > 0
    ensures (forall past: seq<Byte> :: |past| == n ==> FlushIsRight(empty, past)) <==> Faithful(|empty|, n)
  {
    if Faithful(|empty|, n) {
      forall past: seq<Byte> | |past| == n ensures FlushIsRight(empty, past) {
        FilledHolds(empty, past);
        Unroll(Filled(empty, past), n % Wrap(|empty|), past);
      }
    } else {
      var past := FlushGoesWrong(empty, n);
    }
  }

  ghost predicate FlushIsRight(empty: seq<Byte>, past: seq<Byte>)
    requires |empty| > 0
  {
    FilledHolds(empty, past);
    Flushed(Filled(empty, past), |past| % Wrap(|empty|), |past|) == Latest(past, |empty|)
  }

  lemma FlushGoesWrong(empty: seq<Byte>, n: nat) returns (past: seq<Byte>)
    requires |empty| > 0 && !Faithful(|empty|, n)
    ensures |past| == n && !FlushIsRight(empty, past)
  {
    var size := |empty|;
    if n <= size {
      past := seq(n, j => if j == 0 then 'b' else 'a');
      Overwritten(empty, past);
      assert Flushed(Filled(empty, past), n % TWO32, n)[0] == 'a' && Latest(past, size)[0] == 'b';
    } else {
      var other := if empty[TWO32] == 'a' then 'b' else 'a';
      past := seq(n, j => other);
      NeverWritten(empty, past);
      var w := n % TWO32;
      assert Flushed(Filled(empty, past), w, n)[TWO32 - w] == empty[TWO32] && Latest(past, size)[TWO32 - w] == other;
    }
  }
}
