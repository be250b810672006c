/** What a limited output file holds in the end. */
module LimitedOutput {
  import opened FileDescriptor

  /** printf's %llu. */
  function Decimal(n: nat): (text: string)
    ensures text != []
  {
    var digit := [('0' as int + n % 10) as char];
    if n < 10 then digit else Decimal(n / 10) + digit
  }

  /** Reads a decimal number back. */
  function Parse(text: string): int {
    if text == [] then 0
    else 10 * Parse(text[..|text| - 1]) + (text[|text| - 1] as int - '0' as int)
  }

  const RULE := "####################" + "####################" + "###################\n"

  /** The message between the two parts of a truncated output, up to the number of lost bytes. */
  function NoticeHead(total: nat, first: nat, last: nat): string {
    BEFORE_TOTAL + Decimal(total) + BEFORE_FIRST + Decimal(first) + BEFORE_LAST + Decimal(last) + BEFORE_LOST
  }

  const BEFORE_TOTAL := "\n" + RULE + "# A total of "
  const BEFORE_FIRST := " bytes were output " + "by the program.\n" + "# This exceeds the " + "hard limit that is "
                        + "enforced.\n" + "# Only the "
  const BEFORE_LAST := " first bytes are " + "saved in this file " + "before\n" + "# this point and " + "only the "
  const BEFORE_LOST := " last bytes are " + "saved after\n" + "# this point. " + "A total of "
  const NOTICE_TAIL := " bytes are lost.\n" + RULE

  function Notice(total: nat, first: nat, last: nat, lost: nat): string {
    NoticeHead(total, first, last) + Decimal(lost) + NOTICE_TAIL
  }

  /** The number of digits at the end of a text. */
  function DigitsAtEnd(text: string): (n: nat)
    ensures n <= |text|
  {
    if text == [] || !IsDigit(text[|text| - 1]) then 0 else 1 + DigitsAtEnd(text[..|text| - 1])
  }

  /** What a reader of the notice takes for the number of lost bytes: the digits before its last words. */
  function LostAccordingTo(notice: string): int
    requires |notice| >= |NOTICE_TAIL|
  {
    var front := notice[..|notice| - |NOTICE_TAIL|];
    Parse(front[|front| - DigitsAtEnd(front)..])
  }

  predicate IsDigit(c: char) { '0' <= c <= '9' }

  /** All numbers in a text, in order: its runs of digits. */
  function Numbers(text: string): seq<int> {
    if text == [] then []
    else
      var k := DigitsAtEnd(text);
      if k == 0 then Numbers(text[..|text| - 1])
      else Numbers(text[..|text| - k]) + [Parse(text[|text| - k..])]
  }

  predicate IsPlain(text: string) {
    forall c :: c in text ==> !IsDigit(c)
  }

  /** A stream that is kept whole: within the limit, or not longer than the part that is passed on as it comes. */
  predicate IsShort(length: nat, A: nat, M: nat) {
    length <= M || length <= A
  }

  /** The first A and the last M - A bytes around a message, or the whole stream when it is short enough. */
  function Kept(stream: seq<Byte>, A: nat, M: nat, msg: seq<Byte>): seq<Byte>
    requires A < M || |stream| <= A
  {
    if IsShort(|stream|, A, M) then stream else stream[..A] + msg + stream[|stream| - (M - A)..]
  }

  /** The file a limit of A first bytes and M bytes in all leaves of a program's output. */
  function Limited(stream: seq<Byte>, A: nat, M: nat): seq<Byte>
    requires A < M || |stream| <= A
  {
    Kept(stream, A, M, if IsShort(|stream|, A, M) then "" else Notice(|stream|, A, M - A, |stream| - M))
  }

  /** What the limits promise of the file, whatever the words of the message: a stream of at most M bytes, or of at
      most A, is there whole; of any other the first A and the last M - A bytes, and between them a message from which
      one reads the length of the stream, the sizes of the two parts and the number of bytes in neither, in this
      order. */
  ghost predicate IsLimited(file: seq<Byte>, stream: seq<Byte>, A: nat, M: nat)
    requires A < M || |stream| <= A
  {
    if |stream| <= M || |stream| <= A then file == stream
    else
      exists msg ::
        && file == stream[..A] + msg + stream[|stream| - (M - A)..]
        && Numbers(msg) == [|stream|, A, M - A, |stream| - M]
  }

  lemma LimitedKeepsPromise(stream: seq<Byte>, A: nat, M: nat)
    requires A < M || |stream| <= A
    ensures IsLimited(Limited(stream, A, M), stream, A, M)
  {
    hide Numbers, Notice;
    if !IsShort(|stream|, A, M) {
      NoticeGivesNumbers(|stream|, A, M - A, |stream| - M);
    }
  }

  lemma {:induction false} DecimalRoundTrip(n: nat)
    ensures Parse(Decimal(n)) == n
  {
    if n >= 10 {
      DecimalRoundTrip(n / 10);
      var text := Decimal(n);
      assert text[..|text| - 1] == Decimal(n / 10);
    }
  }

  lemma {:induction false} DigitsOfDecimal(text: string, n: nat)
    requires text != [] && !IsDigit(text[|text| - 1])
    ensures DigitsAtEnd(text + Decimal(n)) == |Decimal(n)|
  {
    var all := text + Decimal(n);
    if n < 10 {
      assert all[..|all| - 1] == text;
    } else {
      DigitsOfDecimal(text, n / 10);
      assert all[..|all| - 1] == text + Decimal(n / 10);
    }
  }

  /** The number in the notice reads back. */
  lemma NoticeReadsBack(total: nat, first: nat, last: nat, lost: nat)
    ensures |Notice(total, first, last, lost)| >= |NOTICE_TAIL|
    ensures LostAccordingTo(Notice(total, first, last, lost)) == lost
  {
    hide Decimal, Parse, DigitsAtEnd;
    var head, digits := NoticeHead(total, first, last), Decimal(lost);
    var notice, front := Notice(total, first, last, lost), head + digits;
    HeadEndsInSpace(total, first, last);
    assert notice[..|notice| - |NOTICE_TAIL|] == front;
    DigitsOfDecimal(head, lost);
    assert front[|front| - |digits|..] == digits;
    DecimalRoundTrip(lost);
  }

  lemma HeadEndsInSpace(total: nat, first: nat, last: nat)
    ensures NoticeHead(total, first, last) != []
    ensures NoticeHead(total, first, last)[|NoticeHead(total, first, last)| - 1] == ' '
  {}

  lemma {:induction false} PlainAddsNoNumber(text: string, plain: string)
    requires IsPlain(plain)
    ensures Numbers(text + plain) == Numbers(text)
  {
    if plain == [] {
      assert text + plain == text;
    } else {
      var all, shorter := text + plain, plain[..|plain| - 1];
      PlainAddsNoNumber(text, shorter);
      assert !IsDigit(plain[|plain| - 1]) && DigitsAtEnd(all) == 0;
      assert all[..|all| - 1] == text + shorter;
    }
  }

  lemma DecimalAddsItsNumber(text: string, n: nat)
    requires text != [] && !IsDigit(text[|text| - 1])
    ensures Numbers(text + Decimal(n)) == Numbers(text) + [n]
  {
    hide Decimal, Parse, DigitsAtEnd;
    var all, digits := text + Decimal(n), Decimal(n);
    DigitsOfDecimal(text, n);
    DecimalRoundTrip(n);
    assert all[..|all| - |digits|] == text && all[|all| - |digits|..] == digits;
  }

  lemma FirstNumber(plain: string, n: nat)
    requires IsPlain(plain) && plain != []
    ensures Numbers(plain + Decimal(n)) == [n]
  {
    assert "" + plain == plain;
    NextNumber("", plain, n);
  }

  /** Some more text without digits and a number. */
  lemma NextNumber(text: string, plain: string, n: nat)
    requires IsPlain(plain) && plain != []
    ensures Numbers(text + plain + Decimal(n)) == Numbers(text) + [n]
  {
    hide Decimal, Numbers;
    PlainAddsNoNumber(text, plain);
    assert !IsDigit(plain[|plain| - 1]);
    DecimalAddsItsNumber(text + plain, n);
  }

  lemma NotInBeforeFirst(digit: char)
    requires IsDigit(digit)
    ensures digit !in BEFORE_FIRST
  {}

  lemma NotInBeforeLast(digit: char)
    requires IsDigit(digit)
    ensures digit !in BEFORE_LAST && digit !in BEFORE_LOST
  {}

  lemma NotInOtherWords(digit: char)
    requires IsDigit(digit)
    ensures digit !in BEFORE_TOTAL && digit !in NOTICE_TAIL
  {
    assert digit !in RULE;
  }

  lemma WordsArePlain()
    ensures IsPlain(BEFORE_TOTAL) && IsPlain(BEFORE_FIRST) && IsPlain(BEFORE_LAST) && IsPlain(BEFORE_LOST)
    ensures IsPlain(NOTICE_TAIL)
  {
    hide IsDigit;
    forall c | IsDigit(c)
      ensures c !in BEFORE_TOTAL && c !in BEFORE_LAST && c !in BEFORE_LOST && c !in NOTICE_TAIL && c !in BEFORE_FIRST
    {
      NotInBeforeFirst(c);
      NotInBeforeLast(c);
      NotInOtherWords(c);
    }
  }

  /** The notice gives four numbers. */
  lemma NoticeGivesNumbers(total: nat, first: nat, last: nat, lost: nat)
    ensures Numbers(Notice(total, first, last, lost)) == [total, first, last, lost]
  {
    hide Decimal, Numbers, IsPlain;
    WordsArePlain();
    var one := BEFORE_TOTAL + Decimal(total);
    var two := one + BEFORE_FIRST + Decimal(first);
    var three := two + BEFORE_LAST + Decimal(last);
    var four := three + BEFORE_LOST + Decimal(lost);
    FirstNumber(BEFORE_TOTAL, total);
    NextNumber(one, BEFORE_FIRST, first);
    NextNumber(two, BEFORE_LAST, last);
    NextNumber(three, BEFORE_LOST, lost);
    PlainAddsNoNumber(four, NOTICE_TAIL);
  }

  function Pow10(k: nat): nat { if k == 0 then 1 else 10 * Pow10(k - 1) }

  lemma {:induction false} DecimalLength(n: nat, k: nat)
    requires k > 0 && n < Pow10(k)
    ensures |Decimal(n)| <= k
  {
    if n >= 10 {
      assert Pow10(k) == 10 * Pow10(k - 1);
      DecimalLength(n / 10, k - 1);
    }
  }

  lemma NoticeLength(total: nat, first: nat, last: nat, lost: nat)
    ensures |Notice(total, first, last, lost)|
            == 367 + |Decimal(total)| + |Decimal(first)| + |Decimal(last)| + |Decimal(lost)|
  {}

  lemma LongestNumber()
    ensures Pow10(20) == 100_000_000_000_000_000_000
  {
    assert Pow10(5) == 100_000;
    assert Pow10(10) == 100_000 * Pow10(5);
    assert Pow10(15) == 100_000 * Pow10(10);
    assert Pow10(20) == 100_000 * Pow10(15);
  }

  /** Nothing unaccounted for: the two parts kept and the count in the notice make up the whole stream,
      the number that stands in the notice is the number of bytes in neither part,
      and the text fits the 512-byte buffer it is formatted into. */
  lemma NoticeAccountsForEveryByte(stream: seq<Byte>, A: nat, M: nat)
    requires A < M < |stream| < 0x1_0000_0000_0000_0000
    ensures |Notice(|stream|, A, M - A, |stream| - M)| >= |NOTICE_TAIL|
    ensures LostAccordingTo(Notice(|stream|, A, M - A, |stream| - M)) == |stream[A..|stream| - (M - A)]|
    ensures stream == stream[..A] + stream[A..|stream| - (M - A)] + stream[|stream| - (M - A)..]
    ensures |Notice(|stream|, A, M - A, |stream| - M)| < 512
  {
    hide Notice, LostAccordingTo;
    NoticeReadsBack(|stream|, A, M - A, |stream| - M);
    LongestNumber();
    DecimalLength(|stream|, 20);
    DecimalLength(A, 20);
    DecimalLength(M - A, 20);
    DecimalLength(|stream| - M, 20);
    NoticeLength(|stream|, A, M - A, |stream| - M);
  }
}

/** The filter that limits the size of the solver's output file. */
module OutputFilter {
  import opened Arithmetic
  import opened FileDescriptor
  import opened Ring
  import opened LimitedOutput

  const TWO64: nat := 0x1_0000_0000_0000_0000

  /** maxSize - activateSize on unsigned long long. */
  function RingSize(A: nat, M: nat): nat {
    (M - A) % TWO64
  }

  lemma RingSizeIs(A: nat, M: nat)
    requires A < M < TWO64
    ensures RingSize(A, M) == M - A
  {
    QuotientRemainder(M - A, 0, M - A, TWO64);
  }

  /** Bytes that one turn of the copy loop copies. */
  function ChunkLength(len: nat, w: nat, size: nat): nat
    requires w <= size
  {
    if len > size - w then size - w else len
  }

  predicate IsPosition(w: nat, size: nat) {
    w < size || w == size == 0
  }

  /** Bytes still to copy, and the write position, after k turns that start at position w. */
  function TurnsOf(len: nat, w: nat, size: nat, k: nat): (state: (nat, nat))
    requires IsPosition(w, size)
    ensures IsPosition(state.1, size)
    decreases k
  {
    if k == 0 then (len, w)
    else
      var (left, at) := TurnsOf(len, w, size, k - 1);
      var n := ChunkLength(left, at, size);
      (left - n, Advance(at, n, size))
  }

  ghost predicate CopyEnds(len: nat, w: nat, size: nat)
    requires IsPosition(w, size)
  {
    exists k: nat :: TurnsOf(len, w, size, k).0 == 0
  }

  /** Copying ends, for every length and from every position, exactly when the ring is not empty. */
  lemma CopyEndsIffRingNotEmpty(size: nat)
    ensures (forall len: nat, w: nat :: IsPosition(w, size) ==> CopyEnds(len, w, size)) <==> size > 0
  {
    if size > 0 {
      forall len: nat, w: nat | IsPosition(w, size) ensures CopyEnds(len, w, size) {
        LeftShrinks(len, w, size, len);
        assert TurnsOf(len, w, size, len).0 == 0;
      }
    } else {
      EmptyRingNeverEnds(1);
      assert IsPosition(0, 0);
    }
  }

  lemma EmptyRingNeverEnds(len: nat)
    requires len > 0
    ensures !CopyEnds(len, 0, 0)
  {
    forall k: nat ensures TurnsOf(len, 0, 0, k).0 == len {
      EmptyRingStalls(len, k);
    }
  }

  lemma {:induction false} LeftShrinks(len: nat, w: nat, size: nat, k: nat)
    requires 0 < size && w < size
    ensures TurnsOf(len, w, size, k).0 <= if k <= len then len - k else 0
  {
    if k > 0 { LeftShrinks(len, w, size, k - 1); }
  }

  lemma {:induction false} EmptyRingStalls(len: nat, k: nat)
    ensures TurnsOf(len, 0, 0, k).0 == len
  {
    if k > 0 { EmptyRingStalls(len, k - 1); }
  }

  /** Whether a stream of this length comes out right: the ring has at most 2^32 bytes, or at most 2^32 come to it. */
  predicate Exact(length: nat, A: nat, M: nat) {
    M - A <= TWO32 || length <= A + TWO32
  }

  lemma ShortIsKept(stream: seq<Byte>, A: nat, M: nat, msg: seq<Byte>)
    requires |stream| <= A
    ensures Kept(stream, A, M, msg) == stream
  {}

  /** The two parts around the message are what the limit keeps. */
  lemma PartsAreKept(stream: seq<Byte>, A: nat, M: nat, msg: seq<Byte>)
    requires A < M && A <= |stream|
    ensures stream[..A] + (if |stream| <= M then "" else msg) + Latest(stream[A..], M - A) == Kept(stream, A, M, msg)
  {
    if |stream| <= M {
      assert stream[..A] + "" == stream[..A];
      assert stream[..A] + stream[A..] == stream;
    } else {
      assert stream[A..][|stream[A..]| - (M - A)..] == stream[|stream| - (M - A)..];
    }
  }

  lemma Regroup(a: seq<Byte>, b: seq<Byte>, c: seq<Byte>)
    ensures a + b + c == a + (b + c)
  {}

  class CircularBufferFilter {
    var total: nat // length of the stream so far
    const activateSize: nat
    const maxSize: nat
    const bufferSize: nat
    var data: array?<Byte> // the ring; null until the stream has passed activateSize
    var w: nat // slot of the next byte
    const fd: Descriptor

    ghost var stream: seq<Byte> // everything sent to this filter

    /** The part of the stream that has been passed on. */
    ghost function Direct(): seq<Byte>
      reads this
    {
      if |stream| <= activateSize then stream else stream[..activateSize]
    }

    ghost predicate Valid()
      reads this, fd, data
    {
      && fd.Valid()
      && activateSize < TWO64 && maxSize < TWO64
      && bufferSize == RingSize(activateSize, maxSize)
      && total == |stream|
      && fd.requested == Direct()
      && (data == null ==> total < activateSize || total == 0)
      && (data != null ==>
            && total >= activateSize && activateSize < maxSize
            && data.Length == bufferSize
            && Holds(data[..], w, stream[activateSize..]))
    }

    constructor (fd: Descriptor, activateSize: nat, maxSize: nat)
      requires fd.Valid() && fd.requested == []
      requires activateSize < TWO64 && maxSize < TWO64
      ensures Valid() && stream == [] && data == null
      ensures this.fd == fd && this.activateSize == activateSize && this.maxSize == maxSize
    {
      this.fd := fd;
      this.activateSize := activateSize;
      this.maxSize := maxSize;
      bufferSize := RingSize(activateSize, maxSize);
      total := 0;
      data := null;
      w := 0;
      stream := [];
    }

    /** Copies a chunk into the circular buffer, wrapping as often as needed. */
    method Copy(chunk: seq<Byte>, ghost past: seq<Byte>)
      requires data != null && data.Length == bufferSize
      requires Holds(data[..], w, past)
      modifies `w, data
      ensures Holds(data[..], w, past + chunk)
    {
      var len: nat := |chunk|;
      var r: nat := 0;
      var more := true;
      assert past + chunk[..0] == past;
      while more
        invariant len + r == |chunk| && (more || len == 0)
        invariant data == old(data)
        invariant Holds(data[..], w, past + chunk[..r])
        decreases len, more
      {
        PositionIsInside(data[..], w, past + chunk[..r]);
        var n := ChunkLength(len, w, bufferSize);
        ghost var before, at := data[..], w;
        forall i | 0 <= i < n { data[w + i] := chunk[r + i]; }
        CopyExtends(before, at, past + chunk[..r], chunk[r..r + n], data[..]);
        assert past + chunk[..r] + chunk[r..r + n] == past + chunk[..r + n];
        len := len - n;
        r := r + n;
        w := Advance(w, n, bufferSize);
        more := len > 0;
      }
      assert chunk[..r] == chunk;
    }

    /** Passes on the first activateSize bytes of the stream and keeps the last ones in the circular buffer.
        With activateSize >= maxSize the stream must not reach the ring, which would be empty or larger than memory. */
    method Write(buffer: seq<Byte>)
      requires Valid()
      requires |buffer| < TWO31 && |stream| + |buffer| < TWO64
      requires activateSize < maxSize || |stream| + |buffer| < activateSize
      modifies this, fd, data
      ensures Valid()
      ensures stream == old(stream) + buffer
      ensures data != old(data) ==> old(data) == null && fresh(data)
    {
      hide Holds, Descriptor.Valid, RingSize;
      ghost var before := stream;
      total := total + |buffer|;
      stream := stream + buffer;
      if total < activateSize {
        fd.SystemWrite(buffer);
      } else {
        RingSizeIs(activateSize, maxSize);
        ghost var past := if |before| <= activateSize then [] else before[activateSize..];
        if data == null {
          data := new Byte[bufferSize];
          w := 0;
          EmptyRing(data[..]);
          assert past == [];
        } else {
          assert past == before[activateSize..];
        }
        assert Holds(data[..], w, past);
        var rest := buffer;
        if total - |buffer| < activateSize {
          // what is missing of the first part bypasses the ring
          var n := activateSize - (total - |buffer|);
          fd.SystemWrite(buffer[..n]);
          rest := buffer[n..];
          assert before + buffer[..n] == stream[..activateSize];
        }
        Copy(rest, past);
        assert past + rest == stream[activateSize..];
      }
    }

    /** What the ring holds, behind the message if bytes are lost. */
    method FlushWith(msg: seq<Byte>)
      requires Valid()
      modifies fd
      ensures fd.Valid()
      ensures data != null ==> w < data.Length
      ensures activateSize < maxSize || |stream| <= activateSize
      ensures data != null ==> fd.requested == stream[..activateSize] + (if total <= maxSize then "" else msg)
                                               + Flushed(data[..], w, total - activateSize)
      ensures Exact(|stream|, activateSize, maxSize) ==> fd.requested == Kept(stream, activateSize, maxSize, msg)
    {
      hide Holds, Kept, Latest, Descriptor.Valid, RingSize;
      if data == null {
        ShortIsKept(stream, activateSize, maxSize, msg);
        return;
      }
      ghost var first, past := stream[..activateSize], stream[activateSize..];
      RingSizeIs(activateSize, maxSize);
      Unroll(data[..], w, past);
      PartsAreKept(stream, activateSize, maxSize, msg);
      if total <= maxSize {
        fd.SystemWrite(data[..total - activateSize]);
        assert first + "" == first;
      } else {
        ghost var front, back := data[..w], data[w..];
        fd.SystemWrite(msg);
        fd.SystemWrite(data[w..]);
        fd.SystemWrite(data[..w]);
        Regroup(first + msg, back, front);
      }
    }

    /** Called once, by the destructor. */
    method Flush()
      requires Valid()
      modifies fd
      ensures fd.Valid()
      ensures activateSize < maxSize || |stream| <= activateSize
      ensures Exact(|stream|, activateSize, maxSize)
              ==> && fd.requested == Limited(stream, activateSize, maxSize)
                  && IsLimited(fd.requested, stream, activateSize, maxSize)
    {
      hide Notice, IsLimited, Descriptor.Valid, RingSize;
      if data != null { RingSizeIs(activateSize, maxSize); }
      var msg := if total <= maxSize then "" else Notice(total, activateSize, bufferSize, total - maxSize);
      FlushWith(msg);
      LimitedKeepsPromise(stream, activateSize, maxSize);
    }
  }

  function Flatten(chunks: seq<seq<Byte>>): seq<Byte> {
    if chunks == [] then [] else Flatten(chunks[..|chunks| - 1]) + chunks[|chunks| - 1]
  }

  lemma {:induction false} FlattenGrows(chunks: seq<seq<Byte>>, i: nat)
    requires i <= |chunks|
    ensures |Flatten(chunks[..i])| <= |Flatten(chunks)|
  {
    if i < |chunks| {
      FlattenGrows(chunks[..|chunks| - 1], i);
      assert chunks[..|chunks| - 1][..i] == chunks[..i];
    } else {
      assert chunks[..i] == chunks;
    }
  }

  /** A whole life of the filter. The file depends on the concatenation of the chunks only, not on how it was cut.
      With hard errors among the calls made, it is right up to the end of the first request that met one,
      and from there on it lacks some bytes. */
  method Filter(kernel: nat -> Outcome, ghost budget: nat, activateSize: nat, maxSize: nat, chunks: seq<seq<Byte>>)
      returns (file: seq<Byte>, calls: nat, ghost trace: seq<Request>)
    requires Fair(kernel, budget)
    requires activateSize < TWO64 && maxSize < TWO64
    requires activateSize < maxSize || |Flatten(chunks)| < activateSize
    requires forall c :: c in chunks ==> |c| < TWO31
    requires |Flatten(chunks)| < TWO64
    ensures IsTrace(kernel, trace) && calls == End(trace) && file == Sent(kernel, trace)
    ensures Exact(|Flatten(chunks)|, activateSize, maxSize)
            ==> && Asked(trace) == Limited(Flatten(chunks), activateSize, maxSize)
                && Sound(file, Limited(Flatten(chunks), activateSize, maxSize), SoundLength(kernel, trace))
                && IsLimited(Asked(trace), Flatten(chunks), activateSize, maxSize)
                && (Clean(kernel, calls) ==> file == Limited(Flatten(chunks), activateSize, maxSize)
                                             && IsLimited(file, Flatten(chunks), activateSize, maxSize))
  {
    hide Subsequence, Limited, IsLimited, SoundLength, IsTrace, Sent, Asked, End, Sound, Exact, Clean,
      CircularBufferFilter.Valid;
    var fd := new Descriptor(kernel, budget);
    var filter := new CircularBufferFilter(fd, activateSize, maxSize);
    for i := 0 to |chunks|
      invariant filter.Valid() && filter.fd == fd && (filter.data == null || fresh(filter.data))
      invariant fresh(fd) && fresh(filter)
      invariant filter.activateSize == activateSize && filter.maxSize == maxSize
      invariant filter.stream == Flatten(chunks[..i])
    {
      assert chunks[..i + 1][..i] == chunks[..i];
      FlattenGrows(chunks, i + 1);
      filter.Write(chunks[i]);
    }
    assert chunks[..|chunks|] == chunks;
    filter.Flush();
    file, calls, trace := fd.written, fd.calls, fd.trace;
    assert fd.kernel == kernel;
    TraceIsSound(kernel, trace);
  }
}
