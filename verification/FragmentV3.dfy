/** Cutting a datagram into fragments and putting it together again. */
module FragmentV3 {
  import opened Words
  import opened FramingV3

  datatype FragmentResult =
    | OK | BAD_ARGUMENT | BAD_LENGTH | TOO_MANY_FRAGMENTS | OUTPUT_TOO_SMALL | METADATA_MISMATCH | DUPLICATE

  datatype Fragment = Fragment(header: DataHeader, payload: Bytes)

  type Lengths = l: seq<byte> | |l| == 12 witness Zeros(12)

  /** The reassembly state; the output buffer it points at is passed beside it. */
  datatype Reassembly = Reassembly(datagramId: uint16, datagramLength: uint16, fragmentCount: byte,
                                   receivedBitmap: Bitmap, fragmentLengths: Lengths, outputCapacity: uint16,
                                   bytesReceived: uint16, active: bool)

  function FirstBits(n: nat): (bits: Bitmap)
    requires n <= 16
    ensures forall k :: k in bits <==> 0 <= k < n
  {
    if n == 0 then {} else FirstBits(n - 1) + {n - 1}
  }

  function FragmentExpectedBitmap(count: byte): (bits: Bitmap)
    ensures forall k :: k in bits <==> 0 <= k < count <= V3_MAX_FRAGS
  {
    if count == 0 || count > V3_MAX_FRAGS then {} else FirstBits(count)
  }

  // ---- geometry of one datagram ----

  predicate Datagram(d: Bytes) {
    0 < |d| <= V3_MAX_DATAGRAM
  }

  function Count(d: Bytes): byte
    requires |d| <= 0xFFFF
  {
    ExpectedFragmentCount(|d|)
  }

  function All(d: Bytes): Bitmap
    requires |d| <= 0xFFFF
  {
    FragmentExpectedBitmap(Count(d))
  }

  lemma Geometry(length: uint16, k: byte)
    requires 0 < length <= V3_MAX_DATAGRAM
    ensures var n := ExpectedFragmentCount(length);
            1 <= n <= V3_MAX_FRAGS && 115 * (n - 1) < length <= 115 * n
    ensures var n := ExpectedFragmentCount(length);
            k < n ==>
              var len := ExpectedFragmentPayloadLen(length, k, n);
              && 1 <= len == Min(V3_FRAGMENT_PAYLOAD_MAX, length - FragmentOffset(k))
              && FragmentOffset(k) + len <= length
  {}

  /** The k-th piece of a datagram. */
  function Slice(d: Bytes, k: nat): (s: Bytes)
    requires Datagram(d) && k < Count(d)
    ensures |s| == ExpectedFragmentPayloadLen(|d|, k, Count(d))
  {
    Geometry(|d|, k);
    d[FragmentOffset(k)..FragmentOffset(k) + ExpectedFragmentPayloadLen(|d|, k, Count(d))]
  }

  function HeaderOf(d: Bytes, id: uint16, flags: byte, hint: byte, k: nat): DataHeader
    requires Datagram(d) && k < Count(d)
  {
    Geometry(|d|, k);
    DataHeader(flags, hint, id, k, Count(d), |d|, ExpectedFragmentPayloadLen(|d|, k, Count(d)))
  }

  function DescribeDatagram(d: Bytes, id: uint16, flags: byte, hint: byte): Result<seq<Fragment>, FragmentResult>
    requires |d| <= 0xFFFF
  {
    if |d| == 0 || |d| > V3_MAX_DATAGRAM then Failure(FragmentResult.BAD_LENGTH)
    else if flags > V3_MAX_NIBBLE || hint > V3_MAX_NIBBLE then Failure(BAD_ARGUMENT)
    else Success(seq(Count(d), k requires 0 <= k < Count(d) => Fragment(HeaderOf(d, id, flags, hint, k), Slice(d, k))))
  }

  /** The loop of the source, with its running offset, visits exactly the pieces k * 115. A datagram that can
      be described is refused exactly when it has more pieces than the caller has room for. */
  method Describe(d: Bytes, id: uint16, flags: byte, hint: byte, capacity: byte)
    returns (r: Result<seq<Fragment>, FragmentResult>)
    requires |d| <= 0xFFFF
    ensures r == if DescribeDatagram(d, id, flags, hint).Success? && capacity < ExpectedFragmentCount(|d|)
                 then Failure(FragmentResult.OUTPUT_TOO_SMALL)
                 else DescribeDatagram(d, id, flags, hint)
    ensures r.Success? ==> forall k :: 0 <= k < |r.value| ==> ValidateDataHeader(r.value[k].header)
  {
    if |d| == 0 || |d| > V3_MAX_DATAGRAM {
      return Failure(FragmentResult.BAD_LENGTH);
    }
    if flags > V3_MAX_NIBBLE || hint > V3_MAX_NIBBLE {
      return Failure(BAD_ARGUMENT);
    }
    var needed := ExpectedFragmentCount(|d|);
    Geometry(|d|, 0);
    if needed == 0 || needed > V3_MAX_FRAGS {
      return Failure(TOO_MANY_FRAGMENTS);
    }
    if capacity < needed {
      return Failure(FragmentResult.OUTPUT_TOO_SMALL);
    }
    var fragments: seq<Fragment> := [];
    var offset: uint16 := 0;
    for i := 0 to needed
      invariant |fragments| == i
      invariant offset == if i < needed then FragmentOffset(i) else |d|
      invariant forall k :: 0 <= k < i ==> fragments[k] == Fragment(HeaderOf(d, id, flags, hint, k), Slice(d, k))
      invariant forall k :: 0 <= k < i ==> ValidateDataHeader(fragments[k].header)
    {
      Geometry(|d|, i);
      var len := ExpectedFragmentPayloadLen(|d|, i, needed);
      var header := DataHeader(flags, hint, id, i, needed, |d|, len);
      if !ValidateDataHeader(header) {
        return Failure(FragmentResult.BAD_LENGTH);
      }
      fragments := fragments + [Fragment(header, d[offset..offset + len])];
      offset := offset + len;
    }
    r := Success(fragments);
    assert r.value == DescribeDatagram(d, id, flags, hint).value;
  }

  // ---- reassembly ----

  function ResetReassembly(capacity: uint16): Reassembly {
    Reassembly(0, 0, 0, {}, Zeros(V3_MAX_FRAGS), capacity, 0, false)
  }

  predicate ReassemblyIsComplete(r: Reassembly) {
    var expected := FragmentExpectedBitmap(r.fragmentCount);
    r.active && expected != {} && expected <= r.receivedBitmap && r.bytesReceived == r.datagramLength
  }

  predicate MetadataMatches(r: Reassembly, h: DataHeader) {
    r.datagramId == h.datagramId && r.datagramLength == h.datagramLength && r.fragmentCount == h.fragmentCount
  }

  datatype Acceptance = Acceptance(state: Reassembly, output: Bytes, result: FragmentResult)

  /** `memcpy(output + at, payload, |payload|)`. */
  function Overwrite(output: Bytes, at: nat, payload: Bytes): (r: Bytes)
    requires at + |payload| <= |output|
    ensures |r| == |output|
  {
    output[..at] + payload + output[at + |payload|..]
  }

  /** Too few payload bytes stand for the null pointer, too short an output for a missing buffer. */
  function AcceptFragment(r: Reassembly, output: Bytes, h: DataHeader, payload: Bytes): (a: Acceptance)
    ensures |a.output| == |output|
  {
    if !ValidateDataHeader(h) then Acceptance(r, output, FragmentResult.BAD_LENGTH)
    else if |payload| != h.payloadLen then Acceptance(r, output, BAD_ARGUMENT)
    else if |output| < r.outputCapacity || r.outputCapacity < h.datagramLength
    then Acceptance(r, output, FragmentResult.OUTPUT_TOO_SMALL)
    else if r.active && !MetadataMatches(r, h) then Acceptance(r, output, METADATA_MISMATCH)
    else
      var s := if r.active then r
               else Reassembly(h.datagramId, h.datagramLength, h.fragmentCount, {}, Zeros(V3_MAX_FRAGS),
                               r.outputCapacity, 0, true);
      var k := h.fragmentIndex;
      if k in s.receivedBitmap then
        if s.fragmentLengths[k] != h.payloadLen then Acceptance(s, output, METADATA_MISMATCH)
        else Acceptance(s, output, DUPLICATE)
      else
        var offset := FragmentOffset(k);
        if offset > h.datagramLength || offset + h.payloadLen > h.datagramLength
           || offset + h.payloadLen > s.outputCapacity
        then Acceptance(s, output, FragmentResult.BAD_LENGTH)
        else
          Acceptance(s.(fragmentLengths := s.fragmentLengths[k := h.payloadLen],
                        receivedBitmap := s.receivedBitmap + {k},
                        bytesReceived := (s.bytesReceived + h.payloadLen) % 0x1_0000),
                     Overwrite(output, offset, payload), OK)
  }

  // ---- what the state always says ----

  /** The bytes carried by those of the first n fragments that are in `bits`. */
  function BytesOf(bits: Bitmap, length: uint16, n: nat): nat
    requires n <= ExpectedFragmentCount(length)
  {
    if n == 0 then 0
    else BytesOf(bits, length, n - 1)
         + (if n - 1 in bits then ExpectedFragmentPayloadLen(length, n - 1, ExpectedFragmentCount(length)) else 0)
  }

  predicate Consistent(r: Reassembly) {
    if !r.active then r == ResetReassembly(r.outputCapacity)
       else
         && 0 < r.datagramLength <= V3_MAX_DATAGRAM
         && r.fragmentCount == ExpectedFragmentCount(r.datagramLength)
         && r.receivedBitmap <= FragmentExpectedBitmap(r.fragmentCount)
         && (forall k :: k in r.receivedBitmap ==>
               r.fragmentLengths[k] == ExpectedFragmentPayloadLen(r.datagramLength, k, r.fragmentCount))
         && r.bytesReceived == BytesOf(r.receivedBitmap, r.datagramLength, r.fragmentCount)
  }

  lemma {:induction false} BytesOfUnchanged(a: Bitmap, b: Bitmap, length: uint16, n: nat)
    requires n <= ExpectedFragmentCount(length)
    requires forall k :: 0 <= k < n ==> (k in a <==> k in b)
    ensures BytesOf(a, length, n) == BytesOf(b, length, n)
  {
    if n > 0 {
      BytesOfUnchanged(a, b, length, n - 1);
    }
  }

  lemma {:induction false} BytesOfInsert(bits: Bitmap, k: nat, length: uint16, n: nat)
    requires k !in bits && k < n <= ExpectedFragmentCount(length)
    requires k < 16
    ensures BytesOf(bits + {k}, length, n) ==
            BytesOf(bits, length, n) + ExpectedFragmentPayloadLen(length, k, ExpectedFragmentCount(length))
  {
    hide ExpectedFragmentPayloadLen, ExpectedFragmentCount;
    if n == k + 1 {
      BytesOfUnchanged(bits, bits + {k}, length, k);
    } else {
      BytesOfInsert(bits, k, length, n - 1);
    }
  }

  lemma {:induction false} BytesOfPrefix(bits: Bitmap, length: uint16, n: nat)
    requires 0 < length <= V3_MAX_DATAGRAM && n <= ExpectedFragmentCount(length)
    ensures BytesOf(bits, length, n) <= Min(115 * n, length)
    ensures (forall k :: 0 <= k < n ==> k in bits) <==>
            BytesOf(bits, length, n) == Min(115 * n, length)
  {
    if n > 0 {
      Geometry(length, n - 1);
      BytesOfPrefix(bits, length, n - 1);
    }
  }

  /** The state is complete exactly when every bit is set: the byte count never disagrees. */
  lemma CompleteExactlyWhenAllReceived(r: Reassembly)
    requires Consistent(r)
    ensures ReassemblyIsComplete(r) <==> r.active && r.receivedBitmap == FragmentExpectedBitmap(r.fragmentCount)
  {
    if r.active {
      Geometry(r.datagramLength, 0);
      BytesOfPrefix(r.receivedBitmap, r.datagramLength, r.fragmentCount);
    }
  }

  /** A valid header with its payload that agrees with the state. */
  predicate Fits(r: Reassembly, h: DataHeader, payload: Bytes) {
    ValidateDataHeader(h) && |payload| == h.payloadLen && (r.active ==> MetadataMatches(r, h))
  }

  lemma AcceptNewResult(r: Reassembly, output: Bytes, h: DataHeader, payload: Bytes, a: Acceptance)
    requires r.outputCapacity == V3_MAX_DATAGRAM <= |output|
    requires !r.active ==> r == ResetReassembly(r.outputCapacity)
    requires Fits(r, h, payload) && h.fragmentIndex !in r.receivedBitmap
    requires r.bytesReceived + h.payloadLen < 0x1_0000
    requires a == AcceptFragment(r, output, h, payload)
    ensures a.result == OK
    ensures a.state == Reassembly(h.datagramId, h.datagramLength, h.fragmentCount,
                                  r.receivedBitmap + {h.fragmentIndex},
                                  r.fragmentLengths[h.fragmentIndex := h.payloadLen], r.outputCapacity,
                                  r.bytesReceived + h.payloadLen, true)
    ensures FragmentOffset(h.fragmentIndex) + |payload| <= |output|
    ensures a.output == Overwrite(output, FragmentOffset(h.fragmentIndex), payload)
  {
    Geometry(h.datagramLength, h.fragmentIndex);
    hide ExpectedFragmentPayloadLen, ExpectedFragmentCount;
  }

  lemma AcceptNew(r: Reassembly, output: Bytes, h: DataHeader, payload: Bytes, a: Acceptance)
    requires Consistent(r) && r.outputCapacity == V3_MAX_DATAGRAM <= |output|
    requires Fits(r, h, payload) && h.fragmentIndex !in r.receivedBitmap
    requires a == AcceptFragment(r, output, h, payload)
    ensures a.result == OK && Consistent(a.state)
    ensures a.state == Reassembly(h.datagramId, h.datagramLength, h.fragmentCount,
                                  r.receivedBitmap + {h.fragmentIndex}, a.state.fragmentLengths, r.outputCapacity,
                                  a.state.bytesReceived, true)
    ensures a.state.bytesReceived == r.bytesReceived + h.payloadLen
    ensures FragmentOffset(h.fragmentIndex) + |payload| <= |output|
    ensures a.output == Overwrite(output, FragmentOffset(h.fragmentIndex), payload)
  {
    NewFragment(r.receivedBitmap, h);
    hide ExpectedFragmentPayloadLen, ExpectedFragmentCount, BytesOf, AcceptFragment;
    AcceptNewResult(r, output, h, payload, a);
  }

  lemma AcceptOther(r: Reassembly, output: Bytes, h: DataHeader, payload: Bytes, a: Acceptance)
    requires Consistent(r) && r.outputCapacity == V3_MAX_DATAGRAM <= |output|
    requires !Fits(r, h, payload) || h.fragmentIndex in r.receivedBitmap
    requires a == AcceptFragment(r, output, h, payload)
    ensures a.result != OK && a.state == r && a.output == output
    ensures a.result == DUPLICATE <==> Fits(r, h, payload)
  {
    hide ExpectedFragmentPayloadLen, ExpectedFragmentCount, BytesOf;
  }

  /** Any header and payload at all keep the state consistent, and only OK moves it. */
  lemma AcceptKeepsConsistent(r: Reassembly, output: Bytes, h: DataHeader, payload: Bytes, a: Acceptance)
    requires Consistent(r) && r.outputCapacity == V3_MAX_DATAGRAM <= |output|
    requires a == AcceptFragment(r, output, h, payload)
    ensures Consistent(a.state) && a.state.outputCapacity == r.outputCapacity
    ensures Fits(r, h, payload) ==> a.result == if h.fragmentIndex in r.receivedBitmap then DUPLICATE else OK
    ensures !Fits(r, h, payload) ==> a.result != OK && a.result != DUPLICATE
    ensures a.result != OK ==> a.state == r && a.output == output
    ensures a.result == OK ==> a.state.active && a.state.receivedBitmap == r.receivedBitmap + {h.fragmentIndex}
                               && MetadataMatches(a.state, h)
  {
    hide AcceptFragment, Consistent, Fits;
    if Fits(r, h, payload) && h.fragmentIndex !in r.receivedBitmap {
      AcceptNew(r, output, h, payload, a);
    } else {
      AcceptOther(r, output, h, payload, a);
    }
  }

  lemma NewFragment(bits: Bitmap, h: DataHeader)
    requires ValidateDataHeader(h) && h.fragmentIndex !in bits
    ensures BytesOf(bits + {h.fragmentIndex}, h.datagramLength, h.fragmentCount)
            == BytesOf(bits, h.datagramLength, h.fragmentCount) + h.payloadLen <= h.datagramLength
    ensures BytesOf({}, h.datagramLength, h.fragmentCount) == 0
  {
    BytesOfPrefix(bits + {h.fragmentIndex}, h.datagramLength, h.fragmentCount);
    BytesOfInsert(bits, h.fragmentIndex, h.datagramLength, h.fragmentCount);
    BytesOfNone(h.datagramLength, h.fragmentCount);
  }

  lemma {:induction false} BytesOfNone(length: uint16, n: nat)
    requires n <= ExpectedFragmentCount(length)
    ensures BytesOf({}, length, n) == 0
  {
    if n > 0 {
      BytesOfNone(length, n - 1);
    }
  }

  // ---- whose bytes they are ----

  /** A genuine fragment of datagram d under the given id, whatever its flags and queue hint. */
  predicate FragmentOf(h: DataHeader, payload: Bytes, id: uint16, d: Bytes) {
    && Datagram(d) && ValidateDataHeader(h)
    && h.datagramId == id && h.datagramLength == |d|
    && payload == Slice(d, h.fragmentIndex)
  }

  ghost predicate Assembles(r: Reassembly, output: Bytes, id: uint16, d: Bytes) {
    && Consistent(r) && r.active && Datagram(d)
    && r.datagramId == id && r.datagramLength == |d| && r.outputCapacity == V3_MAX_DATAGRAM == |output|
    && forall k :: k in r.receivedBitmap ==> Placed(output, d, k)
  }

  ghost predicate Placed(output: Bytes, d: Bytes, k: nat)
    requires Datagram(d) && |output| == V3_MAX_DATAGRAM
  {
    k < Count(d) && forall i: nat :: i < |Slice(d, k)| ==> BytePlaced(output, d, k, i)
  }

  ghost predicate BytePlaced(output: Bytes, d: Bytes, k: nat, i: nat)
    requires Datagram(d) && k < Count(d) && i < |Slice(d, k)|
  {
    FragmentOffset(k) + i < |output| && output[FragmentOffset(k) + i] == Slice(d, k)[i]
  }

  lemma OverwriteIndex(output: Bytes, at: nat, payload: Bytes, i: nat)
    requires at + |payload| <= |output| && i < |output|
    ensures Overwrite(output, at, payload)[i] ==
            if at <= i < at + |payload| then payload[i - at] else output[i]
  {}

  lemma PlacedByOverwrite(output: Bytes, d: Bytes, k: nat, at: nat, j: nat)
    requires Datagram(d) && |output| == V3_MAX_DATAGRAM && k < Count(d) && at == FragmentOffset(k)
    requires j == k || Placed(output, d, j)
    ensures at + |Slice(d, k)| <= |d|
    ensures Placed(Overwrite(output, at, Slice(d, k)), d, j)
  {
    Geometry(|d|, k);
    Geometry(|d|, j);
    var o := Overwrite(output, at, Slice(d, k));
    forall i: nat | i < |Slice(d, j)| ensures BytePlaced(o, d, j, i) {
      assert j != k ==> BytePlaced(output, d, j, i);
      OverwriteIndex(output, at, Slice(d, k), FragmentOffset(j) + i);
    }
  }

  lemma GenuineFits(r: Reassembly, output: Bytes, h: DataHeader, payload: Bytes, id: uint16, d: Bytes)
    requires FragmentOf(h, payload, id, d) && |output| == V3_MAX_DATAGRAM
    requires r == ResetReassembly(V3_MAX_DATAGRAM) || Assembles(r, output, id, d)
    ensures Fits(r, h, payload) && h.fragmentIndex < Count(d) && Consistent(r)
  {
    hide Placed;
  }

  /** A genuine fragment adds its bit and its bytes and disturbs no other. */
  lemma AcceptAssembles(r: Reassembly, output: Bytes, h: DataHeader, payload: Bytes, id: uint16, d: Bytes)
    requires FragmentOf(h, payload, id, d) && |output| == V3_MAX_DATAGRAM
    requires r == ResetReassembly(V3_MAX_DATAGRAM) || Assembles(r, output, id, d)
    ensures var a := AcceptFragment(r, output, h, payload);
            && Assembles(a.state, a.output, id, d)
            && a.state.receivedBitmap == r.receivedBitmap + {h.fragmentIndex}
            && (a.result == if h.fragmentIndex in r.receivedBitmap then DUPLICATE else OK)
  {
    var a := AcceptFragment(r, output, h, payload);
    hide AcceptFragment, ValidateDataHeader, Consistent, Placed;
    var k := h.fragmentIndex;
    assert Consistent(r) && Fits(r, h, payload) && k < Count(d) by { GenuineFits(r, output, h, payload, id, d); }
    if k in r.receivedBitmap {
      AcceptOther(r, output, h, payload, a);
    } else {
      AcceptNew(r, output, h, payload, a);
      forall j | j in a.state.receivedBitmap ensures Placed(a.output, d, j) {
        PlacedByOverwrite(output, d, k, FragmentOffset(k), j);
      }
    }
  }

  lemma PieceHolds(d: Bytes, i: nat)
    requires Datagram(d) && i < |d|
    ensures var k := i / 115;
            && k < Count(d) && i - FragmentOffset(k) < |Slice(d, k)|
            && Slice(d, k)[i - FragmentOffset(k)] == d[i]
  {
    Geometry(|d|, i / 115);
  }

  /** A complete reassembly of genuine fragments is the datagram. */
  lemma CompleteIsDatagram(r: Reassembly, output: Bytes, id: uint16, d: Bytes)
    requires Assembles(r, output, id, d) && ReassemblyIsComplete(r)
    ensures output[..|d|] == d && r.receivedBitmap == All(d)
  {
    CompleteExactlyWhenAllReceived(r);
    hide ReassemblyIsComplete, Slice;
    forall i | 0 <= i < |d| ensures output[i] == d[i] {
      PieceHolds(d, i);
      var k := i / 115;
      Geometry(|d|, 0);
      hide ExpectedFragmentCount;
      assert k in r.receivedBitmap;
      assert Placed(output, d, k) && BytePlaced(output, d, k, i - FragmentOffset(k));
    }
  }

  // ---- any order, any repeats ----

  function Feed(r: Reassembly, output: Bytes, fragments: seq<Fragment>): (a: Acceptance)
    ensures |a.output| == |output|
  {
    if |fragments| == 0 then Acceptance(r, output, OK)
    else
      var last := |fragments| - 1;
      var before := Feed(r, output, fragments[..last]);
      AcceptFragment(before.state, before.output, fragments[last].header, fragments[last].payload)
  }

  function Indexes(fragments: seq<Fragment>): set<nat> {
    set i | 0 <= i < |fragments| :: fragments[i].header.fragmentIndex
  }

  /** Genuine fragments fed in any order with any repeats leave the set of their indexes, and the
      datagram itself once every index has been seen. */
  lemma {:induction false} ReassemblyIsOrderBlind(output: Bytes, fragments: seq<Fragment>, id: uint16, d: Bytes)
    requires Datagram(d) && |output| == V3_MAX_DATAGRAM && |fragments| > 0
    requires forall i :: 0 <= i < |fragments| ==> FragmentOf(fragments[i].header, fragments[i].payload, id, d)
    ensures var a := Feed(ResetReassembly(V3_MAX_DATAGRAM), output, fragments);
            && a.state.active && a.state.receivedBitmap == Indexes(fragments)
            && a.state.bytesReceived == BytesOf(a.state.receivedBitmap, |d|, Count(d))
            && (ReassemblyIsComplete(a.state) <==> Indexes(fragments) == All(d))
            && (ReassemblyIsComplete(a.state) ==> a.output[..|d|] == d)
  {
    FeedAssembles(output, fragments, id, d);
    var a := Feed(ResetReassembly(V3_MAX_DATAGRAM), output, fragments);
    CompleteExactlyWhenAllReceived(a.state);
    if ReassemblyIsComplete(a.state) {
      CompleteIsDatagram(a.state, a.output, id, d);
    }
  }

  lemma {:induction false} FeedAssembles(output: Bytes, fragments: seq<Fragment>, id: uint16, d: Bytes)
    requires Datagram(d) && |output| == V3_MAX_DATAGRAM && |fragments| > 0
    requires forall i :: 0 <= i < |fragments| ==> FragmentOf(fragments[i].header, fragments[i].payload, id, d)
    ensures var a := Feed(ResetReassembly(V3_MAX_DATAGRAM), output, fragments);
            Assembles(a.state, a.output, id, d) && a.state.receivedBitmap == Indexes(fragments)
  {
    hide Assembles, AcceptFragment, FragmentOf;
    var last := |fragments| - 1;
    var start := fragments[..last];
    var before := Feed(ResetReassembly(V3_MAX_DATAGRAM), output, start);
    if last > 0 {
      FeedAssembles(output, start, id, d);
    } else {
      assert before == Acceptance(ResetReassembly(V3_MAX_DATAGRAM), output, OK);
    }
    AcceptAssembles(before.state, before.output, fragments[last].header, fragments[last].payload, id, d);
    assert Indexes(fragments) == Indexes(start) + {fragments[last].header.fragmentIndex} by {
      IndexesAppend(fragments);
    }
  }

  lemma IndexesAppend(fragments: seq<Fragment>)
    requires |fragments| > 0
    ensures var last := |fragments| - 1;
            Indexes(fragments) == Indexes(fragments[..last]) + {fragments[last].header.fragmentIndex}
  {
    var last := |fragments| - 1;
    assert forall i :: 0 <= i < last ==> fragments[..last][i] == fragments[i];
    forall x | x in Indexes(fragments) ensures x in Indexes(fragments[..last]) + {fragments[last].header.fragmentIndex} {
      var i :| 0 <= i < |fragments| && fragments[i].header.fragmentIndex == x;
      if i < last {
        assert fragments[..last][i].header.fragmentIndex == x;
      }
    }
    forall x | x in Indexes(fragments[..last]) ensures x in Indexes(fragments) {
      var i :| 0 <= i < last && fragments[..last][i].header.fragmentIndex == x;
      assert fragments[i].header.fragmentIndex == x;
    }
  }

  /** The reassembly state with the buffer it writes, updated in place. */
  class Reassembler {
    var state: Reassembly
    const output: array<byte>

    ghost predicate Valid()
      reads this
    {
      state.outputCapacity <= output.Length
    }

    constructor (buffer: array<byte>, capacity: uint16)
      requires capacity <= buffer.Length
      ensures Valid() && output == buffer && state == ResetReassembly(capacity)
    {
      state := ResetReassembly(capacity);
      output := buffer;
    }

    method Accept(h: DataHeader, payload: Bytes) returns (result: FragmentResult)
      requires Valid()
      modifies this, output
      ensures Valid()
      ensures Acceptance(state, output[..], result) == AcceptFragment(old(state), old(output[..]), h, payload)
    {
      if !ValidateDataHeader(h) {
        return FragmentResult.BAD_LENGTH;
      }
      if |payload| != h.payloadLen {
        return BAD_ARGUMENT;
      }
      if state.outputCapacity < h.datagramLength {
        return FragmentResult.OUTPUT_TOO_SMALL;
      }
      if !state.active {
        state := Reassembly(h.datagramId, h.datagramLength, h.fragmentCount, {}, Zeros(V3_MAX_FRAGS),
                            state.outputCapacity, 0, true);
      } else if !MetadataMatches(state, h) {
        return METADATA_MISMATCH;
      }
      var k := h.fragmentIndex;
      if k in state.receivedBitmap {
        return if state.fragmentLengths[k] != h.payloadLen then METADATA_MISMATCH else DUPLICATE;
      }
      var offset := FragmentOffset(k);
      if offset > h.datagramLength || offset + h.payloadLen > h.datagramLength
         || offset + h.payloadLen > state.outputCapacity {
        return FragmentResult.BAD_LENGTH;
      }
      forall i | 0 <= i < |payload| {
        output[offset + i] := payload[i];
      }
      state := state.(fragmentLengths := state.fragmentLengths[k := h.payloadLen],
                      receivedBitmap := state.receivedBitmap + {k},
                      bytesReceived := (state.bytesReceived + h.payloadLen) % 0x1_0000);
      assert output[..] == Overwrite(old(output[..]), offset, payload);
      return OK;
    }
  }
}
