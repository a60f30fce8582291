/** The perf ring-buffer consumer, with the kernel appending records under it. */
module PerfRing {
  import opened Bytes

  const HEADER_BYTES: nat := 8
  const PERF_RECORD_SAMPLE: nat := 9

  // ---------------------------------------------------------------------
  // Records and the byte stream the kernel writes
  // ---------------------------------------------------------------------

  datatype Record = Record(typ: nat, misc: nat, body: seq<byte>) {
    function Size(): nat { HEADER_BYTES + |body| }
  }

  /** What the kernel writes: sizes fit the header and the ring and keep 8-byte alignment. */
  predicate WellFormed(r: Record, n: nat) {
    r.typ < 0x1_0000_0000 && r.misc < 0x1_0000 && r.Size() < 0x1_0000 && r.Size() % 8 == 0 && r.Size() <= n
  }

  function ToLittleEndian(v: nat, width: nat): (b: seq<byte>)
    ensures |b| == width
  {
    if width == 0 then [] else [v % 256] + ToLittleEndian(v / 256, width - 1)
  }

  function Encode(r: Record): (b: seq<byte>)
    ensures |b| == r.Size()
  {
    ToLittleEndian(r.typ, 4) + ToLittleEndian(r.misc, 2) + ToLittleEndian(r.Size(), 2) + r.body
  }

  lemma HeaderRoundTrip(r: Record, n: nat)
    requires WellFormed(r, n)
    ensures FromLittleEndian(Encode(r)[0..4]) == r.typ
    ensures FromLittleEndian(Encode(r)[6..8]) == r.Size()
    ensures Encode(r)[8..] == r.body
  {
    assert Encode(r)[0..4] == ToLittleEndian(r.typ, 4);
    assert Encode(r)[6..8] == ToLittleEndian(r.Size(), 2);
    LittleEndianRoundTrip(r.typ, 4);
    LittleEndianRoundTrip(r.Size(), 2);
    assert Pow256(4) == 0x1_0000_0000 && Pow256(2) == 0x1_0000 by {
      assert Pow256(1) == 256 * Pow256(0) && Pow256(2) == 256 * Pow256(1);
      assert Pow256(3) == 256 * Pow256(2) && Pow256(4) == 256 * Pow256(3);
    }
  }

  function Pow256(w: nat): nat { if w == 0 then 1 else 256 * Pow256(w - 1) }

  lemma {:induction false} LittleEndianRoundTrip(v: nat, width: nat)
    requires v < Pow256(width)
    ensures FromLittleEndian(ToLittleEndian(v, width)) == v
    decreases width
  {
    if width > 0 {
      LittleEndianRoundTrip(v / 256, width - 1);
      assert ToLittleEndian(v, width)[1..] == ToLittleEndian(v / 256, width - 1);
    }
  }

  ghost function Stream(rs: seq<Record>): seq<byte> {
    if rs == [] then [] else Stream(rs[..|rs| - 1]) + Encode(rs[|rs| - 1])
  }

  /** The payloads a reader of the whole stream hands to the decoder, oldest first. */
  ghost function Payloads(rs: seq<Record>): seq<seq<byte>> {
    if rs == [] then []
    else Payloads(rs[..|rs| - 1]) + PayloadOf(rs[|rs| - 1])
  }

  ghost function PayloadOf(r: Record): seq<seq<byte>> {
    if r.typ == PERF_RECORD_SAMPLE && r.Size() > HEADER_BYTES then [r.body] else []
  }

  /** The records that the decoder is to see: samples, by the type number of the perf ABI, with
      something in them. */
  predicate IsSample(r: Record) {
    r.typ == 9 && r.body != []
  }

  /** The indices of the samples among the records, in order. */
  ghost predicate SampleIndices(rs: seq<Record>, index: seq<nat>) {
    && (forall k | 0 <= k < |index| :: index[k] < |rs| && IsSample(rs[index[k]]))
    && (forall j, k | 0 <= j < k < |index| :: index[j] < index[k])
    && (forall i: nat | i < |rs| && IsSample(rs[i]) :: i in index)
  }

  /** The bodies of the samples among the records, each once, in order. */
  ghost predicate AreSamples(decoded: seq<seq<byte>>, rs: seq<Record>) {
    exists index: seq<nat> :: SampleIndices(rs, index) && |index| == |decoded|
      && forall k | 0 <= k < |index| :: index[k] < |rs| && decoded[k] == rs[index[k]].body
  }

  lemma MoreSamples(rs: seq<Record>, r: Record, index: seq<nat>)
    requires SampleIndices(rs, index)
    ensures SampleIndices(rs + [r], if IsSample(r) then index + [|rs|] else index)
  {
    var all := rs + [r];
    var more := if IsSample(r) then index + [|rs|] else index;
    forall k | 0 <= k < |more| ensures more[k] < |all| && IsSample(all[more[k]]) {
      assert k < |index| ==> all[index[k]] == rs[index[k]];
    }
    forall i: nat | i < |all| && IsSample(all[i]) ensures i in more {
      if i < |rs| {
        assert all[i] == rs[i] && i in index;
      } else {
        assert more[|index|] == i;
      }
    }
  }

  ghost function Indices(rs: seq<Record>): seq<nat> {
    if rs == [] then []
    else Indices(rs[..|rs| - 1]) + if IsSample(rs[|rs| - 1]) then [|rs| - 1] else []
  }

  lemma {:induction false} IndicesAreExact(rs: seq<Record>)
    ensures SampleIndices(rs, Indices(rs))
  {
    hide SampleIndices, IsSample;
    if rs == [] {
      NoSamples();
    } else {
      var init, r := rs[..|rs| - 1], rs[|rs| - 1];
      IndicesAreExact(init);
      MoreSamples(init, r, Indices(init));
      assert init + [r] == rs;
      assert Indices(rs) == if IsSample(r) then Indices(init) + [|init|] else Indices(init);
    }
  }

  lemma NoSamples()
    ensures SampleIndices([], [])
  {
  }

  lemma {:induction false} PayloadsByIndex(rs: seq<Record>)
    ensures |Indices(rs)| == |Payloads(rs)|
    ensures forall k | 0 <= k < |Indices(rs)| :: Indices(rs)[k] < |rs| && Payloads(rs)[k] == rs[Indices(rs)[k]].body
  {
    if rs != [] {
      PayloadsByIndex(rs[..|rs| - 1]);
    }
  }

  /** The payloads of a list of records are the bodies of its samples. */
  lemma PayloadsAreSamples(rs: seq<Record>)
    ensures AreSamples(Payloads(rs), rs)
  {
    IndicesAreExact(rs);
    PayloadsByIndex(rs);
  }

  lemma StreamSnoc(rs: seq<Record>, r: Record)
    ensures Stream(rs + [r]) == Stream(rs) + Encode(r)
    ensures Payloads(rs + [r]) == Payloads(rs) + PayloadOf(r)
  {
    assert (rs + [r])[..|rs|] == rs;
  }

  lemma {:induction false} StreamPrefix(rs: seq<Record>, i: nat)
    requires i <= |rs|
    ensures Stream(rs[..i]) <= Stream(rs)
    ensures Payloads(rs[..i]) <= Payloads(rs)
    decreases |rs|
  {
    if i == |rs| {
      assert rs[..i] == rs;
    } else {
      StreamPrefix(rs[..|rs| - 1], i);
      assert rs[..|rs| - 1][..i] == rs[..i];
    }
  }

  lemma {:induction false} StreamAligned(rs: seq<Record>)
    requires forall r | r in rs :: r.Size() % 8 == 0
    ensures |Stream(rs)| % 8 == 0
  {
    hide Encode;
    if rs != [] {
      StreamAligned(rs[..|rs| - 1]);
    }
  }

  /** Where record `i` sits in the stream. */
  lemma RecordInStream(rs: seq<Record>, i: nat)
    requires i < |rs|
    ensures var at := |Stream(rs[..i])|;
            && |Stream(rs[..i + 1])| == at + rs[i].Size() <= |Stream(rs)|
            && (forall j | 0 <= j < rs[i].Size() :: Stream(rs)[at + j] == Encode(rs[i])[j])
            && Payloads(rs[..i + 1]) == Payloads(rs[..i]) + PayloadOf(rs[i])
  {
    assert rs[..i + 1] == rs[..i] + [rs[i]];
    StreamSnoc(rs[..i], rs[i]);
    StreamPrefix(rs, i + 1);
  }

  lemma StreamLengthOrder(rs: seq<Record>, i: nat, j: nat)
    requires i <= j <= |rs|
    ensures |Stream(rs[..i])| <= |Stream(rs[..j])|
  {
    StreamPrefix(rs[..j], i);
    assert rs[..j][..i] == rs[..i];
  }

  // ---------------------------------------------------------------------
  // The shared ring
  // ---------------------------------------------------------------------

  /** The kernel appends nothing during pass `i`. */
  ghost predicate Quiet(kernel: (nat, nat) -> seq<Record>, i: nat) {
    forall j: nat :: kernel(i, j) == []
  }

  class Ring {
    const order: nat          // log2 of the ring length
    const n: nat              // ring length in bytes, a power of two
    const data: array<byte>   // the ring, then 8 bytes past it of which nothing is known
    var dataHead: nat         // written by the kernel
    var dataTail: nat         // published by the consumer
    var readHead: nat         // the consumer's private position
    var decoded: seq<seq<byte>>
    ghost var recs: seq<Record>   // every record the kernel has appended
    ghost var taken: nat          // how many of them the consumer has passed

    /** Shape only: nothing is said of the ring's bytes. */
    ghost predicate Shape()
      reads this
    {
      order >= 3 && n == Pow2(order) && data.Length == n + 8
    }

    ghost predicate Mirrors(from: nat)
      requires Shape()
      reads this, data
    {
      forall i {:trigger Stream(recs)[i]} | from <= i < |Stream(recs)| :: data[Slot(i, n)] == Stream(recs)[i]
    }

    /** The ring holds exactly the unread suffix of the record stream. */
    ghost predicate Valid()
      reads this, data
    {
      && Shape()
      && (forall i | 0 <= i < |recs| :: WellFormed(recs[i], n))
      && taken <= |recs|
      && dataHead == |Stream(recs)|
      && readHead == |Stream(recs[..taken])|
      && dataTail <= readHead
      && dataHead <= dataTail + n
      && Mirrors(dataTail)
      && decoded == Payloads(recs[..taken])
    }

    constructor (order: nat)
      requires order >= 3
      ensures Valid() && recs == [] && this.order == order && fresh(data)
    {
      this.order := order;
      this.n := Pow2(order);
      this.data := new byte[Pow2(order) + 8];
      this.dataHead, this.dataTail, this.readHead := 0, 0, 0;
      this.decoded, this.recs, this.taken := [], [], 0;
    }

    // -- the producer ---------------------------------------------------

    /** Copy bytes into the slots from position `start` on, without touching the slots
        of the positions between `tail` and `start`. */
    method WriteBytes(start: nat, bytes: seq<byte>, ghost tail: nat)
      requires Shape()
      requires tail <= start && start + |bytes| <= tail + n
      modifies data
      ensures forall i | tail <= i < start :: data[Slot(i, n)] == old(data[Slot(i, n)])
      ensures forall i | start <= i < start + |bytes| :: data[Slot(i, n)] == bytes[i - start]
    {
      var j := 0;
      while j < |bytes|
        invariant j <= |bytes|
        invariant forall i | tail <= i < start :: data[Slot(i, n)] == old(data[Slot(i, n)])
        invariant forall i | start <= i < start + j :: data[Slot(i, n)] == bytes[i - start]
      {
        var slot := Slot(start + j, n);
        forall i | tail <= i < start + j ensures Slot(i, n) != slot {
          DistinctSlots(i, start + j, n);
        }
        data[slot] := bytes[j];
        j := j + 1;
      }
    }

    /** The kernel appends a record if it fits in front of the published tail, and
        drops it otherwise. No unread byte is overwritten. */
    method KernelAppend(r: Record)
      requires Shape()
      modifies data, `dataHead, `recs
      ensures dataHead >= old(dataHead)
      ensures old(Valid()) ==> Valid()
      ensures old(Valid()) ==>
                recs == if WellFormed(r, n) && old(dataHead) + 8 + |r.body| <= dataTail + n then old(recs) + [r] else old(recs)
      ensures old(Valid()) ==> forall i | dataTail <= i < old(dataHead) :: data[Slot(i, n)] == old(data[Slot(i, n)])
    {
      hide Encode, Payloads, Pow2;
      if Valid() {
        StreamPrefix(recs, taken);
      }
      if !WellFormed(r, n) || dataHead < dataTail || dataHead + r.Size() > dataTail + n {
        return;
      }
      ghost var wasValid, before := Valid(), recs;
      WriteBytes(dataHead, Encode(r), dataTail);
      dataHead := dataHead + r.Size();
      recs := recs + [r];
      if wasValid {
        StreamSnoc(before, r);
        assert recs[..taken] == before[..taken];
      }
    }

    /** Whatever the kernel does between two accesses of the consumer. */
    method KernelRuns(rs: seq<Record>)
      requires Shape()
      modifies data, `dataHead, `recs
      ensures dataHead >= old(dataHead)
      ensures old(Valid()) ==> Valid() && old(recs) <= recs
      ensures rs == [] ==> recs == old(recs)
    {
      for i := 0 to |rs|
        invariant dataHead >= old(dataHead)
        invariant old(Valid()) ==> Valid() && old(recs) <= recs
        invariant rs == [] ==> recs == old(recs)
      {
        KernelAppend(rs[i]);
      }
    }

    // -- the consumer ---------------------------------------------------

    lemma MirrorAt(i: nat)
      requires Valid() && dataTail <= i < dataHead
      ensures data[Slot(i, n)] == Stream(recs)[i]
    {}

    /** Byte `j` of the next unread record lies in the slot `j` after the read head. */
    lemma RecordByteInPlace(j: nat)
      requires Valid() && taken < |recs| && j < recs[taken].Size()
      ensures data[Slot(readHead + j, n)] == Encode(recs[taken])[j]
    {
      RecordInStream(recs, taken);
      MirrorAt(readHead + j);
    }

    lemma HeaderAligned()
      requires Valid() && taken < |recs|
      ensures Slot(readHead, n) <= n - 8
      ensures readHead + recs[taken].Size() <= dataHead
    {
      assert forall r | r in recs[..taken] :: WellFormed(r, n);
      StreamAligned(recs[..taken]);
      Pow2MultipleOf8(order);
      AlignedSlot(readHead, n);
      RecordInStream(recs, taken);
    }

    lemma HeaderByteInPlace(j: nat)
      requires Valid() && taken < |recs| && j < 8
      ensures Slot(readHead, n) + j < n && data[Slot(readHead, n) + j] == Encode(recs[taken])[j]
    {
      HeaderAligned();
      SlotAfter(readHead, j, n);
      RecordByteInPlace(j);
    }

    /** The header of the next unread record is read whole, type and size intact. */
    lemma HeaderInPlace(header: seq<byte>)
      requires Valid() && taken < |recs|
      requires header == data[Slot(readHead, n)..Slot(readHead, n) + 8]
      ensures FromLittleEndian(header[0..4]) == recs[taken].typ
      ensures FromLittleEndian(header[6..8]) == recs[taken].Size()
    {
      var encoded := Encode(recs[taken]);
      forall j | 0 <= j < 8 ensures header[j] == encoded[j] {
        HeaderByteInPlace(j);
      }
      assert header[0..4] == encoded[0..4] && header[6..8] == encoded[6..8];
      assert WellFormed(recs[taken], n);
      HeaderRoundTrip(recs[taken], n);
    }

    lemma BodyInPlace(at: nat, i: nat)
      requires Valid() && taken < |recs|
      requires i < |recs[taken].body| && at == Slot(readHead + 8, n)
      ensures at < n && |recs[taken].body| <= n - 8
      ensures data[if at + i < n then at + i else at + i - n] == recs[taken].body[i]
    {
      assert WellFormed(recs[taken], n);
      SlotAfter(readHead + 8, i, n);
      RecordByteInPlace(8 + i);
      assert readHead + 8 + i == readHead + (8 + i);
    }

    /** The two-part copy agrees with the record's body. */
    lemma PartInPlace(payloadOffset: nat, skip: nat, from: nat, part: seq<byte>)
      requires Valid() && taken < |recs|
      requires payloadOffset == Slot(readHead + 8, n)
      requires skip + |part| <= |recs[taken].body|
      requires payloadOffset + skip == from || payloadOffset + skip == from + n
      requires from + |part| <= n && part == data[from..from + |part|]
      ensures part == recs[taken].body[skip..skip + |part|]
    {
      forall i | 0 <= i < |part| ensures part[i] == recs[taken].body[skip + i] {
        BodyInPlace(payloadOffset, skip + i);
      }
    }

    lemma PayloadSlot(offset: nat)
      requires Shape() && offset == Slot(readHead, n)
      ensures BitAnd(offset + 8, n - 1) == Slot(readHead + 8, n)
    {
      Pow2MultipleOf8(order);
      MaskIsSlot(offset + 8, order);
      SlotAfter(readHead, 8, n);
      SlotAfter(offset, 8, n);
    }

    /** The payload of the record whose header is at `offset`, in one copy or, when it
        wraps, in two with the kernel running in between. */
    method CopyPayload(offset: nat, payloadLen: nat, between: seq<Record>) returns (payload: seq<byte>)
      requires Shape() && offset == Slot(readHead, n) && payloadLen <= n - 8
      modifies data, `dataHead, `recs
      ensures dataHead >= old(dataHead)
      ensures between == [] ==> recs == old(recs)
      ensures old(Valid()) ==> Valid() && old(recs) <= recs
      ensures old(Valid() && taken < |recs| && payloadLen == |recs[taken].body|) ==>
                payload == old(recs[taken].body)
    {
      hide Valid, Stream, Payloads;
      ghost var onRecord := Valid() && taken < |recs| && payloadLen == |recs[taken].body|;
      ghost var body := if onRecord then recs[taken].body else [];
      var payloadOffset := BitAnd(offset + 8, n - 1);
      PayloadSlot(offset);
      if payloadOffset + payloadLen <= n {
        payload := data[payloadOffset..payloadOffset + payloadLen];
        if onRecord {
          PartInPlace(payloadOffset, 0, payloadOffset, payload);
        }
        KernelRuns(between);
      } else {
        var firstLen := n - payloadOffset;
        var secondLen := payloadLen - firstLen;
        var first := data[payloadOffset..payloadOffset + firstLen];
        if onRecord {
          PartInPlace(payloadOffset, 0, payloadOffset, first);
        }
        KernelRuns(between);
        var second := data[..secondLen];
        if onRecord {
          PartInPlace(payloadOffset, firstLen, 0, second);
          assert body == body[..firstLen] + body[firstLen..];
        }
        payload := first + second;
      }
    }

    ghost predicate AtGoal(goal: nat, head: nat)
      reads this, data
    {
      Valid() && taken <= goal <= |recs| && head == |Stream(recs[..goal])|
    }

    lemma BeforeGoal(goal: nat, head: nat)
      requires AtGoal(goal, head) && readHead < head
      ensures taken < goal && readHead + recs[taken].Size() <= head && recs[taken].Size() <= n
    {
      if taken < goal {
        StreamLengthOrder(recs, taken + 1, goal);
        RecordInStream(recs, taken);
        assert WellFormed(recs[taken], n);
      }
    }

    lemma GoalReached(goal: nat, head: nat)
      requires AtGoal(goal, head) && readHead >= head
      ensures taken == goal
    {
      if taken < goal {
        StreamLengthOrder(recs, taken + 1, goal);
        RecordInStream(recs, taken);
      }
    }

    lemma NothingLeft()
      requires Valid() && readHead == dataHead
      ensures taken == |recs|
    {
      if taken < |recs| {
        RecordInStream(recs, taken);
      }
    }

    /** Step over a record, handing over the payloads found in it. */
    method Advance(size: nat, payloads: seq<seq<byte>>)
      modifies `readHead, `taken, `decoded
      ensures readHead == old(readHead) + size && decoded == old(decoded) + payloads
      ensures old(Valid() && taken < |recs| && size == recs[taken].Size() && payloads == PayloadOf(recs[taken])) ==>
                Valid() && taken == old(taken) + 1
    {
      ghost var onRecord := Valid() && taken < |recs| && size == recs[taken].Size() && payloads == PayloadOf(recs[taken]);
      if onRecord {
        RecordInStream(recs, taken);
      }
      readHead := readHead + size;
      decoded := decoded + payloads;
      taken := taken + 1;
    }

    /** Consume the record at the read head. `stop` reports a malformed header, which is
        stepped over by 8 bytes. */
    method ConsumeRecord(kernel1: seq<Record>, kernel2: seq<Record>) returns (stop: bool)
      requires Shape()
      modifies data, `dataHead, `recs, `readHead, `taken, `decoded
      ensures dataHead >= old(dataHead) && readHead > old(readHead)
      ensures kernel1 == [] && kernel2 == [] ==> recs == old(recs)
      ensures old(Valid() && taken < |recs|) ==> Valid() && !stop && old(recs) <= recs && taken == old(taken) + 1
      ensures old(Valid() && taken < |recs|) ==>
                decoded == old(decoded) + if IsSample(old(recs[taken])) then [old(recs[taken].body)] else []
      ensures var size := FromLittleEndian(old(data[Slot(readHead, n) + 6..Slot(readHead, n) + 8]));
              && (stop <==> size == 0 || size > n)
              && readHead == old(readHead) + if stop then 8 else size
    {
      hide Stream, Payloads, Encode, FromLittleEndian;
      var offset := BitAnd(readHead, n - 1);
      MaskIsSlot(readHead, order);
      var header := data[offset..offset + 8];
      var recordType := FromLittleEndian(header[0..4]);
      var recordSize := FromLittleEndian(header[6..8]);
      assert header[6..8] == data[Slot(readHead, n) + 6..Slot(readHead, n) + 8];
      if Valid() && taken < |recs| {
        HeaderInPlace(header);
        assert WellFormed(recs[taken], n);
      }
      KernelRuns(kernel1);
      if recordSize == 0 || recordSize > n {
        readHead := readHead + 8;
        return true;
      }
      var payloads := [];
      if recordType == PERF_RECORD_SAMPLE && recordSize > 8 {
        var payload := CopyPayload(offset, recordSize - 8, kernel2);
        payloads := [payload];
      }
      Advance(recordSize, payloads);
      return false;
    }

    lemma GoalSet()
      requires Valid()
      ensures AtGoal(|recs|, dataHead)
    {
      assert recs[..|recs|] == recs;
    }

    lemma GoalKept(before: seq<Record>, goal: nat, head: nat)
      requires before <= recs && Valid() && taken <= goal <= |before| && head == |Stream(before[..goal])|
      ensures AtGoal(goal, head)
    {
      assert recs[..goal] == before[..goal];
    }

    /** Give the kernel back everything that was read. */
    method PublishTail()
      modifies `dataTail
      ensures dataTail == readHead
      ensures old(Valid()) ==> Valid()
    {
      dataTail := readHead;
    }

    /** One iteration of the polling loop: read the kernel's head once, consume up to
        it, publish the tail. The kernel runs between any two accesses, as `kernel`
        says. The ring's bytes are arbitrary unless the ring is valid. */
    method DrainPass(kernel: nat -> seq<Record>)
      requires Shape()
      modifies data, this
      ensures readHead >= old(readHead) && dataHead >= old(dataHead)
      ensures old(dataHead >= readHead + 8) ==> readHead > old(readHead)
      ensures old(Valid()) ==> Valid() && old(recs) <= recs && taken >= |old(recs)|
      ensures old(Valid()) && readHead > old(readHead) ==> dataTail == readHead
      ensures (forall i :: kernel(i) == []) ==> recs == old(recs)
    {
      hide Valid;
      ghost var wasValid := Valid();
      KernelRuns(kernel(0));
      var head := dataHead;
      if head == readHead {
        if wasValid {
          NothingLeft();
        }
        return;
      }
      var step := 1;
      ghost var goal := |recs|;
      if wasValid {
        GoalSet();
      }
      while readHead < head
        invariant dataHead >= head >= old(dataHead) && readHead >= old(readHead)
        invariant wasValid ==> AtGoal(goal, head) && old(recs) <= recs && |old(recs)| <= goal
        invariant (forall i :: kernel(i) == []) ==> recs == old(recs)
        decreases head - readHead
      {
        if wasValid {
          BeforeGoal(goal, head);
        }
        if head - readHead < 8 {
          break;
        }
        ghost var before := recs;
        KernelRuns(kernel(step));
        var stop := ConsumeRecord(kernel(step + 1), kernel(step + 2));
        step := step + 3;
        if stop {
          break;
        }
        if wasValid {
          GoalKept(before, goal, head);
        }
      }
      if wasValid {
        GoalReached(goal, head);
      }
      KernelRuns(kernel(step));
      PublishTail();
    }

    lemma DecodedAreSamples()
      requires Valid()
      ensures AreSamples(decoded, recs[..taken]) && (taken == |recs| ==> AreSamples(decoded, recs))
    {
      PayloadsAreSamples(recs[..taken]);
      assert taken == |recs| ==> recs[..taken] == recs;
    }

    lemma AllOrMore()
      requires Valid()
      ensures Shape() && taken <= |recs|
    {
    }

    lemma HeadsInOrder()
      requires Valid()
      ensures dataTail <= readHead <= dataHead <= dataTail + n
    {
      StreamPrefix(recs, taken);
    }

    /** The polling loop, `passes` times around, from a valid ring: whatever the kernel
        does in between, the decoder has been given the payloads of the records passed
        so far, in order and once each; and after a pass in which the kernel is quiet it
        has been given all of them. */
    method Poll(passes: nat, kernel: (nat, nat) -> seq<Record>)
      requires Valid()
      modifies data, this
      ensures Valid() && old(recs) <= recs && AreSamples(decoded, recs[..taken])
      ensures dataTail <= readHead <= dataHead <= dataTail + n
      ensures passes > 0 ==> taken >= |old(recs)|
      ensures passes > 0 && Quiet(kernel, passes - 1) ==> AreSamples(decoded, recs)
    {
      AllOrMore();
      hide Valid, AreSamples;
      for i: nat := 0 to passes
        invariant Shape() && Valid() && old(recs) <= recs
        invariant i > 0 ==> taken >= |old(recs)|
        invariant i > 0 && Quiet(kernel, i - 1) ==> taken == |recs|
      {
        DrainPass((j: nat) => kernel(i, j));
        AllOrMore();
      }
      HeadsInOrder();
      DecodedAreSamples();
    }
  }
}
