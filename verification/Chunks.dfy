/**
 The chunked embedding protocol. The host splits the embedding into attribute
 writes `[u16 little-endian offset][data]` and reads it back by writing an
 offset and then reading the attribute; the wristband decodes, clamps and
 copies. Sizes are general: `|mem|` is the size of the wristband's buffer,
 `step` the host's chunk and `served` the most bytes one attribute read returns.
 */
module Chunks {
  import opened Wrappers

  const EMBED_BYTES := 2048
  const EMBED_CHUNK := 256
  const CHUNK_MAX := 256

  // ------------------------------------------------------------ wristband side

  function DecodeU16(v: seq<byte>): (r: nat)
    requires |v| >= 2
    ensures r < 0x1_0000
  {
    var lo: int, hi: int := v[0], v[1];
    lo + 256 * hi
  }

  function EncodeU16(n: nat): (v: seq<byte>)
    requires n < 0x1_0000
    ensures |v| == 2 && DecodeU16(v) == n
  {
    [n % 256, n / 256]
  }

  /** `buf` with `part` copied in at `off`, clipped to the buffer. */
  function Splice(buf: seq<byte>, off: nat, part: seq<byte>): (r: seq<byte>)
    requires off <= |buf|
    ensures |r| == |buf|
    ensures forall i :: 0 <= i < |buf| ==> r[i] == if off <= i < off + |part| then part[i - off] else buf[i]
  {
    var end := Min(off + |part|, |buf|);
    buf[..off] + part[..end - off] + buf[end..]
  }

  /** The buffer after one write to the embedding attribute. */
  function Apply(mem: seq<byte>, v: seq<byte>): (r: seq<byte>)
    ensures |r| == |mem|
  {
    if |v| < 2 || DecodeU16(v) >= |mem| then mem else Splice(mem, DecodeU16(v), v[2..])
  }

  /** The buffer after a sequence of writes, oldest first. */
  function Deliver(mem: seq<byte>, payloads: seq<seq<byte>>): (r: seq<byte>)
    ensures |r| == |mem|
  {
    if payloads == [] then mem
    else Apply(Deliver(mem, payloads[..|payloads| - 1]), payloads[|payloads| - 1])
  }

  /** What one read of the embedding attribute returns. */
  function Serve(mem: seq<byte>, readOff: nat, served: nat): seq<byte> {
    if readOff >= |mem| then [] else mem[readOff..readOff + Min(|mem| - readOff, served)]
  }

  function Seek(readOff: nat, v: seq<byte>): nat {
    if |v| < 2 then readOff else DecodeU16(v)
  }

  /** Payload `v` carries a byte for position `i`. */
  predicate Covers(v: seq<byte>, i: nat) {
    |v| >= 2 && DecodeU16(v) <= i < DecodeU16(v) + |v| - 2
  }

  function ByteFor(v: seq<byte>, i: nat): byte
    requires Covers(v, i)
  {
    v[2 + i - DecodeU16(v)]
  }

  lemma ApplyAt(mem: seq<byte>, v: seq<byte>, i: nat)
    requires i < |mem|
    ensures Apply(mem, v)[i] == if Covers(v, i) then ByteFor(v, i) else mem[i]
  {
  }

  /** Number of the last payload that writes position `i`, or -1. */
  function LastWriter(payloads: seq<seq<byte>>, i: nat): (k: int)
    ensures -1 <= k < |payloads|
    ensures k >= 0 ==> Covers(payloads[k], i)
    ensures forall j :: k < j < |payloads| ==> !Covers(payloads[j], i)
  {
    if payloads == [] then -1
    else
      var n := |payloads| - 1;
      if Covers(payloads[n], i) then n else LastWriter(payloads[..n], i)
  }

  /**
   Whatever payloads arrive - reordered, repeated, over-long, short, or with an
   offset outside the buffer - every byte is the last one written to it, or
   its old value when nothing was.
   */
  lemma {:induction false} LastWriterWins(mem: seq<byte>, payloads: seq<seq<byte>>, i: nat)
    requires i < |mem|
    ensures var k := LastWriter(payloads, i);
      Deliver(mem, payloads)[i] == if k >= 0 then ByteFor(payloads[k], i) else mem[i]
  {
    if payloads != [] {
      var n := |payloads| - 1;
      ApplyAt(Deliver(mem, payloads[..n]), payloads[n], i);
      if !Covers(payloads[n], i) {
        LastWriterWins(mem, payloads[..n], i);
      }
    }
  }

  /** On the bytes: a payload `lo, hi` and data puts the data at `lo + 256 * hi`, as far as the buffer goes. */
  lemma OffsetOnBytes(mem: seq<byte>, lo: byte, hi: byte, data: seq<byte>, i: nat)
    requires i < |mem|
    ensures var at := lo as int + 256 * (hi as int);
      Apply(mem, [lo, hi] + data)[i] == if at <= i < at + |data| then data[i - at] else mem[i]
    ensures Seek(i, [lo, hi] + data) == lo as int + 256 * (hi as int)
  {
    hide Apply;
    var v := [lo, hi] + data;
    assert v[0] == lo && v[1] == hi;
    assert DecodeU16(v) == lo as int + 256 * (hi as int);
    hide DecodeU16;
    ApplyAt(mem, v, i);
    if Covers(v, i) {
      assert ByteFor(v, i) == data[i - DecodeU16(v)];
    }
  }

  /** A payload of less than two bytes changes nothing. */
  lemma ShortPayloads(mem: seq<byte>, readOff: nat, v: seq<byte>)
    requires |v| < 2
    ensures Apply(mem, v) == mem && Seek(readOff, v) == readOff
  {
  }

  /** A read serves the bytes from the read offset on: as many as there are, at most `served`, none behind the end. */
  lemma ServeBytes(mem: seq<byte>, readOff: nat, served: nat)
    ensures var v := Serve(mem, readOff, served);
      && |v| == (if readOff >= |mem| then 0 else if |mem| - readOff < served then |mem| - readOff else served)
      && forall i :: 0 <= i < |v| ==> v[i] == mem[readOff + i]
  {
  }

  // ----------------------------------------------------------------- host side

  /** `mem` with `data` laid over its beginning, clipped to the buffer. */
  function Overlay(mem: seq<byte>, data: seq<byte>): (r: seq<byte>)
    ensures |r| == |mem|
    ensures forall i :: 0 <= i < |mem| ==> r[i] == if i < |data| then data[i] else mem[i]
  {
    if |data| >= |mem| then data[..|mem|] else data + mem[|data|..]
  }

  /** Offset of chunk number `k`. */
  function ChunkStart(k: nat, step: nat): nat {
    if k == 0 then 0 else ChunkStart(k - 1, step) + step
  }

  lemma {:induction false} ChunkStartIsProduct(k: nat, step: nat)
    ensures ChunkStart(k, step) == k * step
  {
    if k > 0 {
      ChunkStartIsProduct(k - 1, step);
      assert k * step == (k - 1) * step + step;
    }
  }

  lemma {:induction false} ChunkStartGrows(j: nat, k: nat, step: nat)
    requires j <= k
    ensures ChunkStart(j, step) <= ChunkStart(k, step)
  {
    if j < k {
      ChunkStartGrows(j, k - 1, step);
    }
  }

  function Payload(data: seq<byte>, step: nat, off: nat): seq<byte>
    requires off < |data| && off < 0x1_0000
  {
    EncodeU16(off) + data[off..Min(off + step, |data|)]
  }

  /** On the bytes: low byte, high byte, then at most one chunk of the data. */
  lemma PayloadOnBytes(data: seq<byte>, step: nat, off: nat)
    requires off < |data| && off < 0x1_0000
    ensures var v := Payload(data, step, off);
      |v| >= 2 && v[0] as int == off % 256 && v[1] as int == off / 256 && v[2..] == data[off..Min(off + step, |data|)]
  {
  }

  /** The payloads the host sends for `data[off..]`. */
  function Payloads(data: seq<byte>, step: nat, off: nat): seq<seq<byte>>
    requires step >= 1 && |data| <= 0x1_0000
    decreases |data| - off
  {
    if off >= |data| then [] else [Payload(data, step, off)] + Payloads(data, step, off + step)
  }

  lemma {:induction false} PayloadsFrom(data: seq<byte>, step: nat, chunk: nat, k: nat)
    requires step >= 1 && |data| <= 0x1_0000
    ensures k < |Payloads(data, step, ChunkStart(chunk, step))| <==> ChunkStart(chunk + k, step) < |data|
    ensures ChunkStart(chunk + k, step) < |data| ==>
      Payloads(data, step, ChunkStart(chunk, step))[k] == Payload(data, step, ChunkStart(chunk + k, step))
    decreases |data| - ChunkStart(chunk, step)
  {
    hide Payload;
    if ChunkStart(chunk, step) < |data| {
      assert ChunkStart(chunk + 1, step) == ChunkStart(chunk, step) + step;
      if k > 0 {
        PayloadsFrom(data, step, chunk + 1, k - 1);
      }
    } else {
      ChunkStartGrows(chunk, chunk + k, step);
    }
  }

  /** The host sends exactly one payload for each chunk: number `k`, if there is one, is that of offset `k * step`. */
  lemma PayloadNumber(data: seq<byte>, step: nat, k: nat)
    requires step >= 1 && |data| <= 0x1_0000
    ensures k < |Payloads(data, step, 0)| <==> k * step < |data|
    ensures 0 <= k * step < |data| ==> Payloads(data, step, 0)[k] == Payload(data, step, k * step)
  {
    hide Payloads, Payload;
    PayloadsFrom(data, step, 0, k);
    ChunkStartIsProduct(k, step);
  }

  lemma {:induction false} PayloadsCarryData(data: seq<byte>, step: nat, off: nat, i: nat)
    requires step >= 1 && |data| <= 0x1_0000
    ensures forall v :: v in Payloads(data, step, off) && Covers(v, i) ==> i < |data| && ByteFor(v, i) == data[i]
    ensures off <= i < |data| ==> exists v :: v in Payloads(data, step, off) && Covers(v, i)
    decreases |data| - off
  {
    if off < |data| {
      var head := Payload(data, step, off);
      assert head[..2] == EncodeU16(off);
      assert Covers(head, i) <==> off <= i < Min(off + step, |data|);
      PayloadsCarryData(data, step, off + step, i);
      assert head in Payloads(data, step, off);
      if off <= i < |data| && !Covers(head, i) {
        var v :| v in Payloads(data, step, off + step) && Covers(v, i);
        assert v in Payloads(data, step, off);
      }
    }
  }

  /** The host's payloads give the same buffer in every order and with any repetition. */
  lemma OrderIsIrrelevant(mem: seq<byte>, data: seq<byte>, step: nat, payloads: seq<seq<byte>>)
    requires step >= 1 && |data| <= 0x1_0000
    requires forall v :: v in payloads <==> v in Payloads(data, step, 0)
    ensures Deliver(mem, payloads) == Overlay(mem, data)
  {
    forall i | 0 <= i < |mem| ensures Deliver(mem, payloads)[i] == Overlay(mem, data)[i] {
      LastWriterWins(mem, payloads, i);
      PayloadsCarryData(data, step, 0, i);
      if i < |data| {
        var v :| v in Payloads(data, step, 0) && Covers(v, i);
        assert v in payloads;
        var k :| 0 <= k < |payloads| && payloads[k] == v;
        assert Covers(payloads[k], i);
      }
    }
  }

  /**
   The radio's behaviour during one host operation: the GATT call with this
   number is the first to raise, and `applied` says whether the wristband had
   executed it before the host saw the error.
   */
  datatype Fault = NoFault | FaultAt(call: nat, applied: bool)

  /** Outcome of the host's write loop from offset `off`, where the next GATT call is number `call`. */
  function WriteRun(mem: seq<byte>, data: seq<byte>, step: nat, fault: Fault, off: nat, call: nat)
    : (r: (seq<byte>, bool))
    requires step >= 1
    ensures |r.0| == |mem|
    decreases |data| - off
  {
    if off >= |data| then (mem, true)
    else if off >= 0x1_0000 then (mem, false)
    else
      var mem' := Apply(mem, Payload(data, step, off));
      match fault
      case FaultAt(n, applied) =>
        if n == call then (if applied then mem' else mem, false)
        else WriteRun(mem', data, step, fault, off + step, call + 1)
      case NoFault => WriteRun(mem', data, step, fault, off + step, call + 1)
  }

  /** Bytes of `data` the wristband holds when the write loop ends. */
  function Written(size: nat, step: nat, fault: Fault): nat {
    match fault
    case NoFault => size
    case FaultAt(n, applied) => Min(size, ChunkStart(if applied then n + 1 else n, step))
  }

  lemma ApplyExtends(mem: seq<byte>, data: seq<byte>, step: nat, off: nat)
    requires step >= 1 && off < |data| && off < 0x1_0000
    ensures Apply(Overlay(mem, data[..off]), Payload(data, step, off)) == Overlay(mem, data[..Min(off + step, |data|)])
  {
    var v := Payload(data, step, off);
    var before, after := Overlay(mem, data[..off]), Overlay(mem, data[..Min(off + step, |data|)]);
    assert v[..2] == EncodeU16(off);
    forall i | 0 <= i < |mem| ensures Apply(before, v)[i] == after[i] {
      ApplyAt(before, v, i);
    }
  }

  lemma {:induction false} WriteRunFrom(mem: seq<byte>, data: seq<byte>, step: nat, fault: Fault, call: nat)
    requires step >= 1 && |data| <= 0x1_0000
    requires fault.FaultAt? ==> call <= fault.call
    ensures var off := ChunkStart(call, step);
      WriteRun(Overlay(mem, data[..Min(off, |data|)]), data, step, fault, off, call)
      == (Overlay(mem, data[..Written(|data|, step, fault)]),
          fault.NoFault? || ChunkStart(fault.call, step) >= |data|)
    decreases |data| - ChunkStart(call, step)
  {
    hide Apply, Payload, Overlay;
    var off := ChunkStart(call, step);
    if off >= |data| {
      if fault.FaultAt? {
        ChunkStartGrows(call, fault.call, step);
      }
    } else {
      ApplyExtends(mem, data, step, off);
      assert ChunkStart(call + 1, step) == off + step;
      if fault.NoFault? || fault.call != call {
        WriteRunFrom(mem, data, step, fault, call + 1);
      }
    }
  }

  /**
   A write that fails at chunk `k` leaves exactly the new bytes of the chunks
   before it (and of chunk `k` when only its acknowledgement was lost) followed
   by the old bytes; it reports success exactly when no chunk failed.
   */
  lemma WriteLeavesPrefix(mem: seq<byte>, data: seq<byte>, step: nat, fault: Fault)
    requires step >= 1 && |data| <= 0x1_0000
    ensures var (mem', ok) := WriteRun(mem, data, step, fault, 0, 0);
      && mem' == Overlay(mem, data[..Written(|data|, step, fault)])
      && (ok <==> fault.NoFault? || ChunkStart(fault.call, step) >= |data|)
      && (ok ==> mem' == Overlay(mem, data))
  {
    hide WriteRun, Overlay;
    assert Overlay(mem, data[..0]) == mem;
    assert data[..|data|] == data;
    WriteRunFrom(mem, data, step, fault, 0);
    if fault.FaultAt? {
      ChunkStartGrows(fault.call, fault.call + 1, step);
    }
  }

  /** In numbers: a write stopped by call `n` delivered `n` whole chunks, or one more when only the answer was lost. */
  lemma WriteStopsAt(mem: seq<byte>, data: seq<byte>, step: nat, n: nat, applied: bool)
    requires step >= 1 && |data| <= 0x1_0000
    ensures n * step >= 0 && (n + 1) * step >= 0
    ensures WriteRun(mem, data, step, FaultAt(n, applied), 0, 0) ==
            (Overlay(mem, data[..Min(|data|, if applied then (n + 1) * step else n * step)]), n * step >= |data|)
  {
    hide WriteRun, Overlay;
    WriteLeavesPrefix(mem, data, step, FaultAt(n, applied));
    ChunkStartIsProduct(n, step);
    ChunkStartIsProduct(n + 1, step);
  }

  lemma {:induction false} WriteOkFrom(mem: seq<byte>, data: seq<byte>, step: nat, fault: Fault, off: nat, call: nat)
    requires step >= 1
    ensures var (mem', ok) := WriteRun(Overlay(mem, data[..Min(off, |data|)]), data, step, fault, off, call);
      ok ==> mem' == Overlay(mem, data)
    decreases |data| - off
  {
    hide Apply, Payload, Overlay;
    if off >= |data| {
      assert data[..|data|] == data;
    } else if off < 0x1_0000 {
      ApplyExtends(mem, data, step, off);
      WriteOkFrom(mem, data, step, fault, off + step, call + 1);
    }
  }

  /** A write of any size that reports success has laid all its data over the buffer. */
  lemma WriteOk(mem: seq<byte>, data: seq<byte>, step: nat, fault: Fault)
    requires step >= 1
    ensures WriteRun(mem, data, step, fault, 0, 0).1 ==> WriteRun(mem, data, step, fault, 0, 0).0 == Overlay(mem, data)
  {
    hide WriteRun, Overlay;
    assert Overlay(mem, data[..0]) == mem;
    WriteOkFrom(mem, data, step, fault, 0, 0);
  }

  /** Outcome of the host's read loop: the bytes, unless a call raises, and the wristband's read offset. */
  function ReadRun(
    mem: seq<byte>, readOff: nat, served: nat, buf: seq<byte>, step: nat, fault: Fault, off: nat, call: nat)
    : (r: (Option<seq<byte>>, nat))
    requires step >= 1
    ensures r.0.Some? ==> |r.0.value| == |buf|
    decreases |buf| - off
  {
    if off >= |buf| then (Some(buf), readOff)
    else if off >= 0x1_0000 then (None, readOff)
    else if fault.FaultAt? && fault.call == call then (None, if fault.applied then off else readOff)
    else if fault.FaultAt? && fault.call == call + 1 then (None, off)
    else
      ReadRun(mem, off, served, Splice(buf, off, Serve(mem, off, served)), step, fault, off + step, call + 2)
  }

  /** Position of byte `i` inside its chunk. */
  function InChunk(i: nat, step: nat): nat
    requires step >= 1
  {
    if i < step then i else InChunk(i - step, step)
  }

  lemma RemainderStep(i: nat, step: nat)
    requires 1 <= step <= i
    ensures (i - step) % step == i % step
  {
    var q, r := (i - step) / step, (i - step) % step;
    RemainderUnique(i, step, q + 1, r);
  }

  lemma RemainderUnique(i: nat, step: nat, q: nat, r: nat)
    requires step >= 1 && i == q * step + r && r < step
    ensures i % step == r
  {
    var d := i / step - q;
    assert d * step == r - i % step;
    ProductAtLeast(d, step);
  }

  lemma ProductAtLeast(d: int, step: nat)
    requires step >= 1
    ensures d >= 1 ==> d * step >= step
    ensures d <= -1 ==> d * step <= 0 - step
  {
  }

  lemma {:induction false} InChunkIsRemainder(i: nat, step: nat)
    requires step >= 1
    ensures InChunk(i, step) == i % step
  {
    if i >= step {
      InChunkIsRemainder(i - step, step);
      RemainderStep(i, step);
    }
  }

  lemma {:induction false} InChunkAt(chunk: nat, step: nat, i: nat)
    requires ChunkStart(chunk, step) <= i < ChunkStart(chunk, step) + step
    ensures InChunk(i, step) == i - ChunkStart(chunk, step)
  {
    if chunk > 0 {
      InChunkAt(chunk - 1, step, i - step);
    }
  }

  lemma {:induction false} InChunkAtMost(i: nat, step: nat)
    requires step >= 1
    ensures InChunk(i, step) <= i && InChunk(i, step) < step
  {
    if i >= step {
      InChunkAtMost(i - step, step);
    }
  }

  /** Byte `i` of what the host reads: a gap between two served chunks keeps the zero of the fresh buffer. */
  function ReadByte(mem: seq<byte>, served: nat, step: nat, i: nat): byte
    requires step >= 1
  {
    if i < |mem| && InChunk(i, step) < served then mem[i] else 0
  }

  /** Before chunk `chunk`, the earlier bytes are final and the later ones zero or already right. */
  ghost predicate ReadSoFar(mem: seq<byte>, served: nat, step: nat, chunk: nat, buf: seq<byte>)
    requires step >= 1
  {
    && (forall i :: 0 <= i < |buf| && i < ChunkStart(chunk, step) ==> buf[i] == ReadByte(mem, served, step, i))
    && (forall i :: 0 <= i < |buf| && i >= ChunkStart(chunk, step) ==>
          buf[i] == 0 || (i < |mem| && buf[i] == mem[i] && step <= served))
  }

  lemma ReadSoFarDone(mem: seq<byte>, served: nat, step: nat, chunk: nat, buf: seq<byte>)
    requires step >= 1 && ReadSoFar(mem, served, step, chunk, buf)
    ensures ChunkStart(chunk, step) >= |buf| ==> forall i :: 0 <= i < |buf| ==> buf[i] == ReadByte(mem, served, step, i)
  {
  }

  lemma ReadSoFarStep(mem: seq<byte>, served: nat, step: nat, chunk: nat, buf: seq<byte>)
    requires step >= 1 && ChunkStart(chunk, step) < |buf| && ReadSoFar(mem, served, step, chunk, buf)
    ensures ReadSoFar(mem, served, step, chunk + 1,
                      Splice(buf, ChunkStart(chunk, step), Serve(mem, ChunkStart(chunk, step), served)))
  {
    hide InChunk, Splice;
    var off := ChunkStart(chunk, step);
    var buf' := Splice(buf, off, Serve(mem, off, served));
    forall i | 0 <= i < |buf'| && i < ChunkStart(chunk + 1, step) ensures buf'[i] == ReadByte(mem, served, step, i) {
      if i >= off {
        InChunkAt(chunk, step, i);
      }
    }
  }

  lemma {:induction false} ReadRunFrom(
    mem: seq<byte>, readOff: nat, served: nat, buf: seq<byte>, step: nat, fault: Fault, chunk: nat)
    requires step >= 1 && |buf| <= 0x1_0000 && ReadSoFar(mem, served, step, chunk, buf)
    ensures var r := ReadRun(mem, readOff, served, buf, step, fault, ChunkStart(chunk, step), 2 * chunk).0;
      && (r.Some? ==> |r.value| == |buf| && forall i :: 0 <= i < |buf| ==> r.value[i] == ReadByte(mem, served, step, i))
      && (fault.NoFault? ==> r.Some?)
    decreases |buf| - ChunkStart(chunk, step)
  {
    hide ReadSoFar, Splice, Serve, ReadByte;
    ReadSoFarDone(mem, served, step, chunk, buf);
    var off := ChunkStart(chunk, step);
    if off < |buf| && !(fault.FaultAt? && (fault.call == 2 * chunk || fault.call == 2 * chunk + 1)) {
      var buf' := Splice(buf, off, Serve(mem, off, served));
      ReadSoFarStep(mem, served, step, chunk, buf);
      assert ChunkStart(chunk + 1, step) == off + step;
      ReadRunFrom(mem, off, served, buf', step, fault, chunk + 1);
    }
  }

  function Zeros(n: nat): (z: seq<byte>)
    ensures |z| == n && forall i :: 0 <= i < n ==> z[i] == 0
  {
    seq(n, _ => 0)
  }

  /** A read that succeeds returns memory byte for byte, except the gaps a too small served chunk leaves. */
  lemma ReadReturns(mem: seq<byte>, readOff: nat, served: nat, total: nat, step: nat, fault: Fault)
    requires step >= 1 && total <= 0x1_0000
    ensures var r := ReadRun(mem, readOff, served, Zeros(total), step, fault, 0, 0).0;
      && (r.Some? ==> |r.value| == total && forall i :: 0 <= i < total ==> r.value[i] == ReadByte(mem, served, step, i))
      && (fault.NoFault? ==> r.Some?)
  {
    hide ReadRun, ReadByte;
    ReadRunFrom(mem, readOff, served, Zeros(total), step, fault, 0);
  }

  /** In numbers: byte `i` is lost exactly when its place in the chunk, `i % step`, is beyond what one read serves. */
  lemma ReadByteIs(mem: seq<byte>, readOff: nat, served: nat, total: nat, step: nat, fault: Fault, i: nat)
    requires step >= 1 && total <= 0x1_0000 && i < total
    ensures var r := ReadRun(mem, readOff, served, Zeros(total), step, fault, 0, 0).0;
      r.Some? ==> r.value[i] == if i < |mem| && i % step < served then mem[i] else 0
  {
    hide ReadRun;
    ReadReturns(mem, readOff, served, total, step, fault);
    InChunkIsRemainder(i, step);
  }

  lemma {:induction false} ReadStopsFrom(
    mem: seq<byte>, readOff: nat, served: nat, buf: seq<byte>, step: nat, fault: Fault, chunk: nat)
    requires step >= 1 && |buf| <= 0x1_0000 && (fault.FaultAt? ==> fault.call >= 2 * chunk)
    ensures ReadRun(mem, readOff, served, buf, step, fault, ChunkStart(chunk, step), 2 * chunk).0.Some?
            <==> fault.NoFault? || ChunkStart(fault.call / 2, step) >= |buf|
    decreases |buf| - ChunkStart(chunk, step)
  {
    hide Splice, Serve;
    var off := ChunkStart(chunk, step);
    if off >= |buf| {
      if fault.FaultAt? {
        ChunkStartGrows(chunk, fault.call / 2, step);
      }
    } else if !(fault.FaultAt? && (fault.call == 2 * chunk || fault.call == 2 * chunk + 1)) {
      assert ChunkStart(chunk + 1, step) == off + step;
      ReadStopsFrom(mem, off, served, Splice(buf, off, Serve(mem, off, served)), step, fault, chunk + 1);
    }
  }

  /** A read succeeds exactly when neither call of any chunk raises. */
  lemma ReadSucceedsIff(mem: seq<byte>, readOff: nat, served: nat, total: nat, step: nat, fault: Fault)
    requires step >= 1 && total <= 0x1_0000
    ensures ReadRun(mem, readOff, served, Zeros(total), step, fault, 0, 0).0.Some?
            <==> fault.NoFault? || (fault.call / 2) * step >= total
  {
    hide ReadRun;
    ReadStopsFrom(mem, readOff, served, Zeros(total), step, fault, 0);
    if fault.FaultAt? {
      ChunkStartIsProduct(fault.call / 2, step);
    }
  }

  lemma {:induction false} ReadOffsetFrom(
    mem: seq<byte>, readOff: nat, served: nat, buf: seq<byte>, step: nat, fault: Fault, chunk: nat)
    requires step >= 1 && |buf| <= 0x1_0000 && ChunkStart(chunk, step) < |buf|
    ensures var (r, off) := ReadRun(mem, readOff, served, buf, step, fault, ChunkStart(chunk, step), 2 * chunk);
      r.Some? ==> off < |buf| <= off + step
    decreases |buf| - ChunkStart(chunk, step)
  {
    hide Splice, Serve;
    var off := ChunkStart(chunk, step);
    if !(fault.FaultAt? && (fault.call == 2 * chunk || fault.call == 2 * chunk + 1)) && off + step < |buf| {
      assert ChunkStart(chunk + 1, step) == off + step;
      ReadOffsetFrom(mem, off, served, Splice(buf, off, Serve(mem, off, served)), step, fault, chunk + 1);
    }
  }

  /** A successful read leaves the wristband's read offset in the last chunk. */
  lemma ReadLeavesOffset(mem: seq<byte>, readOff: nat, served: nat, total: nat, step: nat, fault: Fault)
    requires step >= 1 && 0 < total <= 0x1_0000
    ensures var (r, off) := ReadRun(mem, readOff, served, Zeros(total), step, fault, 0, 0);
      r.Some? ==> off < total <= off + step
  {
    hide ReadRun;
    ReadOffsetFrom(mem, readOff, served, Zeros(total), step, fault, 0);
  }

  /** A successful read is a copy of the buffer. */
  lemma ReadIsExact(mem: seq<byte>, readOff: nat, served: nat, step: nat, fault: Fault)
    requires 1 <= step <= served && |mem| <= 0x1_0000
    ensures var r := ReadRun(mem, readOff, served, Zeros(|mem|), step, fault, 0, 0).0;
      && (r.Some? ==> r.value == mem)
      && (fault.NoFault? ==> r == Some(mem))
  {
    hide ReadRun, InChunk;
    ReadReturns(mem, readOff, served, |mem|, step, fault);
    forall i | 0 <= i < |mem| ensures ReadByte(mem, served, step, i) == mem[i] {
      InChunkAtMost(i, step);
    }
  }

  /**
   Round trip: whatever the wristband held and wherever its read offset stood,
   a write the host saw succeed followed by a read it saw succeed returns
   exactly the bytes written; and without a fault both do succeed.
   */
  lemma ChunkRoundTrip(
    mem: seq<byte>, data: seq<byte>, readOff: nat, step: nat, served: nat, writeFault: Fault, readFault: Fault)
    requires |mem| == |data| <= 0x1_0000 && 1 <= step <= served
    ensures var (mem', wrote) := WriteRun(mem, data, step, writeFault, 0, 0);
      var r := ReadRun(mem', readOff, served, Zeros(|mem|), step, readFault, 0, 0).0;
      && (wrote && r.Some? ==> r.value == data)
      && (writeFault.NoFault? ==> wrote)
      && (readFault.NoFault? ==> r.Some?)
  {
    hide WriteRun, ReadRun, Overlay, ChunkStart;
    WriteLeavesPrefix(mem, data, step, writeFault);
    var (mem', wrote) := WriteRun(mem, data, step, writeFault, 0, 0);
    ReadIsExact(mem', readOff, served, step, readFault);
  }

  /** Reading back is exact for every content exactly when chunks leave no gap inside the buffer. */
  lemma ReadExactIff(size: nat, readOff: nat, served: nat, step: nat)
    requires step >= 1 && size <= 0x1_0000
    ensures (forall mem: seq<byte> {:trigger Serve(mem, 0, served)} :: |mem| == size ==>
              ReadRun(mem, readOff, served, Zeros(size), step, NoFault, 0, 0).0 == Some(mem))
       <==> served >= step || size <= served
  {
    hide ReadRun, InChunk;
    if served >= step || size <= served {
      forall mem: seq<byte> | |mem| == size
        ensures ReadRun(mem, readOff, served, Zeros(size), step, NoFault, 0, 0).0 == Some(mem)
      {
        ReadReturns(mem, readOff, served, size, step, NoFault);
        forall i | 0 <= i < size ensures ReadByte(mem, served, step, i) == mem[i] {
          InChunkAtMost(i, step);
        }
        var r := ReadRun(mem, readOff, served, Zeros(size), step, NoFault, 0, 0).0;
        assert r.value == mem;
      }
    } else {
      var ones := seq(size, i requires 0 <= i => 1 as byte);
      assert Serve(ones, 0, served) == Serve(ones, 0, served);
      ReadReturns(ones, readOff, served, size, step, NoFault);
      InChunkAt(0, step, served);
      assert ReadByte(ones, served, step, served) == 0;
    }
  }

  // ------------------------------------------------- the two loops, in place

  /** Copies `part` into `buf` at `off`: the wristband's `memcpy` and the host's slice assignment. */
  method CopyIn(buf: array<byte>, off: nat, part: seq<byte>)
    requires off + |part| <= buf.Length
    modifies buf
    ensures buf[..] == Splice(old(buf[..]), off, part)
  {
    for j := 0 to |part|
      invariant forall i :: 0 <= i < buf.Length ==>
                  buf[i] == if off <= i < off + j then part[i - off] else old(buf[i])
    {
      buf[off + j] := part[j];
    }
  }

  /** The wristband's embedding buffer and its attribute callbacks. */
  class EmbeddingBuffer {
    const bytes: array<byte>
    const served: nat
    var readOff: nat

    constructor (size: nat, served: nat)
      ensures fresh(bytes) && bytes.Length == size && bytes[..] == Zeros(size)
      ensures this.served == served && readOff == 0
    {
      this.served := served;
      this.readOff := 0;
      this.bytes := new byte[size](_ => 0);
    }

    method OnEmbedWrite(v: seq<byte>)
      modifies bytes
      ensures bytes[..] == Apply(old(bytes[..]), v)
    {
      if |v| < 2 {
        return;
      }
      var off := DecodeU16(v);
      var n := |v| - 2;
      if off >= bytes.Length {
        return;
      }
      if off + n > bytes.Length {
        n := bytes.Length - off;
      }
      CopyIn(bytes, off, v[2..2 + n]);
    }

    method OnEmbedRead() returns (value: seq<byte>)
      ensures value == Serve(bytes[..], readOff, served)
    {
      if readOff >= bytes.Length {
        return [];
      }
      var n := bytes.Length - readOff;
      if n > served {
        n := served;
      }
      value := bytes[readOff..readOff + n];
    }

    method OnOffsetWrite(v: seq<byte>)
      modifies this`readOff
      ensures readOff == Seek(old(readOff), v)
    {
      if |v| < 2 {
        return;
      }
      readOff := DecodeU16(v);
    }
  }

  /** The host's write loop against the wristband's callbacks. */
  method WriteEmbedding(band: EmbeddingBuffer, data: seq<byte>, step: nat, fault: Fault) returns (ok: bool)
    requires step >= 1
    modifies band.bytes
    ensures (band.bytes[..], ok) == WriteRun(old(band.bytes[..]), data, step, fault, 0, 0)
  {
    hide Apply, Payload, EncodeU16;
    ghost var outcome := WriteRun(band.bytes[..], data, step, fault, 0, 0);
    var off, call := 0, 0;
    while off < |data|
      invariant 0 <= off
      invariant WriteRun(band.bytes[..], data, step, fault, off, call) == outcome
      decreases |data| - off
    {
      if off >= 0x1_0000 {
        return false;
      }
      var raises := fault.FaultAt? && fault.call == call;
      if !raises || fault.applied {
        band.OnEmbedWrite(Payload(data, step, off));
      }
      if raises {
        return false;
      }
      off, call := off + step, call + 1;
    }
    ok := true;
  }

  lemma SpliceClips(buf: seq<byte>, off: nat, part: seq<byte>)
    requires off <= |buf|
    ensures Splice(buf, off, part[..Min(off + |part|, |buf|) - off]) == Splice(buf, off, part)
  {
    hide Splice;
  }

  lemma ReadRunUnfolds(
    mem: seq<byte>, readOff: nat, served: nat, buf: seq<byte>, step: nat, fault: Fault, off: nat, call: nat)
    requires step >= 1
    ensures var r := ReadRun(mem, readOff, served, buf, step, fault, off, call);
      if off >= |buf| then r == (Some(buf), readOff)
      else if off >= 0x1_0000 then r == (None, readOff)
      else if fault.FaultAt? && fault.call == call then r == (None, if fault.applied then off else readOff)
      else if fault.FaultAt? && fault.call == call + 1 then r == (None, off)
      else r == ReadRun(mem, off, served, Splice(buf, off, Serve(mem, off, served)), step, fault, off + step, call + 2)
  {
  }

  /** One read of the embedding attribute into the host's buffer. */
  method FetchChunk(band: EmbeddingBuffer, buf: array<byte>, off: nat)
    requires off < buf.Length && band.readOff == off && buf != band.bytes
    modifies buf
    ensures buf[..] == Splice(old(buf[..]), off, Serve(band.bytes[..], off, band.served))
  {
    hide Splice, Serve;
    var chunk := band.OnEmbedRead();
    SpliceClips(buf[..], off, chunk);
    CopyIn(buf, off, chunk[..Min(off + |chunk|, buf.Length) - off]);
  }

  /** The host's read loop, filling its buffer in place. */
  method ReadEmbedding(band: EmbeddingBuffer, total: nat, step: nat, fault: Fault) returns (r: Option<seq<byte>>)
    requires step >= 1
    modifies band`readOff
    ensures (r, band.readOff)
         == ReadRun(band.bytes[..], old(band.readOff), band.served, Zeros(total), step, fault, 0, 0)
  {
    hide ReadRun, Serve, EncodeU16, Splice;
    ghost var mem := band.bytes[..];
    ghost var outcome := ReadRun(mem, band.readOff, band.served, Zeros(total), step, fault, 0, 0);
    var buf := new byte[total](_ => 0);
    assert buf[..] == Zeros(total);
    var off, call := 0, 0;
    while off < total
      invariant 0 <= off
      invariant band.bytes[..] == mem
      invariant ReadRun(mem, band.readOff, band.served, buf[..], step, fault, off, call) == outcome
      decreases total - off
    {
      ghost var got := buf[..];
      ReadRunUnfolds(mem, band.readOff, band.served, got, step, fault, off, call);
      if off >= 0x1_0000 {
        return None;
      }
      if fault.FaultAt? && fault.call == call {
        if fault.applied {
          band.OnOffsetWrite(EncodeU16(off));
        }
        return None;
      }
      band.OnOffsetWrite(EncodeU16(off));
      if fault.FaultAt? && fault.call == call + 1 {
        return None;
      }
      FetchChunk(band, buf, off);
      assert buf[..] == Splice(got, off, Serve(mem, off, band.served));
      off, call := off + step, call + 2;
    }
    ReadRunUnfolds(mem, band.readOff, band.served, buf[..], step, fault, off, call);
    r := Some(buf[..]);
  }
}
