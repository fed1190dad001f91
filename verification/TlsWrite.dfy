/**
 The TLS write path (s3_pkt.cc, s3_both.cc, ssl_buffer.cc): two queues of sealed bytes, short and
 failed BIO writes, and application writes that are resumed where they stopped.
 */
module TlsWrite {
  import opened Bytes
  import opened DtlsRecord
  import opened SslBuffer

  const MT_CCS: byte := 1
  const INT_MAX: nat := 0x7fff_ffff

  datatype Shutdown = NotShutdown | CloseSent | ErrorSent

  /** The bytes accepted by the BIO and waiting in the two queues, beside all that was sealed. */
  datatype Queues = Queues(accepted: seq<byte>, buffer: seq<byte>, flight: seq<byte>, sealed: seq<byte>) {

    /** Nothing sealed is lost, doubled or out of order. */
    ghost predicate Conserved() {
      accepted + buffer + flight == sealed
    }
  }

  lemma BufferDrains(q: Queues, k: nat)
    requires q.Conserved() && k <= |q.buffer|
    ensures q.(accepted := q.accepted + q.buffer[..k], buffer := q.buffer[k..]).Conserved()
  {
    assert q.buffer == q.buffer[..k] + q.buffer[k..];
  }

  lemma PassedOn(before: seq<byte>, bytes: seq<byte>, k: nat)
    requires k <= |bytes|
    ensures before + bytes[..k] + bytes[k..] == before + bytes
  {
    assert bytes == bytes[..k] + bytes[k..];
  }

  lemma FlightDrains(q: Queues, k: nat)
    requires q.Conserved() && q.buffer == [] && k <= |q.flight|
    ensures q.(accepted := q.accepted + q.flight[..k], flight := q.flight[k..]).Conserved()
  {
    assert q.flight == q.flight[..k] + q.flight[k..];
  }

  lemma FlightGrows(q: Queues, record: seq<byte>)
    requires q.Conserved()
    ensures q.(flight := q.flight + record, sealed := q.sealed + record).Conserved()
  {
    assert q.accepted + q.buffer + (q.flight + record) == q.accepted + q.buffer + q.flight + record;
  }

  lemma FlightMoves(q: Queues)
    requires q.Conserved() && q.buffer == []
    ensures q.(buffer := q.flight, flight := []).Conserved()
  {
    assert q.accepted + q.buffer == q.accepted;
  }

  lemma BufferGrows(q: Queues, record: seq<byte>)
    requires q.Conserved() && q.flight == []
    ensures q.(buffer := q.buffer + record, sealed := q.sealed + record).Conserved()
  {
    assert q.accepted + (q.buffer + record) == q.accepted + q.buffer + record;
  }

  /** The queues after the BIO took `k` bytes from the write buffer, which lies at `offset` of `mem`. */
  function AfterShortWrite(q: Queues, mem: seq<byte>, offset: nat, size: nat, k: nat): Queues
    requires offset < TWO_16 && k <= size && offset + size <= |mem|
  {
    q.(accepted := q.accepted + mem[offset..offset + k], buffer := Consumed(mem, offset, size, k))
  }

  /** The queues while `mem` holds the write buffer, with everything sealed still in order. */
  function InOrder(accepted: seq<byte>, flight: seq<byte>, mem: seq<byte>, offset: nat, size: nat): Queues
    requires offset + size <= |mem|
  {
    var buffer := mem[offset..offset + size];
    Queues(accepted, buffer, flight, accepted + buffer + flight)
  }

  lemma ShortWriteConserves(accepted: seq<byte>, flight: seq<byte>, mem: seq<byte>, offset: nat, size: nat, k: nat)
    requires offset < TWO_16 && k <= size && offset + size <= |mem|
    ensures AfterShortWrite(InOrder(accepted, flight, mem, offset, size), mem, offset, size, k).Conserved()
       <==> Consumed(mem, offset, size, k) == mem[offset..offset + size][k..]
  {
    var buffer, rest := mem[offset..offset + size], Consumed(mem, offset, size, k);
    var left := accepted + mem[offset..offset + k] + rest + flight;
    assert mem[offset..offset + k] == buffer[..k] && buffer == buffer[..k] + buffer[k..];
    if rest == buffer[k..] {
      assert left == accepted + buffer + flight;
    } else {
      var i :| 0 <= i < |rest| && rest[i] != buffer[k..][i];
      assert left[|accepted| + k + i] == rest[i];
      assert (accepted + buffer + flight)[|accepted| + k + i] == buffer[k + i];
    }
  }

  /**
   Whatever the queues hold, every short write keeps conservation, if and only if the write buffer
   reaches no further than 16 bits into its allocation of `n` bytes.
   */
  lemma ShortWritesConserve(accepted: seq<byte>, flight: seq<byte>, n: nat, offset: nat, size: nat)
    requires offset < TWO_16 && offset + size <= n
    ensures (forall mem: seq<byte>, k: nat | |mem| == n && k <= size ::
              AfterShortWrite(InOrder(accepted, flight, mem, offset, size), mem, offset, size, k).Conserved())
       <==> offset + size <= TWO_16
  {
    hide Queues.Conserved, AfterShortWrite, InOrder, Consumed;
    if offset + size <= TWO_16 {
      forall mem: seq<byte>, k: nat | |mem| == n && k <= size
        ensures AfterShortWrite(InOrder(accepted, flight, mem, offset, size), mem, offset, size, k).Conserved()
      {
        ShortWriteConserves(accepted, flight, mem, offset, size, k);
        OffsetRunsOver(n, offset, size, k);
      }
    } else {
      OffsetRunsOver(n, offset, size, size - 1);
      var mem: seq<byte> :| |mem| == n &&
        Consumed(mem, offset, size, size - 1) != mem[offset..offset + size][size - 1..];
      ShortWriteConserves(accepted, flight, mem, offset, size, size - 1);
    }
  }

  /**
   What is outside the writer, call by call: the answers of the BIO's writes and flushes, what the
   allocator has (and how its addresses are aligned), and what the cipher makes of the n-th record.
   */
  datatype Outside = Outside(
    bio: nat -> int, flush: nat -> int, memory: nat -> Option<nat>,
    seal: (nat, byte, seq<byte>) -> Option<seq<byte>>)

  /** A record's type and plaintext, and whether it belongs to a handshake flight. */
  datatype Plain = Plain(typ: byte, text: seq<byte>, inFlight: bool)

  /** The records that carry these plaintexts, under consecutive numbers. */
  function Records(outside: Outside, texts: seq<Plain>): seq<byte> {
    if texts == [] then []
    else
      var n := |texts| - 1;
      var record := outside.seal(n, texts[n].typ, texts[n].text);
      Records(outside, texts[..n]) + if record.Some? then record.value else []
  }

  /** The application data among them. */
  function AppText(texts: seq<Plain>): seq<byte> {
    if texts == [] then []
    else
      var last := texts[|texts| - 1];
      AppText(texts[..|texts| - 1]) + if last.typ == RT_APPLICATION_DATA && !last.inFlight then last.text else []
  }

  /** The sealed bytes are records of these plaintexts, and their application data is what was written. */
  ghost predicate Carried(outside: Outside, texts: seq<Plain>, sealed: seq<byte>, written: seq<byte>) {
    sealed == Records(outside, texts) && AppText(texts) == written
  }

  lemma NothingCarried(outside: Outside)
    ensures Carried(outside, [], [], [] + [])
  {
  }

  lemma OneMoreRecord(outside: Outside, texts: seq<Plain>, sealed: seq<byte>, finished: seq<byte>, progress: seq<byte>,
                      p: Plain)
    requires Carried(outside, texts, sealed, finished + progress) && outside.seal(|texts|, p.typ, p.text).Some?
    ensures Carried(outside, texts + [p], sealed + outside.seal(|texts|, p.typ, p.text).value,
      finished + if p.typ == RT_APPLICATION_DATA && !p.inFlight then progress + p.text else progress)
  {
    assert (texts + [p])[..|texts|] == texts;
    assert finished + (progress + p.text) == finished + progress + p.text;
    assert finished + progress + [] == finished + progress;
  }

  lemma WriteIsOver(outside: Outside, texts: seq<Plain>, sealed: seq<byte>, finished: seq<byte>, progress: seq<byte>)
    requires Carried(outside, texts, sealed, finished + progress)
    ensures Carried(outside, texts, sealed, finished + progress + [])
  {
    assert finished + progress + [] == finished + progress;
  }

  class TlsWriter {
    const writeBuffer: Buffer
    var pendingFlight: Option<seq<byte>>
    var pendingFlightOffset: nat
    var writeShutdown: Shutdown

    // ssl3_write_pending's memory of the record in the write buffer
    var wpendPending: bool
    var wpendTot: nat
    var wpendBuf: int
    var wpendType: byte
    var wpendRet: int
    var wnum: nat

    // configuration
    var maxSendFragment: nat
    var maxSealOverhead: nat
    var partialWrite: bool
    var movingBuffer: bool

    /** The outside, and how often each part of it was called. */
    const outside: Outside
    var bioWrites: nat
    var bioFlushes: nat
    var allocs: nat
    var writeSeq: nat

    // early data
    var inEarlyData: bool
    var canEarlyWrite: bool
    var earlyDataWritten: nat
    const ticketMaxEarlyData: nat

    /** All bytes the BIO took, and all records sealed, in order. */
    ghost var accepted: seq<byte>
    ghost var sealed: seq<byte>
    /** The application plaintext sealed for the write that is going on. */
    ghost var progress: seq<byte>
    /** What was sealed, record by record, and the application plaintext of the writes that are over. */
    ghost var texts: seq<Plain>
    ghost var finished: seq<byte>
    /** A short write left bytes behind while the buffer's offset ran over. */
    ghost var overrun: bool

    ghost function Flight(): seq<byte>
      requires FlightOk()
      reads `pendingFlight, `pendingFlightOffset
    {
      if pendingFlight.None? then [] else pendingFlight.value[pendingFlightOffset..]
    }

    ghost predicate FlightOk()
      reads `pendingFlight, `pendingFlightOffset
    {
      if pendingFlight.None? then pendingFlightOffset == 0
      else pendingFlightOffset <= |pendingFlight.value|
    }

    ghost function Repr(): set<object>
      reads this, writeBuffer
    {
      {this, writeBuffer} + if writeBuffer.buf == null then {} else {writeBuffer.buf}
    }

    ghost function Q(): Queues
      requires FlightOk() && writeBuffer.Valid()
      reads this, writeBuffer, writeBuffer.buf
    {
      Queues(accepted, writeBuffer.Contents(), Flight(), sealed)
    }

    /** How far into its allocation the write buffer's contents go. */
    ghost function Reach(): nat
      reads writeBuffer
    {
      writeBuffer.offset + writeBuffer.size
    }

    /** The most that a record of this length, behind the unflushed flight, can take of an allocation. */
    ghost function Room(len: nat): nat
      requires FlightOk()
      reads `pendingFlight, `pendingFlightOffset, `maxSealOverhead
    {
      ALIGN_PAYLOAD - 1 + |Flight()| + len + maxSealOverhead
    }

    /** What is and will be in the write buffer stays within 16 bits. */
    ghost predicate Fits()
      requires FlightOk()
      reads `pendingFlight, `pendingFlightOffset, `maxSealOverhead, `maxSendFragment, writeBuffer
    {
      Reach() <= TWO_16 && Room(maxSendFragment) <= TWO_16
    }

    ghost predicate Valid()
      reads this, writeBuffer, writeBuffer.buf
    {
      Steady() && (writeBuffer.size == 0 ==> writeBuffer.offset < ALIGN_PAYLOAD)
    }

    /** Valid, but for the offset that an emptied write buffer has before it is cleared. */
    ghost predicate Steady()
      reads this, writeBuffer, writeBuffer.buf
    {
      && writeBuffer.Valid() && FlightOk()
      && (!overrun ==> Q().Conserved())
      && (wpendPending ==> wpendRet == wpendTot > 0)
      && (inEarlyData ==> earlyDataWritten <= ticketMaxEarlyData)
      && maxSendFragment > 0
      && Recorded()
    }

    /** All records so far, and the application data in them. */
    ghost predicate Recorded()
      reads `sealed, `writeSeq, `texts, `finished, `progress
    {
      |texts| == writeSeq && Carried(outside, texts, sealed, finished + progress)
    }

    constructor (maxSendFragment: nat, maxSealOverhead: nat, partialWrite: bool, movingBuffer: bool,
                 ticketMaxEarlyData: nat, outside: Outside)
      requires maxSendFragment > 0
      ensures Valid() && fresh(writeBuffer) && !overrun && !wpendPending && wnum == 0
      ensures this.maxSendFragment == maxSendFragment && this.maxSealOverhead == maxSealOverhead
      ensures this.partialWrite == partialWrite && this.movingBuffer == movingBuffer && writeShutdown == NotShutdown
      ensures this.ticketMaxEarlyData == ticketMaxEarlyData && !inEarlyData && earlyDataWritten == 0
      ensures this.outside == outside && writeSeq == bioWrites == bioFlushes == allocs == 0
      ensures pendingFlightOffset == 0
      ensures writeBuffer.Contents() == [] && writeBuffer.buf == null
      ensures accepted == [] && sealed == [] && progress == [] && pendingFlight.None?
    {
      writeBuffer := new Buffer();
      pendingFlight, pendingFlightOffset, writeShutdown := None, 0, NotShutdown;
      wpendPending, wpendTot, wpendBuf, wpendType, wpendRet, wnum := false, 0, 0, 0, 0, 0;
      this.maxSendFragment, this.maxSealOverhead := maxSendFragment, maxSealOverhead;
      this.partialWrite, this.movingBuffer := partialWrite, movingBuffer;
      inEarlyData, canEarlyWrite, earlyDataWritten := false, false, 0;
      this.ticketMaxEarlyData, this.outside := ticketMaxEarlyData, outside;
      writeSeq, bioWrites, bioFlushes, allocs := 0, 0, 0, 0;
      accepted, sealed, progress, overrun := [], [], [], false;
      texts, finished := [], [];
      NothingCarried(outside);
    }

    /** The BIO takes a front of what it is offered, or answers 0 or less. */
    method BioWrite(bytes: seq<byte>) returns (ret: int)
      modifies this`accepted, this`bioWrites
      ensures bioWrites == old(bioWrites) + 1
      ensures var answer := outside.bio(old(bioWrites));
        && ret == (if answer > |bytes| then |bytes| else answer)
        && accepted == if ret > 0 then old(accepted) + bytes[..ret] else old(accepted)
    {
      ret := outside.bio(bioWrites);
      bioWrites := bioWrites + 1;
      if ret > |bytes| {
        ret := |bytes|;
      }
      if ret > 0 {
        accepted := accepted + bytes[..ret];
      }
    }

    method BioFlush() returns (ret: int)
      modifies this`bioFlushes
      ensures ret == outside.flush(old(bioFlushes)) && bioFlushes == old(bioFlushes) + 1
    {
      ret := outside.flush(bioFlushes);
      bioFlushes := bioFlushes + 1;
    }

    /** The BIO took these writes. */
    ghost predicate TookAll(from: nat, to: nat) {
      from <= to && forall i :: from <= i < to ==> outside.bio(i) > 0
    }

    /** It refused the last of these writes, with this answer, and took every one before. */
    ghost predicate RefusedLast(from: nat, to: nat, ret: int) {
      from < to && ret == outside.bio(to - 1) <= 0 && TookAll(from, to - 1)
    }

    lemma NoneTaken(from: nat)
      ensures TookAll(from, from)
    {
    }

    lemma TookThen(from: nat, mid: nat, to: nat, ret: int)
      requires TookAll(from, mid)
      ensures TookAll(mid, to) ==> TookAll(from, to)
      ensures RefusedLast(mid, to, ret) ==> RefusedLast(from, to, ret)
    {
    }

    twostate predicate Refused(ret: int)
      reads this
    {
      RefusedLast(old(bioWrites), bioWrites, ret)
    }

    twostate predicate Took()
      reads this
    {
      TookAll(old(bioWrites), bioWrites)
    }

    /** tls_seal_record: the bytes of the next record, unless it cannot be sealed in `maxOut` bytes. */
    function NextRecord(typ: byte, text: seq<byte>, maxOut: nat): (r: Option<seq<byte>>)
      reads `writeSeq, `maxSealOverhead
      ensures r.Some? ==> |r.value| <= maxOut && |r.value| <= |text| + maxSealOverhead
    {
      var r := outside.seal(writeSeq, typ, text);
      if r.None? || |r.value| > maxOut || |r.value| > |text| + maxSealOverhead then None else r
    }

    /**
     Some short write of the write buffer breaks conservation for some contents, if and only if its
     contents reach past 16 bits.
     */
    lemma ReachDecides()
      requires Valid() && writeBuffer.buf != null
      ensures (exists mem: seq<byte>, k: nat | |mem| == writeBuffer.buf.Length && k <= writeBuffer.size ::
                !AfterShortWrite(InOrder(accepted, Flight(), mem, writeBuffer.offset, writeBuffer.size), mem,
                                 writeBuffer.offset, writeBuffer.size, k).Conserved())
         <==> Reach() > TWO_16
    {
      hide Carried, Queues.Conserved, AfterShortWrite, InOrder, Consumed;
      ShortWritesConserve(accepted, Flight(), writeBuffer.buf.Length, writeBuffer.offset, writeBuffer.size);
    }

    /** What writing may change, and what it keeps. */
    twostate predicate OnlyMoves()
      reads this, writeBuffer, writeBuffer.buf
    {
      && sealed == old(sealed) && progress == old(progress) && (old(overrun) ==> overrun)
      && old(accepted) <= accepted
    }

    /** One turn of the loop of tls_write_buffer_flush. */
    method WriteSome() returns (ret: int)
      requires Steady() && writeBuffer.size > 0
      modifies this`accepted, this`overrun, this`bioWrites, writeBuffer
      ensures Steady() && bioWrites == old(bioWrites) + 1 && writeBuffer.buf == old(writeBuffer.buf)
      ensures old(accepted) <= accepted && (old(overrun) ==> overrun)
      ensures overrun && !old(overrun) ==> old(Reach()) > TWO_16
      ensures if outside.bio(old(bioWrites)) > 0
              then ret > 0 && writeBuffer.size < old(writeBuffer.size)
              else ret == outside.bio(old(bioWrites)) && writeBuffer.size == old(writeBuffer.size)
      ensures Reach() == old(Reach()) || (Reach() < old(Reach()) && (old(Reach()) > TWO_16 || writeBuffer.size == 0))
      ensures writeBuffer.size == old(writeBuffer.size) ==> writeBuffer.offset == old(writeBuffer.offset)
      ensures old(Reach()) <= TWO_16 ==>
        accepted + writeBuffer.Contents() == old(accepted) + old(writeBuffer.Contents())
    {
      hide Carried, Queues.Conserved, Buffer.Valid, Buffer.Contents, Consumed;
      ghost var q := Q();
      var data := writeBuffer.Data();
      ret := BioWrite(data);
      if ret <= 0 {
        return;
      }
      if !overrun {
        BufferDrains(q, ret);
      }
      if writeBuffer.offset + ret >= TWO_16 && ret < writeBuffer.size {
        overrun := true;
      }
      PassedOn(q.accepted, data, ret);
      writeBuffer.Consume(ret);
    }

    /** tls_write_buffer_flush. */
    method WriteBufferFlush() returns (ret: int)
      requires Valid()
      modifies this`accepted, this`overrun, this`bioWrites, writeBuffer
      ensures Valid() && OnlyMoves() && Reach() <= old(Reach())
      ensures overrun && !old(overrun) ==> old(Reach()) > TWO_16
      ensures old(Fits()) ==> Fits()
      // It ends when the buffer is empty or the BIO refuses, and has passed on what is gone.
      ensures if ret > 0 then ret == 1 && writeBuffer.Contents() == [] && Took() else Refused(ret)
      ensures old(Reach()) <= TWO_16 ==>
        accepted + writeBuffer.Contents() == old(accepted) + old(writeBuffer.Contents())
      ensures writeBuffer.buf == null || writeBuffer.buf == old(writeBuffer.buf)
    {
      hide Carried, Queues.Conserved, Buffer.Valid, Buffer.Contents, Room, Consumed;
      while writeBuffer.size > 0
        invariant Steady() && OnlyMoves() && Took()
        invariant old(Reach()) <= TWO_16 ==>
          accepted + writeBuffer.Contents() == old(accepted) + old(writeBuffer.Contents())
        invariant writeBuffer.buf == old(writeBuffer.buf)
        invariant Reach() == old(Reach()) ||
                  (Reach() < old(Reach()) && (old(Reach()) > TWO_16 || writeBuffer.size == 0))
        invariant writeBuffer.size == old(writeBuffer.size) ==> writeBuffer.offset == old(writeBuffer.offset)
        invariant overrun && !old(overrun) ==> old(Reach()) > TWO_16
        decreases writeBuffer.size
      {
        ret := WriteSome();
        if ret <= 0 {
          return;
        }
      }
      writeBuffer.Clear();
      return 1;
    }

    // =====================================================================
    // Handshake flights
    // =====================================================================

    /** A sealed record joins the flight. */
    method Queue(typ: byte, text: seq<byte>, record: seq<byte>)
      requires Valid() && pendingFlightOffset == 0 && pendingFlight.Some?
      requires outside.seal(writeSeq, typ, text) == Some(record)
      modifies this`pendingFlight, this`sealed, this`writeSeq, this`texts
      ensures Valid() && Flight() == old(Flight()) + record
      ensures sealed == old(sealed) + record && writeSeq == old(writeSeq) + 1
      ensures texts == old(texts) + [Plain(typ, text, true)]
    {
      hide Carried, Queues.Conserved, Buffer.Valid, Buffer.Contents;
      ghost var q := Q();
      if !overrun {
        FlightGrows(q, record);
      }
      OneMoreRecord(outside, texts, sealed, finished, progress, Plain(typ, text, true));
      pendingFlight := Some(pendingFlight.value + record);
      sealed, writeSeq, texts := sealed + record, writeSeq + 1, texts + [Plain(typ, text, true)];
    }

    /** add_record_to_flight, which is never called while a flight is being written out. */
    method AddRecordToFlight(typ: byte, text: seq<byte>) returns (ok: bool)
      requires Valid() && pendingFlightOffset == 0
      modifies this`pendingFlight, this`sealed, this`writeSeq, this`texts
      ensures Valid() && pendingFlightOffset == 0
      ensures ok <==> old(NextRecord(typ, text, |text| + maxSealOverhead)).Some?
      ensures !ok ==> sealed == old(sealed) && Flight() == old(Flight()) && writeSeq == old(writeSeq)
      ensures texts == if ok then old(texts) + [Plain(typ, text, true)] else old(texts)
      ensures ok ==> var record := old(NextRecord(typ, text, |text| + maxSealOverhead)).value;
        sealed == old(sealed) + record && Flight() == old(Flight()) + record && writeSeq == old(writeSeq) + 1
      // The flight still fits if and only if the record leaves room for a full one behind it.
      ensures Fits() <==>
        Reach() <= TWO_16 && old(Room(maxSendFragment)) + (|sealed| - |old(sealed)|) <= TWO_16
    {
      hide Carried, Queues.Conserved, Buffer.Valid, Buffer.Contents, Recorded;
      if pendingFlight.None? {
        pendingFlight := Some([]);
      }
      var record := NextRecord(typ, text, |text| + maxSealOverhead);
      if record.None? {
        return false;
      }
      Queue(typ, text, record.value);
      return true;
    }

    /** One turn of the loop of ssl3_flush_flight. */
    method WriteSomeFlight() returns (ret: int)
      requires Valid() && pendingFlight.Some? && writeBuffer.Contents() == [] && Flight() != []
      modifies this`accepted, this`bioWrites, this`pendingFlightOffset
      ensures Valid() && bioWrites == old(bioWrites) + 1 && old(accepted) <= accepted
      ensures if outside.bio(old(bioWrites)) > 0 then ret > 0 && pendingFlightOffset > old(pendingFlightOffset)
              else ret == outside.bio(old(bioWrites)) && pendingFlightOffset == old(pendingFlightOffset)
      ensures accepted + Flight() == old(accepted) + old(Flight())
    {
      hide Carried, Queues.Conserved, Buffer.Valid, Buffer.Contents;
      ghost var q := Q();
      ret := BioWrite(pendingFlight.value[pendingFlightOffset..]);
      if ret <= 0 {
        return;
      }
      if !overrun {
        FlightDrains(q, ret);
      }
      pendingFlightOffset := pendingFlightOffset + ret;
      assert Flight() == q.flight[ret..];
      PassedOn(q.accepted, q.flight, ret);
    }

    /** The loop of ssl3_flush_flight, once the write buffer is empty. */
    method WriteFlight() returns (ret: int)
      requires Valid() && pendingFlight.Some? && writeBuffer.Contents() == []
      modifies this`accepted, this`bioWrites, this`pendingFlightOffset
      ensures Valid() && old(accepted) <= accepted && |Flight()| <= old(|Flight()|)
      ensures if ret > 0 then ret == 1 && pendingFlightOffset == |pendingFlight.value| && Took() else Refused(ret)
      ensures accepted + Flight() == old(accepted) + old(Flight())
    {
      hide Carried, Queues.Conserved, Buffer.Valid, Buffer.Contents, Q;
      while pendingFlightOffset < |pendingFlight.value|
        invariant Valid() && old(accepted) <= accepted && old(pendingFlightOffset) <= pendingFlightOffset && Took()
        invariant accepted + Flight() == old(accepted) + old(Flight())
        decreases |pendingFlight.value| - pendingFlightOffset
      {
        ret := WriteSomeFlight();
        if ret <= 0 {
          return;
        }
      }
      return 1;
    }

    /** Pending data in the write buffer goes out before any new data in the flight. */
    method WriteQueues() returns (ret: int)
      requires Valid() && pendingFlight.Some?
      modifies this`accepted, this`overrun, this`bioWrites, this`pendingFlightOffset, writeBuffer
      ensures Valid() && OnlyMoves() && Reach() <= old(Reach()) && |Flight()| <= old(|Flight()|)
      ensures overrun && !old(overrun) ==> old(Reach()) > TWO_16
      ensures if ret > 0
              then ret == 1 && writeBuffer.Contents() == [] && pendingFlightOffset == |pendingFlight.value| && Took()
              else Refused(ret)
      ensures writeBuffer.buf == null || writeBuffer.buf == old(writeBuffer.buf)
    {
      hide Recorded, Carried, Queues.Conserved, Buffer.Valid, Buffer.Contents, TookAll, Fits;
      NoneTaken(bioWrites);
      if writeBuffer.size > 0 {
        ret := WriteBufferFlush();
        if ret <= 0 {
          return;
        }
      }
      ghost var mid := bioWrites;
      ret := WriteFlight();
      TookThen(old(bioWrites), mid, bioWrites, ret);
    }

    /** ssl3_flush_flight. */
    method FlushFlight() returns (ret: int)
      requires Valid()
      modifies this`accepted, this`overrun, this`bioWrites, this`bioFlushes, this`pendingFlight,
               this`pendingFlightOffset, writeBuffer
      ensures Valid() && OnlyMoves() && Reach() <= old(Reach())
      ensures overrun && !old(overrun) ==> old(Reach()) > TWO_16
      ensures old(Fits()) ==> Fits()
      ensures ret > 0 ==> ret == 1 && pendingFlight.None?
      ensures old(pendingFlight).None? ==> ret == 1 && accepted == old(accepted)
      // It fails only after a shutdown, for a flight too long to write, or where the BIO does.
      ensures ret <= 0 ==>
        || (ret == -1 && (writeShutdown != NotShutdown || |old(pendingFlight).value| > INT_MAX))
        || Refused(ret)
        || (ret == -1 && bioFlushes == old(bioFlushes) + 1 && outside.flush(old(bioFlushes)) <= 0)
      ensures ret > 0 && old(pendingFlight).Some? ==>
        && writeBuffer.Contents() == [] && Took()
        && writeShutdown == NotShutdown && |old(pendingFlight).value| <= INT_MAX
        && bioFlushes == old(bioFlushes) + 1 && outside.flush(old(bioFlushes)) > 0
      ensures writeBuffer.buf == null || writeBuffer.buf == old(writeBuffer.buf)
    {
      hide Recorded, Carried, Queues.Conserved, Buffer.Valid, Buffer.Contents;
      if pendingFlight.None? {
        return 1;
      }
      if writeShutdown != NotShutdown {
        return -1;
      }
      if |pendingFlight.value| > INT_MAX {
        return -1;
      }
      ret := WriteQueues();
      if ret <= 0 {
        return;
      }
      var flushed := BioFlush();
      if flushed <= 0 {
        return -1;
      }
      DropFlight();
      return 1;
    }

    /** The flight is written. */
    method DropFlight()
      requires Valid() && pendingFlight.Some? && pendingFlightOffset == |pendingFlight.value|
      modifies this`pendingFlight, this`pendingFlightOffset
      ensures Valid() && pendingFlight.None? && Flight() == [] == old(Flight())
    {
      hide Carried, Queues.Conserved, Buffer.Valid, Buffer.Contents;
      ghost var q := Q();
      pendingFlight := None;
      pendingFlightOffset := 0;
      assert Q() == q;
    }

    // =====================================================================
    // Records from the write buffer
    // =====================================================================

    /** The arguments are those of the pending record, or longer. */
    ghost predicate Retries(typ: byte, addr: int, len: nat)
      reads `wpendTot, `movingBuffer, `wpendBuf, `wpendType
    {
      wpendTot <= len && (movingBuffer || wpendBuf == addr) && wpendType == typ
    }

    /** ssl3_write_pending. */
    method WritePending(typ: byte, addr: int, len: nat) returns (ret: int)
      requires Valid() && wpendPending
      modifies this`accepted, this`overrun, this`bioWrites, this`wpendPending, writeBuffer
      ensures Valid() && OnlyMoves() && Reach() <= old(Reach())
      ensures overrun && !old(overrun) ==> old(Reach()) > TWO_16
      ensures old(Fits()) ==> Fits()
      ensures wpendPending <==> ret <= 0
      ensures if !old(Retries(typ, addr, len)) then ret == -1 && accepted == old(accepted)
              else (ret > 0 && Took()) || Refused(ret)
      ensures bioWrites >= old(bioWrites)
      ensures ret > 0 ==> ret == wpendTot <= len && typ == wpendType && writeBuffer.Contents() == []
      ensures writeBuffer.buf == null || writeBuffer.buf == old(writeBuffer.buf)
    {
      if wpendTot > len || (!movingBuffer && wpendBuf != addr) || wpendType != typ {
        return -1;
      }
      ret := WriteBufferFlush();
      if ret <= 0 {
        return;
      }
      wpendPending := false;
      return wpendRet;
    }

    /**
     do_ssl3_write. An unsent record is flushed; otherwise the unflushed part of the flight and
     then a new record go through the write buffer.
     */
    method DoWrite(typ: byte, addr: int, text: seq<byte>) returns (ret: int)
      requires Valid()
      modifies Repr()
      ensures Valid() && old(sealed) <= sealed && (old(overrun) ==> overrun) && old(accepted) <= accepted
      ensures fresh(Repr() - old(Repr()))
      ensures old(Fits()) && |text| <= maxSendFragment ==> Fits() && (overrun ==> old(overrun))
      ensures Unsettled() == old(Unsettled())
      ensures progress == old(progress) ||
              (typ == RT_APPLICATION_DATA && progress == old(progress) + text && !old(wpendPending))
      ensures old(wpendPending) ==>
        progress == old(progress) && wpendTot == old(wpendTot) && wpendType == old(wpendType)
      ensures old(wpendPending) && wpendPending ==> ret <= 0
      ensures ret > 0 ==> !wpendPending && ret <= |text| && writeBuffer.Contents() == []
      ensures ret > 0 && old(wpendPending) ==> ret == old(wpendTot) && old(wpendType) == typ
      ensures ret > 0 ==> Took()
      ensures ret > 0 && !old(wpendPending) ==>
        ret == |text| && (typ == RT_APPLICATION_DATA ==> progress == old(progress) + text)
      // A new record carries this text, behind the flight; while one is pending there is no other.
      ensures texts == if !old(wpendPending) && (ret > 0 || wpendPending) then old(texts) + [Plain(typ, text, false)]
                       else old(texts)
      ensures !old(wpendPending) && (ret > 0 || wpendPending) ==> pendingFlight.None?
      ensures ret <= 0 && !old(wpendPending) && wpendPending ==>
        wpendTot == |text| && wpendType == typ &&
        (typ == RT_APPLICATION_DATA ==> progress == old(progress) + text)
      ensures ret <= 0 && !wpendPending ==> !old(wpendPending) && progress == old(progress)
      // It fails only for what it is given, for want of memory or a record, or where the BIO does.
      ensures ret <= 0 ==>
        || Refused(ret)
        || (if old(wpendPending) then !old(Retries(typ, addr, |text|))
            else if |text| > MAX_PLAIN_LENGTH || old(writeBuffer.size) > 0 then ret == -1
            else if |text| == 0 then ret == 0
            else ret == -1 && !old(CanPut(typ, text)))
      ensures allocs >= old(allocs) && writeSeq >= old(writeSeq) && bioWrites >= old(bioWrites)
      ensures old(FlightOk()) && |Flight()| <= old(|Flight()|)
    {
      hide Carried, Queues.Conserved, Buffer.Valid, Buffer.Contents, Steady, Flight, FlightOk, CanPut, TookAll;
      FlightIsOk();
      if wpendPending {
        ret := WritePending(typ, addr, |text|);
        return;
      }
      if |text| > MAX_PLAIN_LENGTH || writeBuffer.size > 0 {
        return -1;
      }
      if |text| == 0 {
        return 0;
      }
      ret := WriteNew(typ, addr, text);
    }

    /** A new record: put behind the flight, and written. */
    method WriteNew(typ: byte, addr: int, text: seq<byte>) returns (ret: int)
      requires Valid() && writeBuffer.size == 0 && !wpendPending && |text| > 0
      modifies Repr()
      ensures Valid() && old(sealed) <= sealed && (old(overrun) ==> overrun) && old(accepted) <= accepted
      ensures fresh(Repr() - old(Repr())) && Unsettled() == old(Unsettled())
      ensures old(Fits()) && |text| <= maxSendFragment ==> Fits() && (overrun ==> old(overrun))
      ensures wpendPending <==> old(CanPut(typ, text)) && ret <= 0
      ensures old(CanPut(typ, text)) ==> pendingFlight.None?
      ensures texts == if old(CanPut(typ, text)) then old(texts) + [Plain(typ, text, false)] else old(texts)
      ensures progress == if old(CanPut(typ, text)) && typ == RT_APPLICATION_DATA then old(progress) + text
                          else old(progress)
      ensures wpendPending ==> wpendTot == |text| && wpendType == typ
      ensures ret > 0 ==> ret == |text| && writeBuffer.Contents() == []
      ensures if old(CanPut(typ, text)) then (ret > 0 && Took()) || Refused(ret) else ret == -1
      ensures allocs >= old(allocs) && writeSeq >= old(writeSeq) && bioWrites >= old(bioWrites)
      ensures old(FlightOk()) && |Flight()| <= old(|Flight()|)
    {
      hide Carried, Queues.Conserved, Buffer.Valid, Buffer.Contents, Steady, Flight, FlightOk, CanPut,
        TookAll, RefusedLast;
      FlightIsOk();
      var ok := PutRecord(typ, addr, text);
      if !ok {
        return -1;
      }
      ret := WritePending(typ, addr, |text|);
    }

    lemma FlightIsOk()
      requires Valid()
      ensures FlightOk()
    {
    }

    /** There is room or memory for the flight and the record, and the cipher seals it. */
    ghost predicate CanPut(typ: byte, text: seq<byte>)
      requires FlightOk()
      reads this, writeBuffer
    {
      var needed := |Flight()| + |text| + maxSealOverhead;
      && needed <= MAX_CAP && (writeBuffer.cap >= needed || outside.memory(allocs).Some?)
      && outside.seal(writeSeq, typ, text).Some?
      && |outside.seal(writeSeq, typ, text).value| <= |text| + maxSealOverhead
    }

    /** Flight, record, and the arguments memorized so that bad write retries are detected later. */
    method PutRecord(typ: byte, addr: int, text: seq<byte>) returns (ok: bool)
      requires Valid() && writeBuffer.size == 0 && !wpendPending && |text| > 0
      modifies this`pendingFlight, this`pendingFlightOffset, this`allocs, this`sealed, this`writeSeq, this`progress,
               this`texts, this`wpendTot, this`wpendBuf, this`wpendType, this`wpendRet, this`wpendPending,
               writeBuffer, writeBuffer.buf
      ensures Valid() && old(sealed) <= sealed
      ensures writeBuffer.buf == old(writeBuffer.buf) || fresh(writeBuffer.buf)
      ensures wpendPending == ok == old(CanPut(typ, text)) && (ok ==> pendingFlight.None?)
      ensures texts == if ok then old(texts) + [Plain(typ, text, false)] else old(texts)
      ensures |Flight()| <= old(|Flight()|) && Reach() <= old(Room(|text|))
      ensures allocs >= old(allocs) && writeSeq >= old(writeSeq)
      ensures ok ==> wpendTot == |text| && wpendType == typ && wpendBuf == addr
      ensures progress == if ok && typ == RT_APPLICATION_DATA then old(progress) + text else old(progress)
    {
      hide Carried, Queues.Conserved, Buffer.Contents, Buffer.Valid, Steady, Flight, FlightOk;
      FlightIsOk();
      ok := MoveFlight(|text| + maxSealOverhead);
      if !ok {
        return;
      }
      ok := SealIntoBuffer(typ, text);
      if !ok {
        return;
      }
      Memorize(typ, addr, |text|);
    }

    /** What a retry of this write is compared with. */
    method Memorize(typ: byte, addr: int, len: nat)
      requires Valid() && len > 0
      modifies this`wpendTot, this`wpendBuf, this`wpendType, this`wpendRet, this`wpendPending
      ensures Valid() && wpendPending && wpendTot == len && wpendBuf == addr && wpendType == typ
    {
      hide Carried, Queues.Conserved, Buffer.Contents, Buffer.Valid;
      wpendTot, wpendBuf, wpendType, wpendRet, wpendPending := len, addr, typ, len, true;
    }

    /** The fields that writing records leaves alone. */
    ghost function Unsettled(): (Shutdown, nat, nat, nat, bool, bool, bool, bool, nat, seq<byte>)
      reads this
    {
      (writeShutdown, wnum, maxSendFragment, maxSealOverhead, partialWrite, movingBuffer, inEarlyData, canEarlyWrite,
       earlyDataWritten, finished)
    }

    /**
     The unflushed handshake data goes before anything new in the write buffer, if the buffer has
     or gets `space` more bytes.
     */
    method MoveFlight(space: nat) returns (ok: bool)
      requires Valid() && writeBuffer.size == 0
      modifies this`pendingFlight, this`pendingFlightOffset, this`allocs, writeBuffer, writeBuffer.buf
      ensures Valid() && allocs >= old(allocs)
      ensures writeBuffer.buf == old(writeBuffer.buf) || fresh(writeBuffer.buf)
      ensures ok <==> var needed := |old(Flight())| + space;
        needed <= MAX_CAP && (old(writeBuffer.cap) >= needed || outside.memory(old(allocs)).Some?)
      ensures if ok then pendingFlight.None? && writeBuffer.Contents() == old(Flight())
              else Flight() == old(Flight()) && writeBuffer.Contents() == []
      ensures ok ==> writeBuffer.cap - writeBuffer.size >= space
      ensures ok && old(writeBuffer.cap) == 0 < space ==>
        && writeBuffer.offset == outside.memory(old(allocs)).value % ALIGN_PAYLOAD
        && writeBuffer.cap == |old(Flight())| + space
      ensures |Flight()| <= old(|Flight()|)
      ensures Reach() < ALIGN_PAYLOAD + |old(Flight())| && writeBuffer.offset < ALIGN_PAYLOAD
    {
      hide Recorded, Carried, Queues.Conserved, Buffer.Valid, Buffer.Contents;
      var flight := if pendingFlight.None? then [] else pendingFlight.value[pendingFlightOffset..];
      ok := writeBuffer.EnsureCap(|flight| + space, outside.memory(allocs));
      allocs := allocs + 1;
      if ok && pendingFlight.Some? {
        if !overrun {
          FlightMoves(Q());
        }
        pendingFlight := None;
        pendingFlightOffset := 0;
        writeBuffer.Append(flight);
        assert [] + flight == flight;
      }
    }

    /** A sealed record goes behind whatever the write buffer holds. */
    method Put(typ: byte, text: seq<byte>, record: seq<byte>)
      requires Valid() && pendingFlight.None? && |record| <= writeBuffer.cap - writeBuffer.size
      requires outside.seal(writeSeq, typ, text) == Some(record)
      modifies this`sealed, this`writeSeq, this`progress, this`texts, writeBuffer, writeBuffer.buf
      ensures Valid() && writeBuffer.buf == old(writeBuffer.buf)
      ensures sealed == old(sealed) + record && writeSeq == old(writeSeq) + 1
      ensures texts == old(texts) + [Plain(typ, text, false)]
      ensures writeBuffer.Contents() == old(writeBuffer.Contents()) + record
      ensures Reach() == old(Reach()) + |record|
      ensures progress == if typ == RT_APPLICATION_DATA then old(progress) + text else old(progress)
    {
      hide Carried, Queues.Conserved, Buffer.Contents;
      ghost var q := Q();
      if !overrun {
        BufferGrows(q, record);
      }
      OneMoreRecord(outside, texts, sealed, finished, progress, Plain(typ, text, false));
      writeBuffer.Append(record);
      sealed, writeSeq, texts := sealed + record, writeSeq + 1, texts + [Plain(typ, text, false)];
      if typ == RT_APPLICATION_DATA {
        progress := progress + text;
      }
    }

    /** The new record, sealed behind whatever the write buffer holds. */
    method SealIntoBuffer(typ: byte, text: seq<byte>) returns (ok: bool)
      requires Valid() && pendingFlight.None?
      modifies this`sealed, this`writeSeq, this`progress, this`texts, writeBuffer, writeBuffer.buf
      ensures Valid() && old(sealed) <= sealed
      ensures ok <==> old(NextRecord(typ, text, writeBuffer.cap - writeBuffer.size)).Some?
      ensures !ok ==> sealed == old(sealed) && writeSeq == old(writeSeq)
      ensures texts == if ok then old(texts) + [Plain(typ, text, false)] else old(texts)
      ensures !ok ==> writeBuffer.Contents() == old(writeBuffer.Contents())
      ensures ok ==> var record := old(NextRecord(typ, text, writeBuffer.cap - writeBuffer.size)).value;
        && sealed == old(sealed) + record && writeSeq == old(writeSeq) + 1
        && writeBuffer.Contents() == old(writeBuffer.Contents()) + record
        && Reach() == old(Reach()) + |record|
      ensures Reach() <= old(Reach()) + |text| + maxSealOverhead
      ensures writeBuffer.buf == old(writeBuffer.buf)
      ensures progress == if ok && typ == RT_APPLICATION_DATA then old(progress) + text else old(progress)
    {
      hide Carried, Queues.Conserved, Buffer.Contents, Recorded;
      var record := NextRecord(typ, text, writeBuffer.cap - writeBuffer.size);
      if record.None? {
        return false;
      }
      Put(typ, text, record.value);
      return true;
    }

    // =====================================================================
    // Application data
    // =====================================================================

    /** The part of `progress` in the record that waits in the write buffer. */
    ghost function Pending(): nat
      reads this
    {
      if wpendPending && wpendType == RT_APPLICATION_DATA then wpendTot else 0
    }

    /** The write can be taken up again where it stopped. */
    ghost predicate Resumable()
      reads this
    {
      |progress| == wnum + Pending()
    }

    /** There is memory and the cipher seals from now on, and a full record fits behind the flight. */
    ghost predicate Supplied()
      requires FlightOk()
      reads `allocs, `writeSeq, `maxSendFragment, `maxSealOverhead, `pendingFlight, `pendingFlightOffset
    {
      && (forall i: nat :: i >= allocs ==> outside.memory(i).Some?)
      && (forall n: nat, t, x :: n >= writeSeq && |x| <= maxSendFragment ==>
            outside.seal(n, t, x).Some? && |outside.seal(n, t, x).value| <= |x| + maxSealOverhead)
      && maxSendFragment <= MAX_PLAIN_LENGTH && |Flight()| + maxSendFragment + maxSealOverhead <= MAX_CAP
    }

    /** The plaintext of one turn, of `n` bytes to go. */
    ghost function Turn(n: nat, isEarlyDataWrite: bool): nat
      reads `maxSendFragment, `earlyDataWritten
    {
      var max := if isEarlyDataWrite && earlyDataWritten <= ticketMaxEarlyData
                 then Min(maxSendFragment, ticketMaxEarlyData - earlyDataWritten) else maxSendFragment;
      Min(n, max)
    }

    /** A record that is pending is retried; otherwise the buffer is empty. */
    ghost predicate Unhindered(addr: int, len: nat)
      reads `wpendPending, `wpendTot, `movingBuffer, `wpendBuf, `wpendType, writeBuffer
    {
      if wpendPending then Retries(RT_APPLICATION_DATA, addr, len) else writeBuffer.size == 0
    }

    lemma SuppliedPuts(typ: byte, text: seq<byte>)
      requires FlightOk() && Supplied() && |text| <= maxSendFragment
      ensures CanPut(typ, text) && |text| <= MAX_PLAIN_LENGTH
    {
    }

    /** Calls that went well leave less to refuse. */
    twostate lemma SuppliedStays()
      requires old(FlightOk()) && FlightOk() && old(Supplied())
      requires allocs >= old(allocs) && writeSeq >= old(writeSeq)
      requires |Flight()| <= old(|Flight()|)
      requires maxSendFragment == old(maxSendFragment) && maxSealOverhead == old(maxSealOverhead)
      ensures Supplied()
    {
    }

    /** do_ssl3_write of application data. Where nothing else refuses, a failure is the BIO's. */
    method WriteRecord(addr: int, text: seq<byte>) returns (ret: int)
      requires Valid() && |text| <= maxSendFragment
      modifies Repr()
      ensures Valid() && fresh(Repr() - old(Repr())) && Unsettled() == old(Unsettled())
      ensures old(Fits()) ==> Fits() && (overrun ==> old(overrun))
      ensures progress == old(progress) || (progress == old(progress) + text && !old(wpendPending))
      ensures old(wpendPending) ==>
        progress == old(progress) && wpendTot == old(wpendTot) && wpendType == old(wpendType)
      ensures old(wpendPending) && wpendPending ==> ret <= 0
      ensures ret > 0 ==> !wpendPending && writeBuffer.Contents() == []
      ensures ret > 0 && old(wpendPending) ==> ret == old(wpendTot) <= |text| && old(wpendType) == RT_APPLICATION_DATA
      ensures ret > 0 && !old(wpendPending) ==> ret == |text| && progress == old(progress) + text
      ensures ret <= 0 && !old(wpendPending) && wpendPending ==>
        wpendTot == |text| && wpendType == RT_APPLICATION_DATA && progress == old(progress) + text
      ensures ret <= 0 && !wpendPending ==> !old(wpendPending) && progress == old(progress)
      ensures old(FlightOk()) && (old(Supplied()) ==> Supplied())
      ensures ret > 0 ==> Took()
      ensures old(Supplied() && Unhindered(addr, |text|)) && text != [] ==> ret > 0 || Refused(ret)
    {
      hide Carried, Queues.Conserved, Buffer.Contents, Buffer.Valid, Fits, Supplied, Flight, FlightOk, CanPut,
        Steady, TookAll, RefusedLast;
      FlightIsOk();
      if Supplied() {
        SuppliedPuts(RT_APPLICATION_DATA, text);
      }
      ret := DoWrite(RT_APPLICATION_DATA, addr, text);
      FlightIsOk();
      if old(Supplied()) {
        SuppliedStays();
      }
    }

    /** One turn of the loop of ssl3_write_app_data, from offset `tot`. */
    method WriteChunk(addr: int, data: seq<byte>, tot: nat, isEarlyDataWrite: bool)
      returns (ret: int, needsHandshake: bool)
      requires Valid() && tot <= |data| && |progress| == tot + Pending() && Agree(progress, data)
      requires isEarlyDataWrite ==> inEarlyData
      modifies Repr()
      ensures Valid() && fresh(Repr() - old(Repr()))
      ensures old(progress) <= progress && |progress| == tot + (if ret > 0 then ret else Pending())
      ensures Agree(progress, data)
      ensures wnum == old(wnum) && inEarlyData == old(inEarlyData) && partialWrite == old(partialWrite)
      ensures finished == old(finished) && FlightOk() && (ret > 0 ==> writeBuffer.size == 0)
      ensures maxSendFragment == old(maxSendFragment) && maxSealOverhead == old(maxSealOverhead)
      ensures old(Fits()) ==> Fits() && (overrun ==> old(overrun))
      ensures ret > 0 ==>
        !wpendPending && writeBuffer.Contents() == [] && tot + ret <= |data| && progress == data[..tot + ret]
      ensures needsHandshake <==> isEarlyDataWrite && old(earlyDataWritten) == ticketMaxEarlyData
      ensures needsHandshake ==> ret == -1 && !canEarlyWrite
      ensures !needsHandshake ==> canEarlyWrite == old(canEarlyWrite)
      // Early data is counted as it is written.
      ensures earlyDataWritten == old(earlyDataWritten) + if isEarlyDataWrite && ret > 0 then ret else 0
      ensures old(Supplied()) ==> Supplied()
      ensures old(Supplied() && tot < |data| && Unhindered(addr + tot, Turn(|data| - tot, isEarlyDataWrite))) &&
              !needsHandshake ==>
        Refused(ret) ||
        0 < ret == if old(wpendPending) then old(wpendTot) else old(Turn(|data| - tot, isEarlyDataWrite))
      ensures ret > 0 ==> Took()
    {
      hide Carried, Queues.Conserved, Buffer.Contents, Buffer.Valid, Fits, Supplied, Flight, FlightOk, CanPut,
        Retries, TookAll, RefusedLast;
      needsHandshake := false;
      var n := |data| - tot;
      var max := maxSendFragment;
      if isEarlyDataWrite && max > ticketMaxEarlyData - earlyDataWritten {
        max := ticketMaxEarlyData - earlyDataWritten;
        if max == 0 {
          canEarlyWrite := false;
          return -1, true;
        }
      }
      var nw := if n > max then max else n;
      AgreeMore(progress, data, tot, nw);
      ret := WriteRecord(addr + tot, data[tot..tot + nw]);
      if ret > 0 && isEarlyDataWrite {
        earlyDataWritten := earlyDataWritten + ret;
      }
    }

    method StopAt(tot: nat)
      requires Valid()
      modifies this`wnum
      ensures Valid() && wnum == tot
    {
      hide Carried, Queues.Conserved, Buffer.Contents, Buffer.Valid;
      wnum := tot;
    }

    /** The write is over; the next one begins with nothing sealed. */
    method EndWrite() returns (ghost written: seq<byte>)
      requires Valid()
      modifies this`progress, this`finished
      ensures Valid() && progress == [] && written == old(progress) && finished == old(finished) + written
    {
      hide Carried, Queues.Conserved, Buffer.Contents, Buffer.Valid;
      written := progress;
      WriteIsOver(outside, texts, sealed, finished, progress);
      finished, progress := finished + progress, [];
    }

    /** The loop of ssl3_write_app_data, from where the write stopped. */
    method WriteFrom(addr: int, data: seq<byte>, start: nat, isEarlyDataWrite: bool)
      returns (ret: int, needsHandshake: bool, ghost written: seq<byte>)
      requires Valid() && start <= |data| && wnum == 0 && |progress| == start + Pending() && Agree(progress, data)
      requires isEarlyDataWrite ==> inEarlyData
      modifies Repr()
      ensures Valid() && fresh(Repr() - old(Repr())) && partialWrite == old(partialWrite)
      ensures old(Fits()) ==> Fits() && (overrun ==> old(overrun))
      ensures ret <= 0 ==> Resumable() && wnum >= start && old(progress) <= progress && Agree(progress, data)
      ensures ret > 0 ==>
        && |data| >= ret >= start && written == data[..ret] && old(progress) <= written
        && progress == [] && wnum == 0 && !wpendPending && writeBuffer.Contents() == []
        && (ret == |data| || partialWrite)
      ensures finished == if ret > 0 then old(finished) + written else old(finished)
      ensures needsHandshake ==> ret == -1 && earlyDataWritten == ticketMaxEarlyData
      ensures earlyDataWritten == old(earlyDataWritten) +
        if isEarlyDataWrite then (if ret > 0 then ret else wnum) - start else 0
      ensures
        !isEarlyDataWrite && old(start < |data| && Supplied() && Unhindered(addr + start, Turn(|data| - start, false)))
        ==> Refused(ret) ||
            ret == if !partialWrite then |data|
                   else start + if old(wpendPending) then old(wpendTot) else old(Turn(|data| - start, false))
    {
      hide Valid, Carried, Queues.Conserved, Buffer.Contents, Buffer.Valid, Fits, Supplied, Flight, FlightOk, CanPut,
        TookAll, RefusedLast, Turn, Retries, Agree, Recorded, Steady;
      FlightIsOk();
      NoneTaken(bioWrites);
      var tot, n := start, |data| - start;
      ghost var supplied := n > 0 && Supplied() && !isEarlyDataWrite && Unhindered(addr + tot, Turn(n, false));
      while true
        invariant Valid() && FlightOk() && fresh(Repr() - old(Repr()))
        invariant wnum == 0 && start <= tot <= |data| && n == |data| - tot
        invariant |progress| == tot + Pending() && old(progress) <= progress && Agree(progress, data)
        invariant isEarlyDataWrite ==> inEarlyData
        invariant old(Fits()) ==> Fits() && (overrun ==> old(overrun))
        invariant partialWrite == old(partialWrite) && maxSendFragment == old(maxSendFragment)
        invariant earlyDataWritten == old(earlyDataWritten) + if isEarlyDataWrite then tot - start else 0
        invariant supplied ==> n > 0 && Supplied() && Unhindered(addr + tot, Turn(n, false))
        invariant Took() && finished == old(finished)
        invariant partialWrite ==> tot == start && wpendPending == old(wpendPending) && wpendTot == old(wpendTot)
        decreases n
      {
        ghost var mid := bioWrites;
        ret, needsHandshake := WriteChunk(addr, data, tot, isEarlyDataWrite);
        TookThen(old(bioWrites), mid, bioWrites, ret);
        if ret <= 0 {
          StopAt(tot);
          return ret, needsHandshake, [];
        }
        if ret == n || partialWrite {
          written := EndWrite();
          return tot + ret, false, written;
        }
        n := n - ret;
        tot := tot + ret;
      }
    }

    /**
     ssl3_write_app_data. A caller that was told to retry passes the same data again. `written`
     is the plaintext sealed for this write when it returns a count.
     */
    method WriteAppData(addr: int, data: seq<byte>, len: int)
      returns (ret: int, needsHandshake: bool, ghost written: seq<byte>)
      requires Valid() && Resumable() && |data| == (if len < 0 then 0 else len)
      requires Agree(progress, data)
      modifies Repr()
      ensures Valid() && fresh(Repr() - old(Repr()))
      ensures old(Fits()) ==> Fits() && (overrun ==> old(overrun))
      ensures old(writeShutdown) != NotShutdown ==> ret == -1 && progress == old(progress) && Resumable()
      // A length below what was already sealed is refused, but the position is forgotten.
      ensures old(writeShutdown) == NotShutdown && len < old(wnum) ==>
        ret == -1 && wnum == 0 && progress == old(progress) && Pending() == old(Pending())
      ensures old(writeShutdown) == NotShutdown && len >= old(wnum) && ret <= 0 ==>
        Resumable() && old(progress) <= progress && Agree(progress, data)
      ensures ret > 0 ==>
        && len >= ret && written == data[..ret] && old(progress) <= written
        && progress == [] && wnum == 0 && !wpendPending && writeBuffer.Contents() == []
        && (ret == len || partialWrite)
      // The plaintext of all writes that are over is in the records that were sealed, in order.
      ensures finished == if ret > 0 then old(finished) + written else old(finished)
      ensures needsHandshake ==> ret == -1 && earlyDataWritten == ticketMaxEarlyData
      // What was written early was counted, and stays within the ticket's limit.
      ensures earlyDataWritten == old(earlyDataWritten) +
        if old(inEarlyData && canEarlyWrite && writeShutdown == NotShutdown && wnum <= len)
        then (if ret > 0 then ret else wnum) - old(wnum) else 0
      // All is written, or with partial writes the first turn, if only the BIO could refuse and does not.
      ensures old(writeShutdown == NotShutdown && wnum < len && Supplied() && !(inEarlyData && canEarlyWrite)) &&
              old(Unhindered(addr + wnum, Turn(len - wnum, false))) ==>
        Refused(ret) ||
        ret == if !partialWrite then len
               else old(wnum) + if old(wpendPending) then old(wpendTot) else old(Turn(len - wnum, false))
    {
      hide Carried, Queues.Conserved, Buffer.Contents, Buffer.Valid, Fits, Supplied, Flight, FlightOk, CanPut, Retries;
      needsHandshake, written := false, [];
      if writeShutdown != NotShutdown {
        return -1, false, [];
      }
      var tot := wnum;
      wnum := 0;
      if len < 0 || len < tot {
        return -1, false, [];
      }
      ret, needsHandshake, written := WriteFrom(addr, data, tot, inEarlyData && canEarlyWrite);
    }
  }

  function Zeros(n: nat): (s: seq<byte>)
    ensures |s| == n
  {
    seq(n, i => 0)
  }

  /** An allocator whose record bodies lie 7 bytes in, and a cipher that adds 29 bytes to a record. */
  function AtSeven(): Outside {
    Outside(n => 1, n => 1, n => Some(7), (n, typ, text) => Some(text + Zeros(29)))
  }

  /** Three full records of a flight. */
  method LongFlight() returns (w: TlsWriter)
    ensures w.Valid() && !w.overrun && !w.wpendPending && w.accepted == [] && fresh(w.Repr())
    ensures w.maxSendFragment == MAX_PLAIN_LENGTH && w.maxSealOverhead == 29
    ensures w.writeBuffer.buf == null && |w.Flight()| == 3 * (MAX_PLAIN_LENGTH + 29)
    ensures w.outside == AtSeven()
  {
    hide Carried, Queues.Conserved, Buffer.Contents, TlsWriter.Fits;
    w := new TlsWriter(MAX_PLAIN_LENGTH, 29, false, false, 0, AtSeven());
    for i := 0 to 3
      invariant w.Valid() && w.outside == AtSeven() && w.maxSealOverhead == 29 && w.maxSendFragment == MAX_PLAIN_LENGTH
      invariant fresh(w.Repr()) && w.pendingFlightOffset == 0 && |w.Flight()| == i * (MAX_PLAIN_LENGTH + 29)
      invariant w.writeBuffer.buf == null && !w.overrun && !w.wpendPending && w.accepted == []
    {
      var ok := w.AddRecordToFlight(RT_HANDSHAKE, Zeros(MAX_PLAIN_LENGTH));
    }
  }

  /**
   A writer gets there: three full records of a flight, and a record of application data behind
   them, in an allocation whose record body lies 7 bytes in.
   */
  method PastSixteenBits() returns (w: TlsWriter)
    ensures w.Valid() && !w.overrun && w.wpendPending && w.Reach() > TWO_16
    ensures w.maxSendFragment == MAX_PLAIN_LENGTH && w.accepted == []
  {
    hide Carried, Queues.Conserved, Buffer.Contents, TlsWriter.Fits;
    w := LongFlight();
    var text := Zeros(MAX_CAP - 3 * (MAX_PLAIN_LENGTH + 29) - 29);
    var moved := w.MoveFlight(|text| + 29);
    var record := w.SealIntoBuffer(RT_APPLICATION_DATA, text);
    w.Memorize(RT_APPLICATION_DATA, 0, |text|);
  }

  /** One is a prefix of the other. */
  ghost predicate Agree(a: seq<byte>, b: seq<byte>) {
    forall k :: 0 <= k < |a| && k < |b| ==> a[k] == b[k]
  }

  lemma AgreeMore(progress: seq<byte>, data: seq<byte>, tot: nat, nw: nat)
    requires Agree(progress, data) && tot + nw <= |data|
    ensures |progress| == tot ==>
      progress + data[tot..tot + nw] == data[..tot + nw] && Agree(progress + data[tot..tot + nw], data)
    ensures |progress| <= |data| ==> progress == data[..|progress|]
  {
  }
}
