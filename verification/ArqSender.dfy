/** What a sender transmits: only fragments of the datagrams it accepted, under their ids. */
module ArqSender {
  import opened Words
  import opened FramingV3
  import opened FragmentV3
  import opened DatagramPool
  import opened ArqState
  import opened ArqInvariant
  import opened ArqReceiver

  /** The accepted datagrams by id: the k-th one got the k-th id after the first. */
  function BookOf(first: uint16, submitted: seq<Bytes>): Book {
    if |submitted| == 0 then map[]
    else BookOf(first, submitted[..|submitted| - 1])[(first + |submitted| - 1) % 0x1_0000 := submitted[|submitted| - 1]]
  }

  function BookFor(s: Engine): Book {
    BookOf(s.config.initialDatagramId, s.submitted)
  }

  function Position(first: uint16, id: uint16): nat {
    (id - first) % 0x1_0000
  }

  /** As long as ids are not reused, a datagram is found by its id's distance from the first. */
  lemma {:induction false} BookIsSubmissions(first: uint16, submitted: seq<Bytes>)
    requires |submitted| <= 0x1_0000
    ensures forall id: uint16 :: id in BookOf(first, submitted) <==> Position(first, id) < |submitted|
    ensures forall id: uint16 :: id in BookOf(first, submitted) ==>
              BookOf(first, submitted)[id] == submitted[Position(first, id)]
  {
    if |submitted| > 0 {
      var n := |submitted| - 1;
      BookIsSubmissions(first, submitted[..n]);
      forall id: uint16 ensures id == (first + n) % 0x1_0000 <==> Position(first, id) == n {
        PositionOf(first, n, id);
      }
      hide Position;
    }
  }

  lemma PositionOf(first: uint16, n: nat, id: uint16)
    requires n < 0x1_0000
    ensures id == (first + n) % 0x1_0000 <==> Position(first, id) == n
  {}

  /** The bytes behind a slot. */
  function BytesBehind(slot: TxSlot, pool: Pool): Bytes {
    if slot.len <= |Buffer(pool, slot.handle)| then Buffer(pool, slot.handle)[..slot.len] else []
  }

  predicate SlotHolds(slot: TxSlot, pool: Pool, book: Book) {
    slot.datagramId in book && BytesBehind(slot, pool) == book[slot.datagramId]
  }

  predicate SlotsHold(tx: TxSlots, pool: Pool, book: Book) {
    forall i :: 0 <= i < 4 && tx[i].state != EMPTY ==> SlotHolds(tx[i], pool, book)
  }

  predicate SentGenuine(log: Log, book: Book) {
    forall k :: 0 <= k < |log| && log[k].Sent? && log[k].frame.DataFrame? ==>
      GenuineData(log[k].frame.header, log[k].frame.payload, book)
  }

  predicate TxLink(s: Engine) {
    BookOk(BookFor(s)) && SlotsHold(s.tx, s.txPool, BookFor(s)) && SentGenuine(s.log, BookFor(s))
  }

  // ---- what transmitting does to the slots ----

  /** A slot keeps its datagram until it is emptied; opening clears what was acknowledged. */
  predicate SlotMoves(a: TxSlot, b: TxSlot) {
    || b.state == EMPTY
    || (&& a.state != EMPTY && b.handle == a.handle && b.len == a.len && b.datagramId == a.datagramId
        && ((b.state == a.state && b.acked == a.acked) || (a.state == QUEUED && b.state == OPEN && b.acked == {})))
  }

  predicate SlotsMove(a: TxSlots, b: TxSlots) {
    forall i :: 0 <= i < 4 ==> SlotMoves(a[i], b[i])
  }

  predicate FromSlot(slot: TxSlot, pool: Pool, h: DataHeader, payload: Bytes) {
    slot.state != EMPTY && FragmentOf(h, payload, slot.datagramId, BytesBehind(slot, pool))
  }

  /** What transmitting may log: openings, give-ups, and fragments of datagrams in slots. */
  predicate MoveEvent(tx: TxSlots, pool: Pool, e: Event) {
    || e.Opened? || e.Exhausted?
    || (e.Sent? && e.frame.DataFrame?
        && exists i :: 0 <= i < 4 && FromSlot(tx[i], pool, e.frame.header, e.frame.payload))
  }

  predicate MoveEvents(tx: TxSlots, pool: Pool, a: Log, b: Log) {
    a <= b && forall k :: |a| <= k < |b| ==> MoveEvent(tx, pool, b[k])
  }

  ghost predicate TxMoves(s: Engine, t: Engine) {
    && t.config == s.config && t.submitted == s.submitted && t.txPool.storage == s.txPool.storage
    && SlotsMove(s.tx, t.tx) && MoveEvents(s.tx, s.txPool, s.log, t.log)
  }

  lemma TxMovesRefl(s: Engine)
    ensures TxMoves(s, s)
  {}

  lemma MoveEventBefore(a: TxSlots, p: Pool, b: TxSlots, q: Pool, e: Event)
    requires SlotsMove(a, b) && q.storage == p.storage && MoveEvent(b, q, e)
    ensures MoveEvent(a, p, e)
  {
    hide FragmentOf;
    if e.Sent? {
      var i :| 0 <= i < 4 && FromSlot(b[i], q, e.frame.header, e.frame.payload);
      assert SlotMoves(a[i], b[i]);
      assert FromSlot(a[i], p, e.frame.header, e.frame.payload);
    }
  }

  lemma TxMovesTrans(s: Engine, t: Engine, u: Engine)
    requires TxMoves(s, t) && TxMoves(t, u)
    ensures TxMoves(s, u)
  {
    hide MoveEvent;
    forall k | |s.log| <= k < |u.log| ensures MoveEvent(s.tx, s.txPool, u.log[k]) {
      if k < |t.log| {
        assert u.log[k] == t.log[k];
      } else {
        MoveEventBefore(s.tx, s.txPool, t.tx, t.txPool, u.log[k]);
      }
    }
  }

  /** What FragmentFrame builds is a fragment of the slot's datagram. */
  lemma FrameFromSlot(s: Engine, i: nat, k: nat)
    requires i < 4 && s.tx[i].state != EMPTY && FragmentFrame(s, i, k).Some?
    ensures var f := FragmentFrame(s, i, k).value;
            FromSlot(s.tx[i], s.txPool, f.header, f.payload) && f.header.fragmentIndex == k
  {
    hide RoundFlags, CountTx, Slice;
  }

  lemma SendFragmentMoves(s: Engine, i: nat, k: nat)
    requires i < 4 && s.tx[i].state != EMPTY
    ensures TxMoves(s, SendDataFragment(s, i, k).0)
    ensures SendDataFragment(s, i, k).0 == s.(log := SendDataFragment(s, i, k).0.log)
  {
    if FragmentFrame(s, i, k).Some? {
      FrameFromSlot(s, i, k);
    }
    hide FragmentFrame, Encode, FromSlot;
  }

  /** Writing a slot that keeps its datagram and what was acknowledged. */
  lemma SetTxMoves(s: Engine, i: nat, slot: TxSlot)
    requires i < 4 && SlotMoves(s.tx[i], slot)
    ensures TxMoves(s, SetTx(s, i, slot))
  {}

  lemma SendNextMoves(s: Engine, i: nat, now: uint32)
    requires i < 4 && s.tx[i].state == OPEN
    ensures TxMoves(s, SendNext(s, i, now).0)
  {
    TxMovesRefl(s);
    hide TxMoves, SendDataFragment;
    var k := s.tx[i].nextFragment;
    if k < s.tx[i].fragmentCount {
      SendFragmentMoves(s, i, k);
      var (t, accepted) := SendDataFragment(s, i, k);
      if accepted {
        var slot := AfterFragment(t.tx[i], k, RetryDeadline(t, now));
        SetTxMoves(t, i, slot);
        TxMovesTrans(s, t, SetTx(t, i, slot));
      }
    }
  }

  lemma FailMoves(s: Engine, i: nat)
    requires i < 4
    ensures TxMoves(s, FailTxSlot(s, i))
  {}

  lemma {:induction false} RetransmitMoves(s: Engine, i: nat, now: uint32)
    requires i <= 4
    ensures TxMoves(s, TrySendRetransmit(s, i, now).0)
    decreases 4 - i
  {
    TxMovesRefl(s);
    hide TxMoves, SendNext, FailTxSlot, Reached, Scan;
    if i < 4 {
      if !RetransmitDue(s, i, now) {
        RetransmitMoves(s, i + 1, now);
      } else if s.tx[i].attempts >= s.config.maxAttempts {
        FailMoves(s, i);
      } else {
        var u := SetTx(s, i, NewRound(s.tx[i]));
        SetTxMoves(s, i, NewRound(s.tx[i]));
        hide NewRound;
        SendNextMoves(u, i, now);
        var (t, sent) := SendNext(u, i, now);
        TxMovesTrans(s, u, t);
        if !sent {
          RetransmitMoves(t, i + 1, now);
          TxMovesTrans(s, t, TrySendRetransmit(t, i + 1, now).0);
        }
      }
    }
  }

  lemma {:induction false} OpenDataMoves(s: Engine, i: nat, now: uint32)
    requires i <= 4
    ensures TxMoves(s, TrySendOpenData(s, i, now).0)
    decreases 4 - i
  {
    TxMovesRefl(s);
    hide TxMoves, SendNext, Scan;
    if i < 4 {
      if s.tx[i].state != OPEN || s.tx[i].round == {} {
        OpenDataMoves(s, i + 1, now);
      } else {
        var slot := s.tx[i].(nextFragment := Scan(s.tx[i], s.tx[i].nextFragment));
        if slot.nextFragment >= slot.fragmentCount {
          var ended := slot.(round := {}, retryDeadline := RetryDeadline(s, now));
          SetTxMoves(s, i, ended);
          OpenDataMoves(SetTx(s, i, ended), i + 1, now);
          TxMovesTrans(s, SetTx(s, i, ended), TrySendOpenData(SetTx(s, i, ended), i + 1, now).0);
        } else {
          var u := SetTx(s, i, slot);
          SetTxMoves(s, i, slot);
          SendNextMoves(u, i, now);
          var (t, sent) := SendNext(u, i, now);
          TxMovesTrans(s, u, t);
          if !sent {
            OpenDataMoves(t, i + 1, now);
            TxMovesTrans(s, t, TrySendOpenData(t, i + 1, now).0);
          }
        }
      }
    }
  }

  lemma OpenSlotMoves(s: Engine, i: nat, now: uint32)
    requires i < 4 && s.tx[i].state == QUEUED
    ensures TxMoves(s, OpenSlot(s, i, now))
  {}

  lemma OpenQueuedMoves(s: Engine, now: uint32)
    ensures TxMoves(s, TryOpenQueued(s, now).0)
  {
    var v := s.(probeArmed := false);
    assert TxMoves(s, TryOpenQueued(s, now).0) || TryOpenQueued(s, now) == OpenNext(v, now) by {
      hide CountTx, OpenNext, Reached;
    }
    assert TxMoves(s, v);
    TxMovesRefl(v);
    hide TxMoves, TryOpenQueued, OpenSlot, TrySendOpenData;
    var i := FirstTx(v.tx, QUEUED, 0);
    if i < 4 {
      OpenSlotMoves(v, i, now);
      OpenDataMoves(OpenSlot(v, i, now), 0, now);
      TxMovesTrans(v, OpenSlot(v, i, now), OpenNext(v, now).0);
    }
    TxMovesTrans(s, v, OpenNext(v, now).0);
  }

  /** A transmit tick only ever puts genuine fragments on the air. */
  lemma TxTickMoves(s: Engine, now: uint32)
    ensures TxMoves(s, TxTick(s, now))
  {
    hide TxMoves, TrySendRetransmit, TrySendOpenData, TryOpenQueued;
    RetransmitMoves(s, 0, now);
    var (t, retransmitted) := TrySendRetransmit(s, 0, now);
    OpenDataMoves(t, 0, now);
    var (u, sent) := TrySendOpenData(t, 0, now);
    OpenQueuedMoves(u, now);
    TxMovesTrans(s, t, u);
    TxMovesTrans(s, u, TryOpenQueued(u, now).0);
  }

  lemma MovesKeepTxLink(s: Engine, t: Engine)
    requires TxLink(s) && TxMoves(s, t)
    ensures TxLink(t) && BookFor(t) == BookFor(s)
  {
    var book := BookFor(s);
    hide BookFor, BookOk, FragmentOf;
    forall i | 0 <= i < 4 && t.tx[i].state != EMPTY ensures SlotHolds(t.tx[i], t.txPool, book) {
      assert SlotMoves(s.tx[i], t.tx[i]) && SlotHolds(s.tx[i], s.txPool, book);
    }
    forall k | 0 <= k < |t.log| && t.log[k].Sent? && t.log[k].frame.DataFrame?
      ensures GenuineData(t.log[k].frame.header, t.log[k].frame.payload, book)
    {
      if k < |s.log| {
        assert t.log[k] == s.log[k];
      } else {
        assert MoveEvent(s.tx, s.txPool, t.log[k]);
        FromSlotGenuine(s, t.log[k], book);
      }
    }
    assert BookFor(t) == BookFor(s) by { SameBook(s, t); }
  }

  lemma SameBook(s: Engine, t: Engine)
    requires t.config == s.config && t.submitted == s.submitted
    ensures BookFor(t) == BookFor(s)
  {}

  lemma FromSlotGenuine(s: Engine, e: Event, book: Book)
    requires SlotsHold(s.tx, s.txPool, book) && MoveEvent(s.tx, s.txPool, e) && e.Sent?
    ensures e.frame.DataFrame? && GenuineData(e.frame.header, e.frame.payload, book)
  {
    var i :| 0 <= i < 4 && FromSlot(s.tx[i], s.txPool, e.frame.header, e.frame.payload);
    assert SlotHolds(s.tx[i], s.txPool, book);
    hide BytesBehind, Slice, ValidateDataHeader;
  }

  // ---- the receive half and acknowledgements ----

  lemma RxEventsSendNoData(a: Log, b: Log, book: Book)
    requires SentGenuine(a, book) && Grew(a, b, true)
    ensures SentGenuine(b, book)
  {
    hide GenuineData;
    forall k | 0 <= k < |b| && b[k].Sent? && b[k].frame.DataFrame?
      ensures GenuineData(b[k].frame.header, b[k].frame.payload, book)
    {
      assert !IsRxEvent(b[k]);
      assert b[k] == a[k];
    }
  }

  lemma ReceivingKeepsTxLink(s: Engine, t: Engine)
    requires TxLink(s) && TxSame(s, t)
    ensures TxLink(t) && BookFor(t) == BookFor(s)
  {
    SameBook(s, t);
    hide BookFor, BookOk, SlotsHold, SentGenuine, Grew;
    RxEventsSendNoData(s.log, t.log, BookFor(s));
  }

  /** The datagram an acknowledgement is about is being sent from this slot. */
  predicate Names(ack: AckFrame, a: TxSlot) {
    a.state == OPEN && a.datagramId == ack.datagramId
  }

  predicate Completes(a: TxSlot, ack: AckFrame) {
    Names(ack, a) && ack.failure == NONE && FullBitmap(a) <= a.acked + ack.fragmentBitmap
  }

  /** The named slot is emptied exactly when everything is now acknowledged without a failure. Otherwise a
      withdrawal takes back what it does not list and ends the round, and any other acknowledgement adds
      what it lists and leaves the round alone. No other slot changes. */
  predicate AckedMoves(a: TxSlot, b: TxSlot, ack: AckFrame) {
    if !Names(ack, a) then b == a
    else if Completes(a, ack) then b == EMPTY_TX
    else if ack.failure == CREDIT_WITHDRAWAL then
      && b.acked == a.acked * ack.fragmentBitmap && b.round == {} && b.attempts == 1
      && b.state == OPEN && b.handle == a.handle && b.len == a.len && b.datagramId == a.datagramId
      && b.fragmentCount == a.fragmentCount
    else b.acked == a.acked + ack.fragmentBitmap && b == a.(acked := b.acked)
  }

  /** What an acknowledgement does: the one slot it names moves, the credits are the ones it grants, and a
      completion is recorded exactly when the slot is emptied. The receive side and everything else
      stay as they were. */
  ghost predicate AckMoves(s: Engine, t: Engine, ack: AckFrame) {
    && RxSame(s, t) && t.submitted == s.submitted && t.nextId == s.nextId
    && t.probeArmed == s.probeArmed && t.probeDeadline == s.probeDeadline
    && t.credits == ClampCredits(ack.receiverCredits)
    && (forall i :: 0 <= i < 4 ==> AckedMoves(s.tx[i], t.tx[i], ack))
    && t.txPool.storage == s.txPool.storage
    && if exists i :: 0 <= i < 4 && Completes(s.tx[i], ack)
       then t.log == s.log + [AckSeen(ack), Completed(ack.datagramId)]
       else t.log == s.log + [AckSeen(ack)] && t.txPool == s.txPool
  }

  lemma HandleAckMoves(s: Engine, ack: AckFrame, now: uint32)
    requires TxInv(s)
    ensures AckMoves(s, HandleAck(s, ack, now), ack)
  {
    hide OpenSlotFor, ClampCredits, RxSame, TxInv, AckedMoves, Completes, AckSlot, AckMoves;
    var t, i := NoteAck(s, ack), OpenSlotFor(s.tx, ack.datagramId, 0);
    HandleAckKeeps(s, ack, now);
    OneIsNamed(s, ack);
    forall j | 0 <= j < 4 && j != i ensures AckedMoves(s.tx[j], s.tx[j], ack) && !Completes(s.tx[j], ack) {
      UnnamedStays(s.tx[j], ack);
    }
    if i < 4 {
      AckSlotMoves(t, i, ack, now);
      assert s.log + [AckSeen(ack)] + [Completed(ack.datagramId)] == s.log + [AckSeen(ack), Completed(ack.datagramId)];
      NamedMoves(s, AckSlot(t, i, ack, now), i, ack);
    } else {
      NoneMoves(s, HandleAck(s, ack, now), ack);
    }
  }

  lemma NoneMoves(s: Engine, t: Engine, ack: AckFrame)
    requires RxSame(s, t)
    requires t == s.(log := s.log + [AckSeen(ack)], credits := ClampCredits(ack.receiverCredits))
    requires forall j :: 0 <= j < 4 ==> AckedMoves(s.tx[j], s.tx[j], ack) && !Completes(s.tx[j], ack)
    ensures AckMoves(s, t, ack)
  {
    hide AckedMoves, Completes, RxSame, ClampCredits;
  }

  /** The slot it names is all that an acknowledgement moves, besides the credits. */
  lemma NamedMoves(s: Engine, t: Engine, i: nat, ack: AckFrame)
    requires i < 4 && RxSame(s, t) && AckedMoves(s.tx[i], t.tx[i], ack) && t.txPool.storage == s.txPool.storage
    requires t == s.(tx := s.tx[i := t.tx[i]], txPool := t.txPool, log := t.log,
                     credits := ClampCredits(ack.receiverCredits))
    requires forall j :: 0 <= j < 4 && j != i ==> AckedMoves(s.tx[j], s.tx[j], ack) && !Completes(s.tx[j], ack)
    requires if Completes(s.tx[i], ack) then t.log == s.log + [AckSeen(ack), Completed(ack.datagramId)]
             else t.log == s.log + [AckSeen(ack)] && t.txPool == s.txPool
    ensures AckMoves(s, t, ack)
  {
    hide AckedMoves, Completes, RxSame, ClampCredits;
    forall j | 0 <= j < 4 ensures AckedMoves(s.tx[j], t.tx[j], ack) {}
  }

  lemma UnnamedStays(a: TxSlot, ack: AckFrame)
    requires !Names(ack, a)
    ensures AckedMoves(a, a, ack) && !Completes(a, ack)
  {}

  /** There is one slot in flight, so at most one is named. */
  lemma OneIsNamed(s: Engine, ack: AckFrame)
    requires TxInv(s)
    ensures forall j :: 0 <= j < 4 && Names(ack, s.tx[j]) ==> j == OpenSlotFor(s.tx, ack.datagramId, 0)
  {
    hide TxBuffersOk, LedgerOk, TxSlotOk;
  }

  lemma ReleaseKeepsStorage(p: Pool, h: nat)
    ensures Release(p, h).0.storage == p.storage
  {}

  lemma AckSlotMoves(s: Engine, i: nat, ack: AckFrame, now: uint32)
    requires i < 4 && Names(ack, s.tx[i])
    ensures var t := AckSlot(s, i, ack, now);
            && t == s.(tx := s.tx[i := t.tx[i]], txPool := t.txPool, log := t.log)
            && AckedMoves(s.tx[i], t.tx[i], ack) && t.txPool.storage == s.txPool.storage
            && if Completes(s.tx[i], ack) then t.log == s.log + [Completed(ack.datagramId)]
               else t.log == s.log && t.txPool == s.txPool
  {
    ReleaseKeepsStorage(s.txPool, s.tx[i].handle);
    hide Wrap32, Release;
  }

  lemma AckKeepsTxLink(s: Engine, t: Engine, ack: AckFrame)
    requires TxLink(s) && AckMoves(s, t, ack)
    ensures TxLink(t) && BookFor(t) == BookFor(s)
  {
    var book := BookFor(s);
    SameBook(s, t);
    hide BookFor, BookOk, GenuineData, Completes;
    forall i | 0 <= i < 4 && t.tx[i].state != EMPTY ensures SlotHolds(t.tx[i], t.txPool, book) {
      assert AckedMoves(s.tx[i], t.tx[i], ack) && SlotHolds(s.tx[i], s.txPool, book);
    }
    forall k | 0 <= k < |t.log| && t.log[k].Sent? && t.log[k].frame.DataFrame?
      ensures GenuineData(t.log[k].frame.header, t.log[k].frame.payload, book)
    {
      assert t.log[k] == s.log[k];
    }
  }

  // ---- submissions ----

  lemma PlacedBytes(s: Engine, i: nat, pool: Pool, h: nat, d: Bytes)
    requires TxInv(s) && Datagram(d) && i < 4 && Acquire(s.txPool) == (pool, Some(h))
    ensures var t := Place(s, i, pool, h, d);
            && BytesBehind(t.tx[i], t.txPool) == d && t.tx[i].datagramId == s.nextId
            && (forall j :: 0 <= j < 4 && j != i ==> t.tx[j] == s.tx[j])
            && forall j :: 0 <= j < 4 && j != i && s.tx[j].state != EMPTY ==>
                 BytesBehind(t.tx[j], t.txPool) == BytesBehind(s.tx[j], s.txPool)
  {
    hide PoolOk, Acquire, TxSlotsOk, LedgerOk, TxOwns, Filled;
    assert TxBuffersOk(s.tx, s.txPool);
    FreshBuffer(s.tx, s.txPool, pool, h);
    hide TxBuffersOk;
    FilledStarts(Buffer(pool, h), d);
  }

  lemma FilledStarts(buffer: Bytes, d: Bytes)
    requires |d| <= |buffer|
    ensures Filled(buffer, d)[..|d|] == d
  {}

  /** A buffer just acquired is nobody's yet. */
  lemma FreshBuffer(tx: TxSlots, pool: Pool, acquired: Pool, h: nat)
    requires TxBuffersOk(tx, pool) && Acquire(pool) == (acquired, Some(h))
    ensures h < |pool.storage| && |Buffer(acquired, h)| == V3_MAX_DATAGRAM && acquired.storage == pool.storage
    ensures forall j :: 0 <= j < 4 && tx[j].state != EMPTY ==> tx[j].handle != h
  {
    AcquireIndex(pool);
    assert |Buffer(acquired, h)| == V3_MAX_DATAGRAM;
    hide PoolOk, Acquire;
    forall j | 0 <= j < 4 && tx[j].state != EMPTY ensures tx[j].handle != h {
      assert Holds(tx[j], tx[j].handle);
      assert TxOwns(tx, tx[j].handle);
    }
  }

  lemma NextIdUnused(s: Engine)
    requires LedgerOk(s) && |s.submitted| < 0x1_0000
    ensures s.nextId !in BookFor(s)
  {
    BookIsSubmissions(s.config.initialDatagramId, s.submitted);
    PositionOf(s.config.initialDatagramId, |s.submitted|, s.nextId);
    hide Position, InUse, Ledger, Finished;
  }

  lemma BookAfterPlace(s: Engine, i: nat, pool: Pool, h: nat, d: Bytes)
    requires i < 4 && |d| <= V3_MAX_DATAGRAM && LedgerOk(s)
    ensures BookFor(Place(s, i, pool, h, d)) == BookFor(s)[s.nextId := d]
  {
    var t := Place(s, i, pool, h, d);
    assert t.submitted[..|s.submitted|] == s.submitted;
    hide InUse, Ledger, Finished, WriteBuffer, Filled, QueuedSlot;
  }

  lemma GenuineInLargerBook(h: DataHeader, payload: Bytes, book: Book, id: uint16, d: Bytes)
    requires GenuineData(h, payload, book) && id !in book
    ensures GenuineData(h, payload, book[id := d])
  {}

  lemma PlaceKeepsTxLink(s: Engine, i: nat, pool: Pool, h: nat, d: Bytes)
    requires TxLink(s) && TxInv(s) && Datagram(d) && |s.submitted| < 0x1_0000
    requires i < 4 && Acquire(s.txPool) == (pool, Some(h))
    ensures TxLink(Place(s, i, pool, h, d)) && BookFor(Place(s, i, pool, h, d)) == BookFor(s)[s.nextId := d]
  {
    hide TxInv, BookFor, BytesBehind, WriteBuffer, Filled, GenuineData, Acquire, QueuedSlot, LedgerOk, SentGenuine;
    var t, book := Place(s, i, pool, h, d), BookFor(s);
    InvLedger(s);
    PlacedBytes(s, i, pool, h, d);
    NextIdUnused(s);
    BookAfterPlace(s, i, pool, h, d);
    SubmittedSendsNothing(s.log, book, s.nextId, d);
    hide Place;
    forall j | 0 <= j < 4 && t.tx[j].state != EMPTY ensures SlotHolds(t.tx[j], t.txPool, book[s.nextId := d]) {
      if j != i {
        assert SlotHolds(s.tx[j], s.txPool, book);
      }
    }
  }

  lemma SubmittedSendsNothing(log: Log, book: Book, id: uint16, d: Bytes)
    requires SentGenuine(log, book) && id !in book
    ensures SentGenuine(log + [Submitted(id, d)], book[id := d])
  {
    hide GenuineData;
    var l := log + [Submitted(id, d)];
    forall k | 0 <= k < |l| && l[k].Sent? && l[k].frame.DataFrame?
      ensures GenuineData(l[k].frame.header, l[k].frame.payload, book[id := d])
    {
      assert l[k] == log[k];
      GenuineInLargerBook(log[k].frame.header, log[k].frame.payload, book, id, d);
    }
  }

  /** An accepted datagram enters the book under an id nothing else bears. */
  lemma SubmitKeepsTxLink(s: Engine, data: Option<Bytes>)
    requires TxLink(s) && TxInv(s) && |Submit(s, data).0.submitted| <= 0x1_0000
    ensures var (t, r) := Submit(s, data);
            && TxLink(t)
            && (r != ARQ_OK ==> t == s)
            && (r == ARQ_OK ==> data.Some? && Datagram(data.value) && s.nextId !in BookFor(s)
                                && BookFor(t) == BookFor(s)[s.nextId := data.value])
  {
    SubmitKeeps(s, data);
    var i := FirstTx(s.tx, EMPTY, 0);
    if Submit(s, data).1 == ARQ_OK {
      var (pool, handle) := Acquire(s.txPool);
      hide TxInv, Acquire, Place, BookFor, TxLink;
      assert |s.submitted| < 0x1_0000;
      NextIdUnused(s) by { InvLedger(s); }
      PlaceKeepsTxLink(s, i, pool, handle.value, data.value);
    }
  }

  lemma InvLedger(s: Engine)
    requires TxInv(s)
    ensures LedgerOk(s)
  {}
}
