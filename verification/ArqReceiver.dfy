/** What a receiver knows and says about the datagrams of one sender: its slots hold genuine
    bytes, it delivers only submitted datagrams, and its acknowledgements are honest. */
module ArqReceiver {
  import opened Words
  import opened FramingV3
  import opened FragmentV3
  import opened DatagramPool
  import opened DuplicateWindow
  import opened ArqState
  import opened ArqInvariant

  /** The datagrams the peer submitted, by id. */
  type Book = map<uint16, Bytes>

  predicate BookOk(book: Book) {
    forall id :: id in book ==> Datagram(book[id])
  }

  /** What a log says the receiver did: acknowledgements handed to the radio, datagrams offered to
      the egress, and ids whose datagram the egress took. */
  datatype Record = Record(sent: set<AckFrame>, offered: set<(uint16, Bytes)>, done: set<uint16>)

  function AddEvent(r: Record, e: Event): Record {
    match e
    case Sent(f, _) => if f.Ack? then r.(sent := r.sent + {f.ack}) else r
    case Delivered(id, data, accepted) =>
      r.(offered := r.offered + {(id, data)}, done := if accepted then r.done + {id} else r.done)
    case _ => r
  }

  function RecordOf(log: Log): Record {
    if |log| == 0 then Record({}, {}, {}) else AddEvent(RecordOf(log[..|log| - 1]), log[|log| - 1])
  }

  function Pending(acks: seq<PendingAck>): set<AckFrame> {
    set j | 0 <= j < |acks| :: acks[j].ack
  }

  /** Every acknowledgement the receiver has sent or is about to send. */
  function Said(s: Engine): set<AckFrame> {
    Pending(s.acks) + RecordOf(s.log).sent
  }

  /** The fragments held for an id. */
  function HeldBits(rx: RxSlots, id: uint16): Bitmap {
    var i := RxSlotFor(rx, id, 0);
    if i < 4 then rx[i].reassembly.receivedBitmap else {}
  }

  ghost predicate SlotGenuine(slot: RxSlot, pool: Pool, book: Book) {
    var r := slot.reassembly;
    r.datagramId in book && Assembles(r, Buffer(pool, slot.handle), r.datagramId, book[r.datagramId])
  }

  ghost predicate SlotsGenuine(rx: RxSlots, pool: Pool, book: Book) {
    forall i :: 0 <= i < 4 && rx[i].active ==> SlotGenuine(rx[i], pool, book)
  }

  /** The window remembers delivered datagrams only, as completely received. */
  predicate EntryHonest(known: AckState, id: uint16, done: set<uint16>, book: Book) {
    id in book && id in done && BookOk(book) && known.fragmentBitmap == All(book[id]) && known.failure == NONE
  }

  ghost predicate WindowHonest(w: Window, done: set<uint16>, book: Book) {
    forall id: uint16 :: Find(w, id).Some? ==> EntryHonest(Find(w, id).value, id, done, book)
  }

  predicate DeliveriesHonest(offered: set<(uint16, Bytes)>, book: Book) {
    forall d :: d in offered ==> d.0 in book && d.1 == book[d.0]
  }

  /** An acknowledgement claims no fragment the receiver does not hold, unless the datagram was
      delivered; a credit withdrawal always reports fragment 0 as missing, and no credit, and a refusal for
      want of a slot lists nothing. */
  predicate AckHonest(ack: AckFrame, rx: RxSlots, done: set<uint16>, book: Book) {
    && ack.datagramId in book && BookOk(book) && ack.fragmentBitmap <= All(book[ack.datagramId])
    && (ack.failure == NONE || ack.failure == CREDIT_WITHDRAWAL || ack.failure == ALLOCATION_FAILURE)
    && (ack.failure == CREDIT_WITHDRAWAL ==> 0 !in ack.fragmentBitmap && ack.receiverCredits == 0)
    && (ack.failure == ALLOCATION_FAILURE ==> ack.fragmentBitmap == {})
    && (ack.failure != CREDIT_WITHDRAWAL && ack.datagramId !in done ==>
          ack.fragmentBitmap <= HeldBits(rx, ack.datagramId))
  }

  ghost predicate AcksHonest(said: set<AckFrame>, rx: RxSlots, done: set<uint16>, book: Book) {
    forall ack :: ack in said ==> AckHonest(ack, rx, done, book)
  }

  /** No acknowledgement but a credit withdrawal claims fragment m of id. */
  ghost predicate Unclaimed(said: set<AckFrame>, id: uint16, m: nat) {
    forall ack :: ack in said && ack.datagramId == id && ack.failure != CREDIT_WITHDRAWAL ==> m !in ack.fragmentBitmap
  }

  /** Some fragment of a completely received datagram stays unclaimed until it is delivered. */
  ghost predicate Withheld(said: set<AckFrame>, id: uint16, d: Bytes) {
    Datagram(d) && exists m :: m in All(d) && Unclaimed(said, id, m)
  }

  ghost predicate FinalsWithheld(said: set<AckFrame>, rx: RxSlots, done: set<uint16>, book: Book) {
    forall id :: id in book && id !in done && Datagram(book[id]) && HeldBits(rx, id) == All(book[id]) ==>
      Withheld(said, id, book[id])
  }

  ghost predicate Claims(said: set<AckFrame>, rx: RxSlots, done: set<uint16>, book: Book) {
    AcksHonest(said, rx, done, book) && FinalsWithheld(said, rx, done, book)
  }

  ghost predicate RxLink(s: Engine, book: Book) {
    && BookOk(book) && SlotsGenuine(s.rx, s.rxPool, book)
    && WindowHonest(s.window, RecordOf(s.log).done, book)
    && DeliveriesHonest(RecordOf(s.log).offered, book)
    && Claims(Said(s), s.rx, RecordOf(s.log).done, book)
  }

  // ---- logs ----

  lemma RecordAppend(log: Log, e: Event)
    ensures RecordOf(log + [e]) == AddEvent(RecordOf(log), e)
  {
    assert (log + [e])[..|log|] == log;
  }

  lemma {:induction false} TxEventsRecordNothing(a: Log, b: Log)
    requires Grew(a, b, false)
    ensures RecordOf(b) == RecordOf(a)
    decreases |b|
  {
    if |a| < |b| {
      var c := b[..|b| - 1];
      assert !IsRxEvent(b[|b| - 1]);
      assert forall k :: |a| <= k < |c| ==> c[k] == b[k];
      assert c[..|a|] == b[..|a|] == a;
      TxEventsRecordNothing(a, c);
    } else {
      assert a == b;
    }
  }

  lemma AskEgressRecords(s: Engine, default: byte)
    ensures RecordOf(AskEgress(s, default).0.log) == RecordOf(s.log)
  {
    match s.callbacks.egress
    case None =>
    case Some(f) => RecordAppend(s.log, EgressAsked(f(s.log)));
  }

  lemma CreditsRecord(s: Engine)
    ensures RecordOf(CurrentCredits(s).0.log) == RecordOf(s.log)
    ensures CurrentCredits(s).0 == s.(log := CurrentCredits(s).0.log)
  {
    AskEgressRecords(s, ARQ_MAX_RX_DATAGRAMS);
    hide RecordOf;
  }

  lemma EnqueuePending(s: Engine, ack: AckFrame, ready: uint32)
    ensures Pending(EnqueueAck(s, ack, ready).acks) <= Pending(s.acks) + {ack}
    ensures EnqueueAck(s, ack, ready) == s.(acks := EnqueueAck(s, ack, ready).acks)
  {
    var t := EnqueueAck(s, ack, ready);
    forall a | a in Pending(t.acks) ensures a in Pending(s.acks) + {ack} {
      var j :| 0 <= j < |t.acks| && t.acks[j].ack == a;
      if a != ack {
        assert s.acks[j].ack == a;
      }
    }
  }

  // ---- adding an acknowledgement ----

  /** Nothing but acknowledgements and silent log entries. */
  ghost predicate OnlyAcks(s: Engine, t: Engine) {
    && t.rx == s.rx && t.rxPool == s.rxPool && t.window == s.window
    && RecordOf(t.log).done == RecordOf(s.log).done && RecordOf(t.log).offered == RecordOf(s.log).offered
  }

  /** An acknowledgement that may join those already said. */
  predicate MaySay(ack: AckFrame, rx: RxSlots, done: set<uint16>, book: Book) {
    && AckHonest(ack, rx, done, book)
    && (ack.failure != CREDIT_WITHDRAWAL && ack.datagramId !in done ==>
          HeldBits(rx, ack.datagramId) != All(book[ack.datagramId]))
  }

  lemma SayKeeps(said: set<AckFrame>, more: set<AckFrame>, ack: AckFrame, rx: RxSlots, done: set<uint16>, book: Book)
    requires Claims(said, rx, done, book) && more <= said + {ack} && MaySay(ack, rx, done, book)
    ensures Claims(more, rx, done, book)
  {
    hide HeldBits, All, BookOk;
    assert AcksHonest(more, rx, done, book);
    forall id | id in book && id !in done && Datagram(book[id]) && HeldBits(rx, id) == All(book[id])
      ensures Withheld(more, id, book[id])
    {
      assert Withheld(said, id, book[id]);
      var m :| m in All(book[id]) && Unclaimed(said, id, m);
      assert Unclaimed(more, id, m);
    }
  }

  lemma LessSaid(said: set<AckFrame>, less: set<AckFrame>, rx: RxSlots, done: set<uint16>, book: Book)
    requires Claims(said, rx, done, book) && less <= said
    ensures Claims(less, rx, done, book)
  {
    hide HeldBits, All, BookOk, AckHonest;
    forall id | id in book && id !in done && Datagram(book[id]) && HeldBits(rx, id) == All(book[id])
      ensures Withheld(less, id, book[id])
    {
      assert Withheld(said, id, book[id]);
      var m :| m in All(book[id]) && Unclaimed(said, id, m);
      assert Unclaimed(less, id, m);
    }
  }

  lemma OnlyAcksKeeps(s: Engine, t: Engine, book: Book)
    requires RxLink(s, book) && OnlyAcks(s, t) && Said(t) <= Said(s)
    ensures RxLink(t, book)
  {
    hide Said, Claims, SlotsGenuine, WindowHonest, DeliveriesHonest, BookOk;
    LessSaid(Said(s), Said(t), s.rx, RecordOf(s.log).done, book);
  }

  lemma EnqueueKeeps(s: Engine, ack: AckFrame, ready: uint32, book: Book)
    requires RxLink(s, book) && MaySay(ack, s.rx, RecordOf(s.log).done, book)
    ensures RxLink(EnqueueAck(s, ack, ready), book)
  {
    var t := EnqueueAck(s, ack, ready);
    EnqueuePending(s, ack, ready);
    assert Said(t) <= Said(s) + {ack};
    hide Said, Claims, SlotsGenuine, WindowHonest, DeliveriesHonest, MaySay, EnqueueAck, BookOk;
    SayKeeps(Said(s), Said(t), ack, s.rx, RecordOf(s.log).done, book);
  }

  lemma CreditsKeep(s: Engine, book: Book)
    requires RxLink(s, book)
    ensures RxLink(CurrentCredits(s).0, book)
    ensures CurrentCredits(s).0 == s.(log := CurrentCredits(s).0.log)
    ensures RecordOf(CurrentCredits(s).0.log) == RecordOf(s.log)
  {
    CreditsRecord(s);
    hide CurrentCredits, RxLink, RecordOf;
    OnlyAcksKeeps(s, CurrentCredits(s).0, book);
  }

  lemma SendingKeeps(s: Engine, now: uint32, book: Book)
    requires RxLink(s, book)
    ensures RxLink(SendPendingAck(s, now).0, book)
  {
    var t := SendPendingAck(s, now).0;
    hide RxLink, Encode;
    if t != s {
      var e := t.log[|s.log|];
      assert e.Sent? && e.frame == Ack(s.acks[0].ack) && t.log == s.log + [e];
      RecordAppend(s.log, e);
      assert s.acks[0].ack in Pending(s.acks);
      forall a | a in Pending(t.acks) ensures a in Pending(s.acks) {
        var j :| 0 <= j < |t.acks| && t.acks[j].ack == a;
        assert t.acks == s.acks || t.acks[j] == s.acks[j + 1];
      }
      hide RecordOf, SendPendingAck;
      OnlyAcksKeeps(s, t, book);
    }
  }

  /** The transmit half of the engine changes nothing a receiver holds or says. */
  lemma TransmittingKeeps(s: Engine, t: Engine, book: Book)
    requires RxLink(s, book) && RxSame(s, t)
    ensures RxLink(t, book)
  {
    TxEventsRecordNothing(s.log, t.log);
    hide RxLink, RecordOf, Grew;
    OnlyAcksKeeps(s, t, book);
  }

  // ---- delivering ----

  lemma FindInSlots(rx: RxSlots, i: nat, id: uint16)
    requires i < 4 && rx[i].active && rx[i].reassembly.datagramId == id
    requires forall j :: 0 <= j < 4 && j != i && rx[j].active ==> rx[j].reassembly.datagramId != id
    ensures RxSlotFor(rx, id, 0) == i && HeldBits(rx, id) == rx[i].reassembly.receivedBitmap
  {}

  /** Changing slot i changes what is held for no id but the slot's own, before and after. */
  lemma OtherBits(rx: RxSlots, i: nat, slot: RxSlot, x: uint16)
    requires i < 4
    requires !(rx[i].active && rx[i].reassembly.datagramId == x)
    requires !(slot.active && slot.reassembly.datagramId == x)
    ensures HeldBits(rx[i := slot], x) == HeldBits(rx, x)
  {}

  /** What slot i offers the egress is the datagram submitted under its id. */
  lemma OfferedIsGenuine(s: Engine, i: nat, book: Book)
    requires RxLink(s, book) && i < 4 && s.rx[i].active && ReassemblyIsComplete(s.rx[i].reassembly)
    ensures var id := s.rx[i].reassembly.datagramId;
            id in book && OutputOf(s, i) == book[id] && s.rx[i].reassembly.receivedBitmap == All(book[id])
            && FragmentExpectedBitmap(s.rx[i].reassembly.fragmentCount) == All(book[id])
  {
    hide WindowHonest, DeliveriesHonest, Claims, ReassemblyIsComplete, Placed;
    assert SlotGenuine(s.rx[i], s.rxPool, book);
    var r := s.rx[i].reassembly;
    CompleteIsDatagram(r, Buffer(s.rxPool, s.rx[i].handle), r.datagramId, book[r.datagramId]);
  }

  /** The log after an offer: the capacity question, then the datagram itself if it got that far. */
  lemma OfferRecord(s: Engine, i: nat)
    requires i < 4
    ensures var (t, accepted) := Offer(s, i);
            var id := s.rx[i].reassembly.datagramId;
            && t == s.(log := t.log)
            && (RecordOf(t.log) == RecordOf(s.log)
                || RecordOf(t.log) == AddEvent(RecordOf(s.log), Delivered(id, OutputOf(s, i), accepted)))
            && (accepted ==> RecordOf(t.log) == AddEvent(RecordOf(s.log), Delivered(id, OutputOf(s, i), true)))
  {
    hide RecordOf, AddEvent, OutputOf;
    AskEgressRecords(s, 1);
    var (t, egress) := AskEgress(s, 1);
    assert t == s.(log := t.log);
    OutputIgnoresLog(s, t, i);
    hide AskEgress;
    if egress != 0 && t.callbacks.deliver.Some? {
      var accepted := t.callbacks.deliver.value(t.log, OutputOf(t, i));
      RecordAppend(t.log, Delivered(t.rx[i].reassembly.datagramId, OutputOf(t, i), accepted));
    }
  }

  lemma OutputIgnoresLog(s: Engine, t: Engine, i: nat)
    requires i < 4 && t == s.(log := t.log)
    ensures OutputOf(t, i) == OutputOf(s, i)
  {}

  lemma DoneGrows(said: set<AckFrame>, rx: RxSlots, done: set<uint16>, more: set<uint16>, book: Book)
    requires Claims(said, rx, done, book) && done <= more
    ensures Claims(said, rx, more, book)
  {
    hide HeldBits, All, BookOk, Withheld;
    forall ack | ack in said ensures AckHonest(ack, rx, more, book) {
      assert AckHonest(ack, rx, done, book);
    }
  }

  lemma OfferKeepsLink(s: Engine, i: nat, book: Book)
    requires RxLink(s, book) && i < 4 && s.rx[i].active && ReassemblyIsComplete(s.rx[i].reassembly)
    ensures RxLink(Offer(s, i).0, book)
  {
    OfferedIsGenuine(s, i, book);
    OfferRecord(s, i);
    var t := Offer(s, i).0;
    hide RecordOf, Offer, Claims, SlotsGenuine, ReassemblyIsComplete, OutputOf, Find;
    DoneGrows(Said(s), s.rx, RecordOf(s.log).done, RecordOf(t.log).done, book);
    assert Said(t) == Said(s);
    hide EntryHonest;
    forall id: uint16 | Find(t.window, id).Some?
      ensures EntryHonest(Find(t.window, id).value, id, RecordOf(t.log).done, book)
    {
      EntryDoneGrows(Find(t.window, id).value, id, RecordOf(s.log).done, RecordOf(t.log).done, book);
    }
  }

  lemma EntryDoneGrows(known: AckState, id: uint16, done: set<uint16>, more: set<uint16>, book: Book)
    requires EntryHonest(known, id, done, book) && done <= more
    ensures EntryHonest(known, id, more, book)
  {}

  lemma StoreHonest(w: Window, id: uint16, known: AckState, done: set<uint16>, book: Book)
    requires WindowOk(w) && WindowHonest(w, done, book) && EntryHonest(known, id, done, book)
    ensures WindowHonest(Store(w, id, known), done, book)
  {
    hide Store, WindowOk, Find, EntryHonest, NotBehind, FullWindow, Advance, SerialWithinWindow, Age;
    forall x: uint16 | Find(Store(w, id, known), x).Some?
      ensures EntryHonest(Find(Store(w, id, known), x).value, x, done, book)
    {
      StoreRefinesMap(w, id, known, x);
    }
  }

  /** A delivered slot can be let go: what it held no longer matters. */
  lemma ReleaseClaims(said: set<AckFrame>, rx: RxSlots, i: nat, done: set<uint16>, book: Book)
    requires Claims(said, rx, done, book) && i < 4 && rx[i].active && rx[i].reassembly.datagramId in done
    ensures Claims(said, rx[i := EMPTY_RX], done, book)
  {
    hide All, BookOk, Withheld, HeldBits, RxSlotFor;
    forall ack | ack in said ensures AckHonest(ack, rx[i := EMPTY_RX], done, book) {
      assert AckHonest(ack, rx, done, book);
      if ack.datagramId != rx[i].reassembly.datagramId {
        OtherBits(rx, i, EMPTY_RX, ack.datagramId);
      }
    }
    forall id | id in book && id !in done && Datagram(book[id]) && HeldBits(rx[i := EMPTY_RX], id) == All(book[id])
      ensures Withheld(said, id, book[id])
    {
      OtherBits(rx, i, EMPTY_RX, id);
    }
  }

  lemma ReleaseKeepsLink(s: Engine, i: nat, book: Book)
    requires RxLink(s, book) && i < 4 && RxPoolOk(s.rx, s.rxPool) && s.rx[i].active
    requires s.rx[i].reassembly.datagramId in RecordOf(s.log).done
    ensures RxLink(ReleaseRxSlot(s, i), book)
  {
    ReleaseRxKeeps(s, i);
    var t := ReleaseRxSlot(s, i);
    hide RecordOf, ReleaseRxSlot, RxPoolOk, Claims, WindowHonest, DeliveriesHonest, Assembles, BookOk;
    ReleaseClaims(Said(s), s.rx, i, RecordOf(s.log).done, book);
    assert Said(t) == Said(s);
    forall j | 0 <= j < 4 && t.rx[j].active ensures SlotGenuine(t.rx[j], t.rxPool, book) {
      assert SlotGenuine(s.rx[j], s.rxPool, book);
    }
  }

  lemma FinishKeepsLink(s: Engine, i: nat, now: uint32, book: Book)
    requires RxLink(s, book) && MidData(s, i) && ReassemblyIsComplete(s.rx[i].reassembly)
    requires s.rx[i].reassembly.datagramId in RecordOf(s.log).done
    ensures RxLink(FinishDelivery(s, i, now), book)
  {
    OfferedIsGenuine(s, i, book);
    var r := s.rx[i].reassembly;
    var bitmap := FragmentExpectedBitmap(r.fragmentCount);
    hide RecordOf, CurrentCredits, Store, EnqueueAck, ReleaseRxSlot, ReassemblyIsComplete, OutputOf, RxPoolOk, IdsOk;
    hide Assembles, Claims, SlotsGenuine;
    CreditsKeep(s, book);
    var (t, stored) := CurrentCredits(s);
    assert WindowOk(t.window) by { MidWindow(s, i); }
    hide WindowOk, Find, WindowHonest;
    StoreHonest(t.window, r.datagramId, AckState(bitmap, stored, NONE), RecordOf(t.log).done, book);
    var u := t.(window := Store(t.window, r.datagramId, AckState(bitmap, stored, NONE)));
    assert Said(u) == Said(t);
    assert RxLink(u, book);
    CreditsKeep(u, book);
    var (v, credits) := CurrentCredits(u);
    var ack := AckFrame(r.datagramId, bitmap, credits, NONE);
    assert AckHonest(ack, v.rx, RecordOf(v.log).done, book) by { hide HeldBits; }
    EnqueuePending(v, ack, AckDeadline(v, now));
    EnqueueKeeps(v, ack, AckDeadline(v, now), book);
    hide RxLink, AckHonest;
    ReleaseKeepsLink(EnqueueAck(v, ack, AckDeadline(v, now)), i, book);
  }

  lemma MidWindow(s: Engine, i: nat)
    requires MidData(s, i)
    ensures WindowOk(s.window) && RxPoolOk(s.rx, s.rxPool)
  {
    hide WindowOk, RxPoolOk;
  }

  // ---- receiving a fragment ----

  /** A fragment of a submitted datagram. */
  predicate GenuineData(h: DataHeader, payload: Bytes, book: Book) {
    h.datagramId in book && FragmentOf(h, payload, h.datagramId, book[h.datagramId])
  }

  /** The slot a genuine fragment goes into holds genuine bytes of the same datagram, or nothing. */
  lemma TargetSlot(s: Engine, id: uint16, book: Book, t: Engine, i: nat)
    requires RxOk(s) && RxLink(s, book) && Find(s.window, id).None? && id in book
    requires (t, i) == SlotForData(s, id) && i < 4
    ensures ReadyFor(t, i, id) && t == s.(rx := s.rx[i := t.rx[i]], rxPool := t.rxPool)
    ensures t.rxPool.storage == s.rxPool.storage && |Buffer(t.rxPool, t.rx[i].handle)| == V3_MAX_DATAGRAM
    ensures t.rx[i].reassembly == ResetReassembly(V3_MAX_DATAGRAM)
            || Assembles(t.rx[i].reassembly, Buffer(t.rxPool, t.rx[i].handle), id, book[id])
    ensures t.rx[i].reassembly.receivedBitmap == HeldBits(s.rx, id)
    ensures s.rx[i].active ==> s.rx[i].reassembly.datagramId == id
  {
    SlotForDataReady(s, id);
    AllocateRxKeeps(s);
    hide RxOk, WindowHonest, DeliveriesHonest, Claims, AllocateRxSlot, Assembles, IdsOk, AcksOk, Find, Settled;
    assert RxSlotOk(t.rx[i]) && PoolOk(t.rxPool);
    if RxSlotFor(s.rx, id, 0) < 4 {
      assert SlotGenuine(s.rx[i], s.rxPool, book);
    }
  }

  /** A genuine fragment of an undelivered datagram goes into slot i, giving u. */
  ghost predicate GoesIn(s: Engine, h: DataHeader, payload: Bytes, book: Book, i: nat, u: Engine,
                         result: FragmentResult) {
    && RxOk(s) && RxLink(s, book) && Find(s.window, h.datagramId).None? && GenuineData(h, payload, book)
    && SlotForData(s, h.datagramId).1 == i < 4
    && (u, result) == AcceptInto(SlotForData(s, h.datagramId).0, i, h, payload)
  }

  lemma GenuineFragmentGoesIn(s: Engine, h: DataHeader, payload: Bytes, book: Book, i: nat, u: Engine,
                              result: FragmentResult)
    requires GoesIn(s, h, payload, book, i, u, result)
    ensures i < 4 && MidData(u, i) && (result == OK || result == DUPLICATE)
    ensures u == s.(rx := s.rx[i := u.rx[i]], rxPool := u.rxPool)
    ensures u.rx[i].handle < |s.rxPool.storage|
    ensures u.rxPool.storage == s.rxPool.storage[u.rx[i].handle := Buffer(u.rxPool, u.rx[i].handle)]
    ensures SlotGenuine(u.rx[i], u.rxPool, book) && u.rx[i].reassembly.datagramId == h.datagramId
    ensures u.rx[i].reassembly.receivedBitmap == HeldBits(s.rx, h.datagramId) + {h.fragmentIndex}
    ensures s.rx[i].active ==> s.rx[i].reassembly.datagramId == h.datagramId
  {
    hide AcceptFragment, Assembles, ReadyFor, MidData, HeldBits, RxLink, RxOk, SlotForData, Find, FragmentOf;
    hide WriteBuffer;
    var id := h.datagramId;
    var t := SlotForData(s, id).0;
    TargetSlot(s, id, book, t, i);
    var r, handle := t.rx[i].reassembly, t.rx[i].handle;
    var a := AcceptFragment(r, Buffer(t.rxPool, handle), h, payload);
    AcceptAssembles(r, Buffer(t.rxPool, handle), h, payload, id, book[id]);
    FragmentValid(h, payload, book);
    hide ValidateDataHeader;
    AcceptIntoKeeps(t, i, h, payload, u, result);
    ReadyPool(t, i, id);
    WriteKeepsPool(t.rxPool, handle, a.output);
  }

  lemma FragmentValid(h: DataHeader, payload: Bytes, book: Book)
    requires GenuineData(h, payload, book)
    ensures ValidateDataHeader(h) && |payload| == h.payloadLen
  {}

  lemma ReadyPool(s: Engine, i: nat, id: uint16)
    requires ReadyFor(s, i, id)
    ensures i < 4 && PoolOk(s.rxPool) && s.rx[i].handle < DATAGRAM_POOL_CAPACITY
  {
    hide PoolOk, IdsOk, AcksOk, Find, Settled, Consistent;
    assert RxSlotOk(s.rx[i]);
  }

  /** Receiving fragment k of id strengthens what may be claimed; if it was the last one missing,
      it is the fragment nobody has claimed. */
  lemma FragmentClaims(said: set<AckFrame>, rx: RxSlots, i: nat, slot: RxSlot, k: nat, done: set<uint16>, book: Book)
    requires Claims(said, rx, done, book) && i < 4 && slot.active && slot.reassembly.datagramId in book
    requires rx[i].active ==> rx[i].reassembly.datagramId == slot.reassembly.datagramId
    requires HeldBits(rx[i := slot], slot.reassembly.datagramId) == HeldBits(rx, slot.reassembly.datagramId) + {k}
    requires BookOk(book) && k in All(book[slot.reassembly.datagramId])
    ensures Claims(said, rx[i := slot], done, book)
  {
    var rx', id := rx[i := slot], slot.reassembly.datagramId;
    hide All, BookOk, HeldBits, RxSlotFor;
    forall x: uint16 | x != id ensures HeldBits(rx', x) == HeldBits(rx, x) {
      OtherBits(rx, i, slot, x);
    }
    forall ack | ack in said ensures AckHonest(ack, rx', done, book) {
      assert AckHonest(ack, rx, done, book);
    }
    forall x | x in book && x !in done && Datagram(book[x]) && HeldBits(rx', x) == All(book[x])
      ensures Withheld(said, x, book[x])
    {
      if x == id && HeldBits(rx, id) != All(book[id]) {
        NewestUnclaimed(said, rx, id, k, done, book);
      }
    }
  }

  lemma NewestUnclaimed(said: set<AckFrame>, rx: RxSlots, id: uint16, k: nat, done: set<uint16>, book: Book)
    requires AcksHonest(said, rx, done, book) && id in book && id !in done && Datagram(book[id])
    requires k in All(book[id]) && HeldBits(rx, id) != All(book[id]) && HeldBits(rx, id) + {k} == All(book[id])
    ensures Withheld(said, id, book[id])
  {
    hide All, BookOk, HeldBits, RxSlotFor;
    assert k in HeldBits(rx, id) ==> HeldBits(rx, id) + {k} == HeldBits(rx, id);
    forall ack | ack in said && ack.datagramId == id && ack.failure != CREDIT_WITHDRAWAL
      ensures k !in ack.fragmentBitmap
    {
      assert AckHonest(ack, rx, done, book);
    }
    assert Unclaimed(said, id, k);
  }

  lemma DistinctIds(s: Engine, i: nat)
    requires MidData(s, i)
    ensures s.rx[i].active && |s.rxPool.storage| == 8
    ensures forall j :: 0 <= j < 4 && j != i && s.rx[j].active ==>
              && s.rx[j].reassembly.datagramId != s.rx[i].reassembly.datagramId
              && s.rx[j].handle != s.rx[i].handle
  {
    hide WindowOk, Find, Settled, AcksOk, RxSlotOk;
  }

  lemma FragmentKeepsLink(s: Engine, h: DataHeader, payload: Bytes, book: Book, i: nat, u: Engine,
                          result: FragmentResult)
    requires GoesIn(s, h, payload, book, i, u, result)
    ensures i < 4 && MidData(u, i) && (result == OK || result == DUPLICATE) && RxLink(u, book)
    ensures u.rx[i].reassembly.datagramId == h.datagramId
    ensures u.rx[i].reassembly.receivedBitmap == HeldBits(s.rx, h.datagramId) + {h.fragmentIndex}
    ensures u == s.(rx := s.rx[i := u.rx[i]], rxPool := u.rxPool)
    ensures s.rx[i].active ==> s.rx[i].reassembly.datagramId == h.datagramId
  {
    hide AcceptInto, SlotForData, MidData, RxOk, HeldBits, Find, Claims, WindowHonest, DeliveriesHonest, GenuineData;
    hide BookOk, All, Assembles;
    GenuineFragmentGoesIn(s, h, payload, book, i, u, result);
    DistinctIds(u, i);
    FindInSlots(u.rx, i, h.datagramId);
    GenuineIndex(h, payload, book);
    FragmentClaims(Said(s), s.rx, i, u.rx[i], h.fragmentIndex, RecordOf(s.log).done, book);
    assert Said(u) == Said(s);
    forall j | 0 <= j < 4 && u.rx[j].active ensures SlotGenuine(u.rx[j], u.rxPool, book) {
      if j != i {
        assert SlotGenuine(s.rx[j], s.rxPool, book);
        assert u.rx[j] == s.rx[j] && u.rx[j].handle != u.rx[i].handle;
        assert Buffer(u.rxPool, u.rx[j].handle) == Buffer(s.rxPool, s.rx[j].handle);
      }
    }
  }

  lemma GenuineIndex(h: DataHeader, payload: Bytes, book: Book)
    requires GenuineData(h, payload, book)
    ensures Datagram(book[h.datagramId]) && h.fragmentIndex in All(book[h.datagramId])
  {}

  // ---- what follows an accepted fragment ----

  lemma MarkWaitingKeepsLink(s: Engine, i: nat, book: Book)
    requires RxLink(s, book) && i < 4
    ensures RxLink(SetRx(s, i, s.rx[i].(waiting := true)), book)
  {
    var t := SetRx(s, i, s.rx[i].(waiting := true));
    hide Assembles, WindowHonest, DeliveriesHonest, BookOk, All, AckHonest, Withheld;
    assert Said(t) == Said(s);
    forall id: uint16 ensures HeldBits(t.rx, id) == HeldBits(s.rx, id) {
      SameSlots(s.rx, t.rx, id);
    }
    forall j | 0 <= j < 4 && t.rx[j].active ensures SlotGenuine(t.rx[j], t.rxPool, book) {
      assert SlotGenuine(s.rx[j], s.rxPool, book);
    }
    hide HeldBits;
    forall ack | ack in Said(t) ensures AckHonest(ack, t.rx, RecordOf(t.log).done, book) {
      HonestSameBits(ack, s.rx, t.rx, RecordOf(t.log).done, book);
    }
  }

  lemma SameSlots(a: RxSlots, b: RxSlots, id: uint16)
    requires forall j :: 0 <= j < 4 ==> a[j].active == b[j].active && a[j].reassembly == b[j].reassembly
    ensures HeldBits(a, id) == HeldBits(b, id)
  {}

  lemma HonestSameBits(ack: AckFrame, a: RxSlots, b: RxSlots, done: set<uint16>, book: Book)
    requires AckHonest(ack, a, done, book) && HeldBits(a, ack.datagramId) == HeldBits(b, ack.datagramId)
    ensures AckHonest(ack, b, done, book)
  {}

  lemma LinkBook(s: Engine, book: Book)
    requires RxLink(s, book)
    ensures BookOk(book)
  {}

  lemma QueueKeepsLink(s: Engine, i: nat, failure: FailureStatus, now: uint32, book: Book)
    requires RxLink(s, book) && i < 4 && s.rx[i].active
    requires forall j :: 0 <= j < 4 && j != i && s.rx[j].active ==>
               s.rx[j].reassembly.datagramId != s.rx[i].reassembly.datagramId
    requires failure == if ReassemblyIsComplete(s.rx[i].reassembly) then CREDIT_WITHDRAWAL else NONE
    ensures RxLink(QueueRxAck(s, i, failure, now), book)
  {
    assert SlotGenuine(s.rx[i], s.rxPool, book);
    var r := s.rx[i].reassembly;
    var id := r.datagramId;
    FindInSlots(s.rx, i, id);
    CompleteExactlyWhenAllReceived(r);
    CreditsKeep(s, book);
    var (t, credits) := CurrentCredits(s);
    hide CurrentCredits, RxLink, HeldBits, RxSlotFor, EnqueueAck, RecordOf, ReassemblyIsComplete, Placed;
    assert BookOk(book) by { LinkBook(s, book); }
    Geometry(|book[id]|, 0);
    if failure == CREDIT_WITHDRAWAL {
      var ack := AckFrame(id, WithdrawnBitmap(r), 0, failure);
      assert 0 !in WithdrawnBitmap(r) && WithdrawnBitmap(r) <= r.receivedBitmap;
      EnqueueKeeps(s, ack, AckDeadline(s, now), book);
    } else {
      EnqueueKeeps(t, AckFrame(id, r.receivedBitmap, credits, failure), AckDeadline(t, now), book);
    }
  }

  lemma CompletingKeepsLink(s: Engine, i: nat, now: uint32, book: Book)
    requires RxLink(s, book) && i < 4 && MidData(s, i)
    ensures var (t, completed) := TryCompleteRxSlot(s, i, now);
            RxLink(t, book) && (!completed ==> t == s.(log := t.log))
            && (completed ==> s.rx[i].reassembly.datagramId in RecordOf(t.log).done)
  {
    hide MidData, RxLink, FinishDelivery, RecordOf, ReassemblyIsComplete, OutputOf;
    if ReassemblyIsComplete(s.rx[i].reassembly) {
      MidActive(s, i);
      OfferKeepsLink(s, i, book);
      OfferRecord(s, i);
      var (t, accepted) := Offer(s, i);
      if accepted {
        LogOnlyMidData(s, t, i);
        hide Offer;
        FinishKeepsLink(t, i, now, book);
        FinishRecord(t, i, now);
      }
    }
  }

  lemma MidActive(s: Engine, i: nat)
    requires MidData(s, i)
    ensures s.rx[i].active
  {
    hide RxPoolOk, IdsOk, AcksOk, Find;
  }

  lemma FinishRecord(s: Engine, i: nat, now: uint32)
    requires i < 4
    ensures RecordOf(FinishDelivery(s, i, now).log) == RecordOf(s.log)
  {
    hide RecordOf, CurrentCredits;
    CreditsRecord(s);
    var r := s.rx[i].reassembly;
    var (t, stored) := CurrentCredits(s);
    CreditsRecord(t.(window := Store(t.window, r.datagramId,
                                     AckState(FragmentExpectedBitmap(r.fragmentCount), stored, NONE))));
    hide Store;
  }

  lemma AfterAcceptKeepsLink(s: Engine, i: nat, h: DataHeader, now: uint32, book: Book)
    requires RxLink(s, book) && i < 4 && MidData(s, i)
    ensures RxLink(AfterAccept(s, i, h, now), book)
  {
    hide MidData, RxLink, TryCompleteRxSlot, QueueRxAck, ReassemblyIsComplete;
    DistinctIds(s, i);
    if ReassemblyIsComplete(s.rx[i].reassembly) {
      CompletingKeepsLink(s, i, now, book);
      var (t, completed) := TryCompleteRxSlot(s, i, now);
      if !completed {
        MarkWaitingKeepsLink(t, i, book);
        QueueKeepsLink(SetRx(t, i, t.rx[i].(waiting := true)), i, CREDIT_WITHDRAWAL, now, book);
      }
    } else {
      QueueKeepsLink(s, i, NONE, now, book);
    }
  }

  lemma {:induction false} CompletingAllKeepsLink(s: Engine, i: nat, now: uint32, book: Book)
    requires RxLink(s, book) && RxOk(s) && i <= 4
    ensures RxLink(TryCompleteRxSlots(s, i, now).0, book)
    decreases 4 - i
  {
    hide RxOk, RxLink, TryCompleteRxSlot, MidData;
    if i < 4 {
      if s.rx[i].active && s.rx[i].waiting {
        MidDataOfOk(s, i);
        CompletingKeepsLink(s, i, now, book);
        var (t, completed) := TryCompleteRxSlot(s, i, now);
        if !completed {
          LogOnlyRxOk(s, t);
          CompletingAllKeepsLink(t, i + 1, now, book);
        }
      } else {
        CompletingAllKeepsLink(s, i + 1, now, book);
      }
    }
  }

  // ---- replies that touch no slot ----

  lemma AckAgainKeepsLink(s: Engine, id: uint16, known: AckState, now: uint32, book: Book)
    requires RxLink(s, book) && Find(s.window, id) == Some(known)
    ensures RxLink(AckAgain(s, id, known, now), book)
  {
    hide Find, RecordOf, CurrentCredits, Said, Claims, SlotsGenuine, EnqueueAck;
    assert EntryHonest(known, id, RecordOf(s.log).done, book);
    CreditsKeep(s, book);
    var (t, credits) := CurrentCredits(s);
    hide RxLink, HeldBits;
    EnqueueKeeps(t, AckFrame(id, known.fragmentBitmap, credits, known.failure), AckDeadline(t, now), book);
  }

  lemma RefusalKeepsLink(s: Engine, id: uint16, now: uint32, book: Book)
    requires RxLink(s, book) && id in book && RxSlotFor(s.rx, id, 0) == 4
    ensures RxLink(QueueFailureAck(s, id, {}, ALLOCATION_FAILURE, now), book)
  {
    hide CurrentCredits, RxLink, EnqueueAck, RecordOf;
    LinkBook(s, book);
    CreditsKeep(s, book);
    var (t, credits) := CurrentCredits(s);
    Geometry(|book[id]|, 0);
    assert 0 in All(book[id]);
    EnqueueKeeps(t, AckFrame(id, {}, credits, ALLOCATION_FAILURE), AckDeadline(t, now), book);
  }

  lemma DataKeepsLink(s: Engine, h: DataHeader, payload: Bytes, now: uint32, book: Book)
    requires RxOk(s) && RxLink(s, book) && GenuineData(h, payload, book)
    ensures RxLink(HandleData(s, h, payload, now), book)
  {
    hide RxOk, RxLink, AckAgain, Find, QueueFailureAck, AcceptInto, AfterAccept, MidData, FragmentOf, HeldBits;
    var id := h.datagramId;
    match Find(s.window, id)
    case Some(known) => AckAgainKeepsLink(s, id, known, now, book);
    case None =>
      var (t, i) := SlotForData(s, id);
      if i == 4 {
        AllocateRxKeeps(s);
        hide AllocateRxSlot;
        RefusalKeepsLink(s, id, now, book);
      } else {
        hide SlotForData;
        var (u, result) := AcceptInto(t, i, h, payload);
        FragmentKeepsLink(s, h, payload, book, i, u, result);
        AfterAcceptKeepsLink(u, i, h, now, book);
      }
  }
}
