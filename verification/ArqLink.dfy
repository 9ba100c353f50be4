/** Two engines and a channel that loses, repeats, reorders and corrupts: what holds over every run
    in which no id is used twice. */
module ArqLink {
  import opened Words
  import opened FramingV3
  import opened FragmentV3
  import opened DatagramPool
  import opened DuplicateWindow
  import opened ArqState
  import opened ArqInvariant
  import opened ArqReceiver
  import opened ArqSender

  // ---- the system ----

  datatype Link = Link(a: Engine, b: Engine)

  datatype Step = AtA(input: Input) | AtB(input: Input)

  predicate WasSent(log: Log, f: Frame) {
    exists k :: 0 <= k < |log| && log[k].Sent? && log[k].frame == f
  }

  /** What the channel may bring, at any time and any number of times: a packet with the protected
      bytes of something the peer handed to its radio, whatever the padding; a packet that decodes
      to no frame; or a frame of the two kinds the engine ignores. */
  predicate Arrives(peer: Log, p: Packet) {
    match Decode(p)
    case Failure(_) => true
    case Success(f) => f.ControlFrame? || f.MgmtFrame? || WasSent(peer, f)
  }

  /** Everything but the packets is free: submissions, ticks, flushes and the clock readings. */
  predicate Allowed(peer: Log, input: Input) {
    input.PacketInput? ==> Arrives(peer, input.packet)
  }

  predicate CanDo(l: Link, step: Step) {
    match step
    case AtA(input) => Allowed(l.b.log, input)
    case AtB(input) => Allowed(l.a.log, input)
  }

  function Do(l: Link, step: Step): Link {
    match step
    case AtA(input) => l.(a := Apply(l.a, input))
    case AtB(input) => l.(b := Apply(l.b, input))
  }

  ghost predicate LinkStepAt(links: seq<Link>, steps: seq<Step>, k: nat)
    requires k < |steps| && |links| == |steps| + 1
  {
    CanDo(links[k], steps[k]) && links[k + 1] == Do(links[k], steps[k])
  }

  /** A run: every step is one the channel allows, and leads from each link to the next. */
  ghost predicate LinkTrace(links: seq<Link>, steps: seq<Step>) {
    |links| == |steps| + 1 && forall k :: 0 <= k < |steps| ==> LinkStepAt(links, steps, k)
  }

  /** How the two ends are set up. */
  datatype Setup = Setup(configA: Config, envA: Callbacks, configB: Config, envB: Callbacks)

  /** The k-th state after both engines were reset. */
  ghost predicate LinkAt(setup: Setup, links: seq<Link>, steps: seq<Step>, k: nat)
    requires k <= |steps| && |links| == |steps| + 1
  {
    if k == 0 then links[0] == Link(Reset(setup.configA, setup.envA), Reset(setup.configB, setup.envB))
    else LinkStepAt(links, steps, k - 1)
  }

  ghost predicate LinkHistory(setup: Setup, links: seq<Link>, steps: seq<Step>) {
    |links| == |steps| + 1 && forall k :: 0 <= k <= |steps| ==> LinkAt(setup, links, steps, k)
  }

  /** The states runs from two fresh engines, with any configurations and environments, end in. */
  ghost predicate ReachableLink(l: Link) {
    exists setup, links, steps :: LinkHistory(setup, links, steps) && l == links[|steps|]
  }

  lemma ReachableLinkTrace(l: Link) returns (links: seq<Link>, steps: seq<Step>)
    requires ReachableLink(l)
    ensures LinkTrace(links, steps) && IsReset(links[0].a) && IsReset(links[0].b) && l == links[|steps|]
  {
    hide Reset, LinkStepAt;
    var setup;
    setup, links, steps :| LinkHistory(setup, links, steps) && l == links[|steps|];
    assert LinkAt(setup, links, steps, 0);
    forall k | 0 <= k < |steps| ensures LinkStepAt(links, steps, k) {
      assert LinkAt(setup, links, steps, k + 1);
    }
  }

  /** No id was given to two datagrams. */
  predicate UniqueIds(l: Link) {
    |l.a.submitted| <= 0x1_0000 && |l.b.submitted| <= 0x1_0000
  }

  // ---- what ties a sender to its receiver ----

  ghost predicate Claimed(sent: set<AckFrame>, id: uint16, k: nat) {
    exists ack :: ack in sent && ack.datagramId == id && ack.failure != CREDIT_WITHDRAWAL && k in ack.fragmentBitmap
  }

  /** Every acknowledged fragment was claimed by the peer. */
  ghost predicate AckedClaimed(tx: TxSlots, sent: set<AckFrame>) {
    forall i, k :: 0 <= i < 4 && tx[i].state == OPEN && k in tx[i].acked ==> Claimed(sent, tx[i].datagramId, k)
  }

  /** Every completed datagram was delivered by the peer. */
  predicate CompletedDone(log: Log, done: set<uint16>) {
    forall k :: 0 <= k < |log| && log[k].Completed? ==> log[k].id in done
  }

  ghost predicate OneWay(s: Engine, r: Engine) {
    && TxLink(s) && RxLink(r, BookFor(s))
    && AckedClaimed(s.tx, RecordOf(r.log).sent)
    && CompletedDone(s.log, RecordOf(r.log).done)
  }

  ghost predicate LinkInv(l: Link) {
    Inv(l.a) && Inv(l.b) && OneWay(l.a, l.b) && OneWay(l.b, l.a)
  }

  // ---- the book grows ----

  lemma SlotsOutsideBook(rx: RxSlots, pool: Pool, book: Book, id: uint16)
    requires SlotsGenuine(rx, pool, book) && id !in book
    ensures HeldBits(rx, id) == {}
  {
    hide Assembles;
    forall j | 0 <= j < 4 && rx[j].active ensures rx[j].reassembly.datagramId != id {
      assert SlotGenuine(rx[j], pool, book);
    }
  }

  lemma ClaimsInLargerBook(said: set<AckFrame>, rx: RxSlots, done: set<uint16>, book: Book, id: uint16, d: Bytes)
    requires Claims(said, rx, done, book) && BookOk(book) && id !in book && Datagram(d) && HeldBits(rx, id) == {}
    ensures Claims(said, rx, done, book[id := d])
  {
    hide HeldBits, All, Withheld;
    var larger := book[id := d];
    forall ack | ack in said ensures AckHonest(ack, rx, done, larger) {
      assert AckHonest(ack, rx, done, book);
    }
    Geometry(|d|, 0);
    assert 0 in All(d) by { NonEmpty(d); }
  }

  lemma NonEmpty(d: Bytes)
    requires Datagram(d)
    ensures 0 in All(d)
  {}

  lemma LargerBook(r: Engine, book: Book, id: uint16, d: Bytes)
    requires RxLink(r, book) && id !in book && Datagram(d)
    ensures RxLink(r, book[id := d])
  {
    var larger := book[id := d];
    SlotsOutsideBook(r.rx, r.rxPool, book, id);
    hide Assembles, Find, RecordOf, Said, HeldBits, All, Claims;
    ClaimsInLargerBook(Said(r), r.rx, RecordOf(r.log).done, book, id, d);
    forall i | 0 <= i < 4 && r.rx[i].active ensures SlotGenuine(r.rx[i], r.rxPool, larger) {
      assert SlotGenuine(r.rx[i], r.rxPool, book);
    }
    forall x: uint16 | Find(r.window, x).Some?
      ensures EntryHonest(Find(r.window, x).value, x, RecordOf(r.log).done, larger)
    {
      assert EntryHonest(Find(r.window, x).value, x, RecordOf(r.log).done, book);
    }
  }

  // ---- logs only grow ----

  lemma {:induction false} RecordGrows(a: Log, b: Log)
    requires a <= b
    ensures RecordOf(a).sent <= RecordOf(b).sent && RecordOf(a).done <= RecordOf(b).done
    decreases |b|
  {
    if |a| < |b| {
      RecordGrows(a, b[..|b| - 1]);
    } else {
      assert a == b;
    }
  }

  lemma {:induction false} SentIsRecorded(log: Log, k: nat)
    requires k < |log| && log[k].Sent? && log[k].frame.Ack?
    ensures log[k].frame.ack in RecordOf(log).sent
  {
    RecordAppend(log[..k], log[k]);
    assert log[..k] + [log[k]] == log[..k + 1];
    RecordGrows(log[..k + 1], log);
  }

  lemma ClaimedGrows(tx: TxSlots, sent: set<AckFrame>, more: set<AckFrame>)
    requires AckedClaimed(tx, sent) && sent <= more
    ensures AckedClaimed(tx, more)
  {
    forall i, k | 0 <= i < 4 && tx[i].state == OPEN && k in tx[i].acked ensures Claimed(more, tx[i].datagramId, k) {
      assert Claimed(sent, tx[i].datagramId, k);
    }
  }

  lemma PeerLogGrows(s: Engine, r: Engine, t: Engine)
    requires OneWay(s, r) && RxLink(t, BookFor(s)) && r.log <= t.log
    ensures OneWay(s, t)
  {
    hide TxLink, RxLink, RecordOf, Claimed;
    RecordGrows(r.log, t.log);
    ClaimedGrows(s.tx, RecordOf(r.log).sent, RecordOf(t.log).sent);
  }

  // ---- a step of the sender ----

  lemma MovesKeepOneWay(s: Engine, t: Engine, r: Engine)
    requires OneWay(s, r) && TxMoves(s, t)
    ensures OneWay(t, r)
  {
    MovesKeepTxLink(s, t);
    hide TxLink, RxLink, RecordOf, Claimed, BookFor, FromSlot;
    forall i, k | 0 <= i < 4 && t.tx[i].state == OPEN && k in t.tx[i].acked
      ensures Claimed(RecordOf(r.log).sent, t.tx[i].datagramId, k)
    {
      assert SlotMoves(s.tx[i], t.tx[i]);
    }
    forall k | 0 <= k < |t.log| && t.log[k].Completed? ensures t.log[k].id in RecordOf(r.log).done {
      assert |s.log| <= k ==> MoveEvent(s.tx, s.txPool, t.log[k]);
      assert t.log[k] == s.log[k];
    }
  }

  lemma ReceivingKeepsOneWay(s: Engine, t: Engine, r: Engine)
    requires OneWay(s, r) && TxSame(s, t)
    ensures OneWay(t, r)
  {
    ReceivingKeepsTxLink(s, t);
    hide TxLink, RxLink, RecordOf, Claimed, BookFor;
    forall k | 0 <= k < |t.log| && t.log[k].Completed? ensures t.log[k].id in RecordOf(r.log).done {
      assert !IsRxEvent(t.log[k]);
      assert t.log[k] == s.log[k];
    }
  }

  /** No fragment set the peer claimed covers an undelivered datagram. */
  lemma SomethingUnclaimed(r: Engine, book: Book, id: uint16) returns (m: nat)
    requires RxLink(r, book) && id in book && id !in RecordOf(r.log).done
    ensures Datagram(book[id]) && m in All(book[id]) && Unclaimed(Said(r), id, m)
    ensures m in HeldBits(r.rx, id) ==> HeldBits(r.rx, id) == All(book[id])
  {
    var all, held := All(book[id]), HeldBits(r.rx, id);
    assert held <= all by { HeldWithin(r, book, id); }
    hide HeldBits, RecordOf, Said, All, SlotsGenuine, WindowHonest, DeliveriesHonest;
    if held == all {
      assert Withheld(Said(r), id, book[id]);
      m :| m in all && Unclaimed(Said(r), id, m);
    } else {
      m :| m in all && m !in held;
      forall ack | ack in Said(r) && ack.datagramId == id && ack.failure != CREDIT_WITHDRAWAL
        ensures m !in ack.fragmentBitmap
      {
        assert AckHonest(ack, r.rx, RecordOf(r.log).done, book);
      }
    }
  }

  lemma HeldWithin(r: Engine, book: Book, id: uint16)
    requires RxLink(r, book) && id in book
    ensures Datagram(book[id]) && HeldBits(r.rx, id) <= All(book[id])
  {
    hide WindowHonest, DeliveriesHonest, Claims, Placed;
    var i := RxSlotFor(r.rx, id, 0);
    if i < 4 {
      assert SlotGenuine(r.rx[i], r.rxPool, book);
    }
  }

  lemma ClaimedNotUnclaimed(r: Engine, id: uint16, m: nat)
    requires Claimed(RecordOf(r.log).sent, id, m)
    ensures !Unclaimed(Said(r), id, m)
  {
    hide RecordOf;
  }

  /** The heart of the safety argument: an acknowledgement of the peer completes a slot only if the
      peer has delivered the datagram. */
  lemma CompletionMeansDelivery(s: Engine, r: Engine, i: nat, ack: AckFrame)
    requires OneWay(s, r) && TxInv(s) && i < 4 && Completes(s.tx[i], ack) && ack in RecordOf(r.log).sent
    ensures ack.datagramId in RecordOf(r.log).done
  {
    var id := ack.datagramId;
    if id !in RecordOf(r.log).done {
      var book := BookFor(s);
      FullIsAll(s, i);
      hide TxLink, BookFor, RecordOf, All, TxInv, FullBitmap, RxLink, HeldBits, Unclaimed, Said;
      var m := SomethingUnclaimed(r, book, id);
      assert m in s.tx[i].acked + ack.fragmentBitmap;
      assert Claimed(RecordOf(r.log).sent, id, m);
      ClaimedNotUnclaimed(r, id, m);
      assert false;
    }
  }

  lemma FullIsAll(s: Engine, i: nat)
    requires TxLink(s) && TxInv(s) && i < 4 && s.tx[i].state != EMPTY
    ensures s.tx[i].datagramId in BookFor(s) && Datagram(BookFor(s)[s.tx[i].datagramId])
    ensures FullBitmap(s.tx[i]) == All(BookFor(s)[s.tx[i].datagramId])
  {
    assert SlotHolds(s.tx[i], s.txPool, BookFor(s));
    assert TxSlotOk(s.config, s.tx[i]);
    assert |BytesBehind(s.tx[i], s.txPool)| == s.tx[i].len by { BehindLength(s, i); }
    hide BookFor, TxBuffersOk, LedgerOk, BytesBehind, ExpectedFragmentCount;
  }

  lemma BehindLength(s: Engine, i: nat)
    requires TxInv(s) && i < 4 && s.tx[i].state != EMPTY
    ensures |BytesBehind(s.tx[i], s.txPool)| == s.tx[i].len
  {
    assert TxSlotOk(s.config, s.tx[i]);
    assert s.tx[i].handle < DATAGRAM_POOL_CAPACITY && |Buffer(s.txPool, s.tx[i].handle)| == V3_MAX_DATAGRAM;
    hide TxInv;
  }

  lemma AckKeepsOneWay(s: Engine, t: Engine, r: Engine, ack: AckFrame)
    requires OneWay(s, r) && TxInv(s) && AckMoves(s, t, ack) && ack in RecordOf(r.log).sent
    ensures OneWay(t, r)
  {
    hide TxLink, RxLink, RecordOf, BookFor, Completes, TxInv, Claimed;
    AckKeepsTxLink(s, t, ack);
    AckedStaysClaimed(s, t, ack, RecordOf(r.log).sent);
    if t.log != s.log + [AckSeen(ack)] {
      var i :| 0 <= i < 4 && Completes(s.tx[i], ack);
      CompletionMeansDelivery(s, r, i, ack);
    }
    hide AckMoves, AckedClaimed;
    LogAfterAck(s, t, ack);
  }

  lemma LogAfterAck(s: Engine, t: Engine, ack: AckFrame)
    requires AckMoves(s, t, ack)
    ensures forall k :: 0 <= k < |t.log| && t.log[k].Completed? ==>
              || (k < |s.log| && t.log[k] == s.log[k])
              || (t.log[k].id == ack.datagramId && t.log != s.log + [AckSeen(ack)])
  {
    hide Completes, AckedMoves;
  }

  lemma AckedStaysClaimed(s: Engine, t: Engine, ack: AckFrame, sent: set<AckFrame>)
    requires AckedClaimed(s.tx, sent) && AckMoves(s, t, ack) && ack in sent
    ensures AckedClaimed(t.tx, sent)
  {
    hide Completes;
    forall i, k | 0 <= i < 4 && t.tx[i].state == OPEN && k in t.tx[i].acked
      ensures Claimed(sent, t.tx[i].datagramId, k)
    {
      assert AckedMoves(s.tx[i], t.tx[i], ack);
      if k in s.tx[i].acked {
        assert Claimed(sent, s.tx[i].datagramId, k);
      }
    }
  }

  lemma SubmitKeepsOneWay(s: Engine, r: Engine, data: Option<Bytes>)
    requires OneWay(s, r) && Inv(s) && |Submit(s, data).0.submitted| <= 0x1_0000
    ensures OneWay(Submit(s, data).0, r)
  {
    var (t, result) := Submit(s, data);
    SubmitKeepsTxLink(s, data);
    SubmitShape(s, data);
    hide Inv, Submit, TxLink, BookFor, RecordOf, Claimed;
    if result == ARQ_OK {
      LargerBook(r, BookFor(s), s.nextId, data.value);
    }
    hide RxLink;
    forall k | 0 <= k < |t.log| && t.log[k].Completed? ensures t.log[k].id in RecordOf(r.log).done {
      assert t.log[k] == s.log[k];
    }
  }

  lemma SubmitShape(s: Engine, data: Option<Bytes>)
    ensures var t := Submit(s, data).0;
            && s.log <= t.log && (forall k :: |s.log| <= k < |t.log| ==> t.log[k].Submitted?)
            && forall i :: 0 <= i < 4 && t.tx[i].state == OPEN ==> t.tx[i] == s.tx[i]
  {
    hide Acquire, WriteBuffer, Filled;
  }

  // ---- one step of either engine ----

  /** The receive half of a tick leaves the transmit half as it was, and conversely. */
  lemma TickHalves(s: Engine, now: uint32)
    requires Inv(s)
    ensures var t := TryCompleteRxSlots(s, 0, now).0;
            var u := SendPendingAck(t, now).0;
            && Inv(t) && Inv(u) && TxSame(s, u) && RxSame(u, TxTick(u, now))
            && (OnTick(s, now) == u || OnTick(s, now) == TxTick(u, now))
            && s.log <= t.log
  {
    hide Inv, TryCompleteRxSlots, SendPendingAck, TxTick, RxOk, TxInv, TxSame, RxSame;
    InvParts(s);
    var (t, completed) := TryCompleteRxSlots(s, 0, now);
    TryCompleteAllKeeps(s, 0, now);
    RxSideStep(s, t);
    FlushSame(t, now);
    var u := SendPendingAck(t, now).0;
    TxSameTrans(s, t, u);
    InvParts(u);
    TxTickKeeps(u, now);
    SameGrows(s, t);
  }

  lemma SameGrows(s: Engine, t: Engine)
    ensures TxSame(s, t) || RxSame(s, t) ==> s.log <= t.log
  {}

  lemma FlushSame(s: Engine, now: uint32)
    requires Inv(s)
    ensures Inv(SendPendingAck(s, now).0) && TxSame(s, SendPendingAck(s, now).0)
  {
    SendPendingAckStep(s, now);
    SendPendingAckKeeps(s, now) by { hide RxPoolOk, IdsOk, TxInv, AcksOk; }
    hide Inv, SendPendingAck, Grew;
  }

  lemma SentAckRecorded(log: Log, ack: AckFrame)
    requires WasSent(log, Ack(ack))
    ensures ack in RecordOf(log).sent
  {
    var k :| 0 <= k < |log| && log[k].Sent? && log[k].frame == Ack(ack);
    SentIsRecorded(log, k);
  }

  lemma FrameAtSender(s: Engine, r: Engine, f: Frame, now: uint32)
    requires OneWay(s, r) && Inv(s) && Buildable(f)
    requires f.ControlFrame? || f.MgmtFrame? || WasSent(r.log, f)
    ensures OneWay(OnFrame(s, f, now), r)
  {
    hide Inv, OneWay, HandleData, HandleAck, RxOk, TxInv, ValidateDataHeader, WasSent, RecordOf, TxSame, AckMoves;
    InvParts(s);
    match f
    case DataFrame(h, payload) =>
      HandleDataKeeps(s, h, payload, now);
      ReceivingKeepsOneWay(s, HandleData(s, h, payload, now), r);
    case Ack(ack) =>
      SentAckRecorded(r.log, ack);
      HandleAckMoves(s, ack, now);
      AckKeepsOneWay(s, HandleAck(s, ack, now), r, ack);
    case ControlFrame(_) =>
    case MgmtFrame(_) =>
  }

  lemma SenderStep(s: Engine, r: Engine, input: Input)
    requires OneWay(s, r) && Inv(s) && Allowed(r.log, input) && |Apply(s, input).submitted| <= 0x1_0000
    ensures OneWay(Apply(s, input), r)
  {
    hide Inv, OneWay, Submit, OnFrame, Decode, WasSent, SendPendingAck, OnTick, TxTick, TryCompleteRxSlots;
    hide TxSame, RxSame, TxMoves, Buildable;
    match input
    case SubmitInput(data) => SubmitKeepsOneWay(s, r, data);
    case PacketInput(packet, now) =>
      if Decode(packet).Success? {
        DecodedIsBuildable(packet);
        FrameAtSender(s, r, Decode(packet).value, now);
      }
    case TickInput(now) =>
      TickHalves(s, now);
      var u := SendPendingAck(TryCompleteRxSlots(s, 0, now).0, now).0;
      ReceivingKeepsOneWay(s, u, r);
      TxTickMoves(u, now);
      MovesKeepOneWay(u, TxTick(u, now), r);
    case FlushInput(now) =>
      FlushSame(s, now);
      ReceivingKeepsOneWay(s, SendPendingAck(s, now).0, r);
  }

  lemma SentDataGenuine(log: Log, book: Book, f: Frame)
    requires SentGenuine(log, book) && WasSent(log, f) && f.DataFrame?
    ensures GenuineData(f.header, f.payload, book)
  {
    hide GenuineData;
  }

  lemma FrameAtReceiver(s: Engine, r: Engine, f: Frame, now: uint32)
    requires OneWay(s, r) && Inv(r) && Buildable(f)
    requires f.ControlFrame? || f.MgmtFrame? || WasSent(s.log, f)
    ensures RxLink(OnFrame(r, f, now), BookFor(s)) && r.log <= OnFrame(r, f, now).log
  {
    hide Inv, HandleData, HandleAck, RxOk, TxInv, ValidateDataHeader, WasSent, RecordOf, TxSame, RxSame, RxLink,
         BookFor;
    hide SentGenuine, GenuineData, SlotsHold, AckedClaimed, CompletedDone;
    InvParts(r);
    match f
    case DataFrame(h, payload) =>
      SentDataGenuine(s.log, BookFor(s), f);
      DataKeepsLink(r, h, payload, now, BookFor(s));
      HandleDataKeeps(r, h, payload, now);
      SameGrows(r, HandleData(r, h, payload, now));
    case Ack(ack) =>
      HandleAckKeeps(r, ack, now);
      TransmittingKeeps(r, HandleAck(r, ack, now), BookFor(s));
      SameGrows(r, HandleAck(r, ack, now));
    case ControlFrame(_) =>
    case MgmtFrame(_) =>
  }

  lemma TickAtReceiver(r: Engine, now: uint32, book: Book)
    requires RxLink(r, book) && Inv(r)
    ensures RxLink(OnTick(r, now), book) && r.log <= OnTick(r, now).log
  {
    hide Inv, RxLink, RxOk, TxInv, SendPendingAck, OnTick, TxTick, TryCompleteRxSlots, TxSame, RxSame;
    TickHalves(r, now);
    InvParts(r);
    CompletingAllKeepsLink(r, 0, now, book);
    var t := TryCompleteRxSlots(r, 0, now).0;
    SendingKeeps(t, now, book);
    var u := SendPendingAck(t, now).0;
    TransmittingKeeps(u, TxTick(u, now), book);
    SameGrows(r, u);
    SameGrows(u, TxTick(u, now));
  }

  lemma ReceiverStep(s: Engine, r: Engine, input: Input)
    requires OneWay(s, r) && Inv(r) && Allowed(s.log, input)
    ensures OneWay(s, Apply(r, input))
  {
    var book := BookFor(s);
    assert RxLink(Apply(r, input), book) && r.log <= Apply(r, input).log by {
      assert RxLink(r, book);
      hide Inv, Submit, OnFrame, Decode, WasSent, SendPendingAck, OnTick, TxSame, RxSame, RxLink, BookFor;
      hide Buildable, TxInv, RxOk, OneWay;
      match input
      case SubmitInput(data) =>
        InvParts(r);
        SubmitKeeps(r, data);
        TransmittingKeeps(r, Submit(r, data).0, book);
        SameGrows(r, Submit(r, data).0);
      case PacketInput(packet, now) =>
        if Decode(packet).Success? {
          DecodedIsBuildable(packet);
          FrameAtReceiver(s, r, Decode(packet).value, now);
        }
      case TickInput(now) => TickAtReceiver(r, now, book);
      case FlushInput(now) =>
        SendingKeeps(r, now, book);
        FlushSame(r, now);
        SameGrows(r, SendPendingAck(r, now).0);
    }
    hide OneWay, RxLink, BookFor, Apply, Allowed;
    PeerLogGrows(s, r, Apply(r, input));
  }

  // ---- every run ----

  lemma ApplyGrows(s: Engine, input: Input)
    requires Inv(s)
    ensures s.submitted <= Apply(s, input).submitted && Apply(s, input).config == s.config
  {
    hide Inv, Submit, OnFrame, Decode, SendPendingAck, OnTick, TxTick, TryCompleteRxSlots, Buildable, TxInv, RxOk;
    InvParts(s);
    match input
    case SubmitInput(data) => SubmitKeeps(s, data);
    case PacketInput(packet, now) =>
      if Decode(packet).Success? {
        DecodedIsBuildable(packet);
        FrameSubmitsNothing(s, Decode(packet).value, now);
      }
    case TickInput(now) =>
      TickHalves(s, now);
      TxTickMoves(SendPendingAck(TryCompleteRxSlots(s, 0, now).0, now).0, now);
    case FlushInput(now) => FlushSame(s, now);
  }

  lemma FrameSubmitsNothing(s: Engine, f: Frame, now: uint32)
    requires Inv(s) && Buildable(f)
    ensures OnFrame(s, f, now).submitted == s.submitted && OnFrame(s, f, now).config == s.config
  {
    hide Inv, HandleData, HandleAck, RxOk, TxInv, ValidateDataHeader;
    InvParts(s);
    match f
    case DataFrame(h, payload) => HandleDataKeeps(s, h, payload, now);
    case Ack(ack) => HandleAckMoves(s, ack, now);
    case ControlFrame(_) =>
    case MgmtFrame(_) =>
  }

  lemma FreshOneWay(s: Engine, r: Engine)
    requires s.log == [] && r.log == [] && s.submitted == [] && r.acks == [] && r.window == EmptyWindow()
    requires s.tx == NO_TX_SLOTS && r.rx == NO_RX_SLOTS
    ensures OneWay(s, r)
  {
    assert BookFor(s) == map[];
    assert RecordOf([]) == Record({}, {}, {});
    assert Said(r) == {};
    forall id: uint16 ensures Find(r.window, id).None? {
      FindNone(r.window, id);
    }
  }

  lemma LinkStep(l: Link, step: Step)
    requires LinkInv(l) && CanDo(l, step) && UniqueIds(Do(l, step))
    ensures LinkInv(Do(l, step))
  {
    hide Inv, OneWay, Apply, Allowed;
    match step
    case AtA(input) =>
      ApplyKeepsInv(l.a, input);
      SenderStep(l.a, l.b, input);
      ReceiverStep(l.b, l.a, input);
    case AtB(input) =>
      ApplyKeepsInv(l.b, input);
      SenderStep(l.b, l.a, input);
      ReceiverStep(l.a, l.b, input);
  }

  /** Submissions are only ever added. */
  predicate Grown(l: Link, m: Link) {
    && l.a.submitted <= m.a.submitted && m.a.config == l.a.config
    && l.b.submitted <= m.b.submitted && m.b.config == l.b.config
  }

  lemma StepGrows(l: Link, step: Step)
    requires Inv(l.a) && Inv(l.b)
    ensures Grown(l, Do(l, step))
  {
    hide Inv, Apply;
    match step
    case AtA(input) => ApplyGrows(l.a, input);
    case AtB(input) => ApplyGrows(l.b, input);
  }

  lemma StepKeepsInvs(l: Link, step: Step)
    requires Inv(l.a) && Inv(l.b)
    ensures Inv(Do(l, step).a) && Inv(Do(l, step).b)
  {
    hide Inv, Apply;
    match step
    case AtA(input) => ApplyKeepsInv(l.a, input);
    case AtB(input) => ApplyKeepsInv(l.b, input);
  }

  lemma {:induction false} InvsAt(links: seq<Link>, steps: seq<Step>, k: nat)
    requires LinkTrace(links, steps) && k <= |steps| && Inv(links[0].a) && Inv(links[0].b)
    ensures Inv(links[k].a) && Inv(links[k].b) && Grown(links[0], links[k])
  {
    hide Inv, Do, CanDo;
    if k > 0 {
      InvsAt(links, steps, k - 1);
      assert LinkStepAt(links, steps, k - 1);
      StepKeepsInvs(links[k - 1], steps[k - 1]);
      StepGrows(links[k - 1], steps[k - 1]);
    }
  }

  /** Every run keeps what ties the two engines together, as long as ids are unique. */
  lemma {:induction false} LinkInvAt(links: seq<Link>, steps: seq<Step>, k: nat)
    requires LinkTrace(links, steps) && k <= |steps| && LinkInv(links[0]) && UniqueIds(links[k])
    ensures LinkInv(links[k])
  {
    hide Inv, OneWay, Do, CanDo;
    if k > 0 {
      InvsAt(links, steps, k - 1);
      assert LinkStepAt(links, steps, k - 1);
      StepGrows(links[k - 1], steps[k - 1]);
      LinkInvAt(links, steps, k - 1);
      LinkStep(links[k - 1], steps[k - 1]);
    }
  }

  lemma FreshLinkInv(l: Link)
    requires IsReset(l.a) && IsReset(l.b)
    ensures LinkInv(l)
  {
    IsResetInv(l.a);
    IsResetInv(l.b);
    hide Inv, OneWay, ClampCredits, EmptyWindow, FreshPool;
    FreshOneWay(l.a, l.b);
    FreshOneWay(l.b, l.a);
  }

  lemma ReachableInvs(l: Link)
    requires ReachableLink(l)
    ensures Inv(l.a) && Inv(l.b)
  {
    hide Inv, LinkStepAt, IsReset, Grown, ReachableLink;
    var links, steps := ReachableLinkTrace(l);
    IsResetInv(links[0].a);
    IsResetInv(links[0].b);
    InvsAt(links, steps, |steps|);
  }

  lemma ReachableKeeps(l: Link)
    requires ReachableLink(l) && UniqueIds(l)
    ensures LinkInv(l)
  {
    hide LinkInv, UniqueIds, LinkStepAt, IsReset, ReachableLink;
    var links, steps := ReachableLinkTrace(l);
    FreshLinkInv(links[0]);
    LinkInvAt(links, steps, |steps|);
  }

  // ---- either end may be called A ----

  function Swap(l: Link): Link {
    Link(l.b, l.a)
  }

  function SwapStep(step: Step): Step {
    match step case AtA(input) => AtB(input) case AtB(input) => AtA(input)
  }

  lemma SwapDo(l: Link, step: Step)
    ensures CanDo(Swap(l), SwapStep(step)) <==> CanDo(l, step)
    ensures Do(Swap(l), SwapStep(step)) == Swap(Do(l, step))
  {
    hide Apply, Allowed;
  }

  /** Whatever holds of every reachable link holds with the two ends exchanged. */
  lemma SwapReachable(l: Link)
    requires ReachableLink(l)
    ensures ReachableLink(Swap(l))
  {
    hide Do, CanDo, Reset;
    var setup: Setup, links, steps :| LinkHistory(setup, links, steps) && l == links[|steps|];
    var mirrored := seq(|links|, k requires 0 <= k < |links| => Swap(links[k]));
    var turned := seq(|steps|, k requires 0 <= k < |steps| => SwapStep(steps[k]));
    var other := Setup(setup.configB, setup.envB, setup.configA, setup.envA);
    assert LinkAt(setup, links, steps, 0);
    forall k | 0 <= k <= |turned| ensures LinkAt(other, mirrored, turned, k) {
      if k > 0 {
        assert LinkAt(setup, links, steps, k);
        SwapDo(links[k - 1], steps[k - 1]);
      }
    }
    assert LinkHistory(other, mirrored, turned);
    assert Swap(l) == mirrored[|turned|];
  }

  // ---- the theorems ----

  /** The datagram accepted under an id, looked up by its place in the order of submission. */
  predicate SubmittedAs(s: Engine, id: uint16, data: Bytes) {
    var n := Position(s.config.initialDatagramId, id);
    n < |s.submitted| && s.submitted[n] == data
  }

  lemma {:induction false} DoneMeansDelivered(log: Log, id: uint16) returns (k: nat)
    requires id in RecordOf(log).done
    ensures k < |log| && log[k].Delivered? && log[k].id == id && log[k].accepted
  {
    var n := |log| - 1;
    if log[n].Delivered? && log[n].id == id && log[n].accepted {
      k := n;
    } else {
      k := DoneMeansDelivered(log[..n], id);
    }
  }

  lemma {:induction false} DeliveredIsOffered(log: Log, k: nat)
    requires k < |log| && log[k].Delivered?
    ensures (log[k].id, log[k].data) in RecordOf(log).offered
  {
    if k < |log| - 1 {
      DeliveredIsOffered(log[..|log| - 1], k);
    }
  }

  lemma DeliveryIsSubmission(s: Engine, r: Engine, k: nat)
    requires OneWay(s, r) && |s.submitted| <= 0x1_0000 && k < |r.log| && r.log[k].Delivered?
    ensures SubmittedAs(s, r.log[k].id, r.log[k].data)
  {
    DeliveredIsOffered(r.log, k);
    hide TxLink, RecordOf, Claims, WindowHonest, SlotsGenuine;
    BookIsSubmissions(s.config.initialDatagramId, s.submitted);
    hide BookOf, Position;
  }

  /** End-to-end integrity: in every run, whatever was lost, repeated, reordered or interleaved,
      every byte string handed to the egress is the datagram submitted under that id. */
  lemma DeliveredAsSubmitted(l: Link, k: nat)
    requires ReachableLink(l) && UniqueIds(l) && k < |l.b.log| && l.b.log[k].Delivered?
    ensures SubmittedAs(l.a, l.b.log[k].id, l.b.log[k].data)
  {
    hide ReachableLink, Inv, OneWay, SubmittedAs;
    ReachableKeeps(l);
    DeliveryIsSubmission(l.a, l.b, k);
  }

  /** No acknowledged loss: in every run, when the sender has completed a slot, the peer's egress
      has accepted that datagram, byte for byte. */
  lemma NoAcknowledgedLoss(l: Link, k: nat) returns (j: nat, data: Bytes)
    requires ReachableLink(l) && UniqueIds(l) && k < |l.a.log| && l.a.log[k].Completed?
    ensures j < |l.b.log| && l.b.log[j] == Delivered(l.a.log[k].id, data, true)
    ensures SubmittedAs(l.a, l.a.log[k].id, data)
  {
    ReachableKeeps(l);
    hide ReachableLink, Inv, SubmittedAs, TxLink, RxLink, RecordOf, AckedClaimed, UniqueIds;
    j := DoneMeansDelivered(l.b.log, l.a.log[k].id);
    data := l.b.log[j].data;
    DeliveredAsSubmitted(l, j);
  }

  /** Honest acknowledgements: in every run each one is of a datagram that was submitted, and lists only
      fragments of it; one that reports success and covers every fragment belongs to a datagram the
      egress took, and a credit withdrawal leaves out a fragment and grants no credit. */
  lemma AcknowledgementsAreHonest(l: Link, ack: AckFrame) returns (d: Bytes)
    requires ReachableLink(l) && UniqueIds(l) && ack in Said(l.b)
    ensures SubmittedAs(l.a, ack.datagramId, d) && Datagram(d) && ack.fragmentBitmap <= All(d)
    ensures ack.failure == NONE && All(d) <= ack.fragmentBitmap ==>
              exists j :: 0 <= j < |l.b.log| && l.b.log[j] == Delivered(ack.datagramId, d, true)
    ensures ack.failure == CREDIT_WITHDRAWAL ==> 0 in All(d) && 0 !in ack.fragmentBitmap && ack.receiverCredits == 0
  {
    ReachableKeeps(l);
    hide ReachableLink, Inv, TxLink, RecordOf, AckedClaimed, UniqueIds;
    var book := BookFor(l.a);
    BookIsSubmissions(l.a.config.initialDatagramId, l.a.submitted) by { Unique(l); }
    hide BookOf, Position, WindowHonest, DeliveriesHonest, SlotsGenuine, Said;
    assert AckHonest(ack, l.b.rx, RecordOf(l.b.log).done, book);
    d := book[ack.datagramId];
    NonEmpty(d);
    hide HeldBits, All;
    if ack.failure == NONE && All(d) <= ack.fragmentBitmap {
      if ack.datagramId !in RecordOf(l.b.log).done {
        var m := SomethingUnclaimed(l.b, book, ack.datagramId);
        assert false;
      }
      var j := DoneMeansDelivered(l.b.log, ack.datagramId);
      DeliveredAsSubmitted(l, j);
    }
  }

  lemma Unique(l: Link)
    requires UniqueIds(l)
    ensures |l.a.submitted| <= 0x1_0000
  {}

  /** Until a datagram is delivered, what the sender has seen acknowledged is a strict subset of
      its fragments and lies within what the receiver holds: nothing acknowledged has to be sent
      again, and something is always left to send. */
  lemma AckedLagsHeld(l: Link, i: nat)
    requires ReachableLink(l) && UniqueIds(l) && i < 4 && l.a.tx[i].state == OPEN
    requires l.a.tx[i].datagramId !in RecordOf(l.b.log).done
    ensures l.a.tx[i].acked < FullBitmap(l.a.tx[i])
    ensures l.a.tx[i].acked <= HeldBits(l.b.rx, l.a.tx[i].datagramId)
  {
    ReachableKeeps(l);
    OpenLagsHeld(l.a, l.b, i) by { hide OneWay; }
  }

  lemma OpenLagsHeld(s: Engine, r: Engine, i: nat)
    requires OneWay(s, r) && Inv(s) && i < 4 && s.tx[i].state == OPEN && s.tx[i].datagramId !in RecordOf(r.log).done
    ensures s.tx[i].acked < FullBitmap(s.tx[i]) && s.tx[i].acked <= HeldBits(r.rx, s.tx[i].datagramId)
  {
    InvParts(s);
    hide Inv, TxInv, RecordOf, HeldBits, FullBitmap, BookFor, All, TxLink;
    var id, book := s.tx[i].datagramId, BookFor(s);
    FullIsAll(s, i);
    HeldWithin(r, book, id);
    forall k | k in s.tx[i].acked ensures k in HeldBits(r.rx, id) {
      assert Claimed(RecordOf(r.log).sent, id, k);
      var ack :| ack in RecordOf(r.log).sent && ack.datagramId == id && ack.failure != CREDIT_WITHDRAWAL
                 && k in ack.fragmentBitmap;
      assert AckHonest(ack, r.rx, RecordOf(r.log).done, book);
    }
    var m := SomethingUnclaimed(r, book, id);
    if m in s.tx[i].acked {
      assert Claimed(RecordOf(r.log).sent, id, m);
      ClaimedNotUnclaimed(r, id, m);
    }
  }
}
