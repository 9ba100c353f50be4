/** What the engine does when it can: a received acknowledgement takes effect, a credit is used, a retry
    is made, and two engines bring a datagram all the way to its completion. */
module ArqProgress {
  import opened Words
  import opened FramingV3
  import opened FragmentV3
  import opened DatagramPool
  import opened DuplicateWindow
  import opened ArqState
  import opened ArqInvariant
  import opened ArqReceiver
  import opened ArqSender
  import opened ArqLink
  import opened ArqTiming
  import opened ArqRounds
  import opened AtMostOnce
  import opened Redelivery
  import opened ArqReplies
  import opened ArqConvergence

  // ---- a received acknowledgement ----

  /** In every reachable state a received ACK packet moves the slot it names, the credits and the log as an
      acknowledgement does, and nothing else; a withdrawal puts the next round a stall timeout off. */
  lemma AckPacketMoves(s: Engine, p: Packet, ack: AckFrame, now: uint32, t: Engine)
    requires Reachable(s) && Decode(p) == Success(Ack(ack)) && Leads(s, PacketInput(p, now), t)
    ensures AckMoves(s, t, ack)
    ensures forall i :: 0 <= i < 4 && Names(ack, s.tx[i]) && ack.failure == CREDIT_WITHDRAWAL ==>
              t.tx[i].retryDeadline == Wrap32(now + s.config.creditStallTimeout)
  {
    hide *;
    ReachableInv(s);
    InvParts(s);
    LeadsIs(s, PacketInput(p, now), t);
    PacketIsAck(s, p, ack, now);
    HandleAckMoves(s, ack, now);
    forall i | 0 <= i < 4 && Names(ack, s.tx[i]) && ack.failure == CREDIT_WITHDRAWAL
      ensures t.tx[i].retryDeadline == Wrap32(now + s.config.creditStallTimeout)
    {
      NamesOpen(ack, s.tx[i]);
      WithdrawalBacksOff(s, i, ack, now);
    }
  }

  lemma PacketIsAck(s: Engine, p: Packet, ack: AckFrame, now: uint32)
    requires Decode(p) == Success(Ack(ack))
    ensures Apply(s, PacketInput(p, now)) == HandleAck(s, ack, now)
  {
    hide Decode, HandleAck;
  }

  lemma NamesOpen(ack: AckFrame, slot: TxSlot)
    ensures Names(ack, slot) <==> slot.state == OPEN && slot.datagramId == ack.datagramId
  {}

  // ---- fragments are offered to the radio ----

  /** The least fragment of the round is offered to the radio, flagged as the end of the round if it is the
      only one, and leaves the round exactly when it is taken. */
  ghost predicate NextOffered(id: uint16, round: Bitmap, before: Log, send: Option<(Log, Packet) -> bool>,
                              left: Bitmap, after: Log) {
    if send.None? then left == round && after == before
    else exists f :: OfferedAs(f, id, round, before, send.value, left, after)
  }

  ghost predicate OfferedAs(f: Frame, id: uint16, round: Bitmap, before: Log, send: (Log, Packet) -> bool,
                            left: Bitmap, after: Log) {
    && IsNextOf(f, id, round) && Buildable(f)
    && var taken := send(before, Encode(f));
       after == before + [Sent(f, taken)] && left == if taken then round - {f.header.fragmentIndex} else round
  }

  /** Slot i made progress in its round, and nothing else but the log changed. */
  ghost predicate GoesOn(s: Engine, t: Engine, i: nat)
    requires i < 4
  {
    && t == s.(tx := s.tx[i := t.tx[i]], log := t.log) && SameStage(s.tx[i], t.tx[i])
    && NextOffered(s.tx[i].datagramId, s.tx[i].round, s.log, s.callbacks.send, t.tx[i].round, t.log)
  }

  lemma NextGoesOut(s: Engine, i: nat, now: uint32)
    requires TxInv(s) && i < 4 && s.tx[i].state == OPEN
    requires s.tx[i].nextFragment < s.tx[i].fragmentCount && s.tx[i].nextFragment in s.tx[i].round
    requires forall k :: k in s.tx[i].round ==> s.tx[i].nextFragment <= k
    ensures var (t, sent) := SendNext(s, i, now);
            GoesOn(s, t, i) && (sent <==> t.tx[i].round != s.tx[i].round)
  {
    hide TxInv, FragmentFrame, Encode, Decode, Wrap32;
    var slot := s.tx[i];
    var k := slot.nextFragment;
    EveryFragmentBuilds(s, i, k);
    var f := FragmentFrame(s, i, k).value;
    assert slot.round - {k} == {} <==> slot.round == {k};
    assert IsNextOf(f, slot.datagramId, slot.round);
    hide IsNextOf;
    var (t, sent) := SendNext(s, i, now);
    assert k !in slot.round - {k};
    if s.callbacks.send.Some? {
      assert OfferedAs(f, slot.datagramId, slot.round, s.log, s.callbacks.send.value, t.tx[i].round, t.log);
    }
  }

  lemma RoundGoesOn(s: Engine, i: nat, now: uint32)
    requires TxInv(s) && i < 4 && s.tx[i].state == OPEN && s.tx[i].round != {}
    ensures var (t, sent) := TrySendOpenData(s, 0, now);
            GoesOn(s, t, i) && (sent <==> t.tx[i].round != s.tx[i].round)
  {
    hide TxInv, Scan, TxSlotOk, FragmentFrame, RxSame, SendNext, NextOffered, TrySendOpenData;
    OneOpen(s, i);
    UpToTheOpenSlot(s, i, 0, now);
    InvSlotOk(s, i);
    ScanFindsLeast(s.config, s.tx[i]);
    ScannedOk(s.config, s.tx[i]);
    var u := SetTx(s, i, s.tx[i].(nextFragment := Scan(s.tx[i], s.tx[i].nextFragment)));
    ProgressKeeps(s, i, u.tx[i]);
    NextGoesOut(u, i, now);
    var (t, sent) := SendNext(u, i, now);
    OnlyOpenStays(s, t, i);
    PastTheOpenSlot(t, i, i + 1, now);
    OpenDataAt(s, i, now);
  }

  lemma OnlyOpenStays(s: Engine, t: Engine, i: nat)
    requires OnlyOpen(s, i) && t.tx == s.tx[i := t.tx[i]] && SameStage(s.tx[i], t.tx[i])
    ensures OnlyOpen(t, i)
  {}

  lemma OpenDataAt(s: Engine, i: nat, now: uint32)
    requires i < 4 && s.tx[i].state == OPEN && s.tx[i].round != {}
    requires Scan(s.tx[i], s.tx[i].nextFragment) < s.tx[i].fragmentCount
    ensures var (t, sent) := SendNext(SetTx(s, i, s.tx[i].(nextFragment := Scan(s.tx[i], s.tx[i].nextFragment))), i,
        now);
            TrySendOpenData(s, i, now) == if sent then (t, true) else TrySendOpenData(t, i + 1, now)
  {
    hide SendNext, Scan;
  }

  /** Nothing to acknowledge and nothing to deliver: a tick is all transmission. */
  predicate FreeToSend(s: Engine) {
    |s.acks| == 0 && !SomeWaiting(s.rx)
  }

  lemma FreeTick(s: Engine, now: uint32)
    requires FreeToSend(s)
    ensures OnTick(s, now) == TxTick(s, now)
  {
    NothingToComplete(s, 0, now);
  }

  /** Every tick in a round offers the round's next fragment to the radio, and does nothing else. */
  lemma TickGoesOn(s: Engine, i: nat, now: uint32, t: Engine)
    requires Reachable(s) && FreeToSend(s) && Leads(s, TickInput(now), t)
    requires i < 4 && s.tx[i].state == OPEN && s.tx[i].round != {}
    ensures GoesOn(s, t, i)
  {
    hide Reachable, Leads, Inv, TxInv, RxOk, FreeToSend, GoesOn, RetransmitDue, OnTick, TrySendRetransmit,
         TrySendOpenData;
    ReachableInv(s);
    InvParts(s);
    TickLeads(s, now, t);
    FreeTick(s, now);
    OneOpen(s, i);
    NotDueInRound(s, i, now);
    RetransmitSkips(s, i, 0, now);
    RoundGoesOn(s, i, now);
    OpenStopsQueue(s, TrySendOpenData(s, 0, now).0, i, now);
  }

  lemma OpenStopsQueue(s: Engine, t: Engine, i: nat, now: uint32)
    requires OnlyOpen(s, i) && GoesOn(s, t, i)
    ensures TryOpenQueued(t, now) == (t, false)
  {
    NoneOpen(t);
    hide NextOffered, CountTx, OpenNext;
  }

  // ---- a credit is used ----

  /** Slot i is opened: it starts its first attempt with all its fragments, a credit is spent if there is
      one, the opening is logged, as a stall probe exactly when there is none, and the first fragment
      is offered to the radio. Nothing else changes, but a probe is no longer armed. */
  ghost predicate Opens(s: Engine, t: Engine, i: nat)
    requires i < 4
  {
    var a, b := s.tx[i], t.tx[i];
    && t == s.(tx := s.tx[i := b], log := t.log, credits := t.credits, probeArmed := false)
    && b == a.(state := OPEN, attempts := 1, acked := {}, round := b.round, nextFragment := b.nextFragment,
               retryDeadline := b.retryDeadline)
    && t.credits == (if s.credits > 0 then s.credits - 1 else 0)
    && NextOffered(a.datagramId, FullBitmap(a), s.log + [Opened(a.datagramId, s.credits == 0)], s.callbacks.send,
                   b.round, t.log)
  }

  lemma OpenNextOpens(s: Engine, now: uint32)
    requires TxInv(s) && ActiveCount(s) == 0 && FirstTx(s.tx, QUEUED, 0) < 4 && !s.probeArmed
    ensures Opens(s, OpenNext(s, now).0, FirstTx(s.tx, QUEUED, 0))
  {
    hide TxInv, TxSlotOk, CountTx, TrySendOpenData, NextOffered, RxSame, Wrap32, FirstTx;
    var i := FirstTx(s.tx, QUEUED, 0);
    OpenSlotKeeps(s, i, now);
    InvSlotOk(s, i);
    SomeFragment(s.config, s.tx[i]);
    hide FullBitmap;
    RoundGoesOn(OpenSlot(s, i, now), i, now);
  }

  lemma SomeFragment(c: Config, slot: TxSlot)
    requires TxSlotOk(c, slot) && slot.state != EMPTY
    ensures FullBitmap(slot) != {}
  {
    Geometry(slot.len, 0);
    assert 0 in FullBitmap(slot);
  }

  predicate ProbeRanOut(s: Engine, now: uint32) {
    s.credits == 0 && s.probeArmed && Reached(now, s.probeDeadline)
  }

  ghost predicate TurnsToQueue(s: Engine, now: uint32, t: Engine) {
    var i := FirstTx(s.tx, QUEUED, 0);
    if i < 4 && (s.credits > 0 || ProbeRanOut(s, now)) then Opens(s, t, i)
    else if i < 4 && !s.probeArmed then
      t == s.(probeArmed := true, probeDeadline := Wrap32(now + s.config.creditStallTimeout))
    else if i < 4 then t == s
    else t == s.(probeArmed := false)
  }

  /** With nothing in flight a tick turns to the queue. A credit, or a stall probe that ran out, opens the
      lowest queued slot. Without either the probe is armed, once, a stall timeout ahead. With
      nothing queued it is disarmed. */
  lemma TickTurnsToQueue(s: Engine, now: uint32, t: Engine)
    requires Reachable(s) && FreeToSend(s) && Leads(s, TickInput(now), t)
    requires forall j :: 0 <= j < 4 ==> s.tx[j].state != OPEN
    ensures TurnsToQueue(s, now, t)
  {
    hide *;
    ReachableInv(s);
    TickLeads(s, now, t);
    QueueTurn(s, now);
  }

  lemma QueueTurn(s: Engine, now: uint32)
    requires Inv(s) && FreeToSend(s) && forall j :: 0 <= j < 4 ==> s.tx[j].state != OPEN
    ensures TurnsToQueue(s, now, OnTick(s, now))
  {
    hide Inv, TxInv, RxOk, FreeToSend, Opens, OnTick, TrySendRetransmit, TrySendOpenData, Reached, CountTx, OpenNext,
         Wrap32;
    InvParts(s);
    FreeTick(s, now);
    NothingToRetransmit(s, 0, now);
    NothingOpenToSend(s, 0, now);
    NoneOpen(s);
    NoneQueued(s);
    var v := s.(probeArmed := false);
    ProbeKeeps(s, v);
    if FirstTx(s.tx, QUEUED, 0) < 4 {
      OpenNextOpens(v, now);
      OpensDisarmed(s, v, OpenNext(v, now).0, FirstTx(s.tx, QUEUED, 0));
    } else {
      NothingToOpen(v, now);
    }
  }

  lemma NoneQueued(s: Engine)
    ensures QueuedCount(s) == 0 <==> FirstTx(s.tx, QUEUED, 0) == 4
  {}

  lemma NothingToOpen(s: Engine, now: uint32)
    requires FirstTx(s.tx, QUEUED, 0) == 4
    ensures OpenNext(s, now) == (s, false)
  {}

  lemma OpensDisarmed(s: Engine, v: Engine, t: Engine, i: nat)
    requires i < 4 && v == s.(probeArmed := false) && Opens(v, t, i)
    ensures Opens(s, t, i)
  {
    hide NextOffered;
  }

  // ---- a retry is made, or the datagram given up ----

  /** Slot i starts another attempt with every fragment not acknowledged, and offers the least of them to the
      radio, once more in the same tick when it is refused. Nothing else but the log changes. */
  ghost predicate Retries(s: Engine, t: Engine, i: nat)
    requires i < 4
  {
    var a, b := s.tx[i], t.tx[i];
    && t == s.(tx := s.tx[i := b], log := t.log) && b.attempts == a.attempts + 1
    && b == a.(attempts := b.attempts, round := b.round, nextFragment := b.nextFragment,
               retryDeadline := b.retryDeadline)
    && exists left: Bitmap, mid: Log :: OfferedTwice(a.datagramId, Initial(a), s.log, s.callbacks.send, left, mid,
        b.round, t.log)
  }

  ghost predicate OfferedTwice(id: uint16, round: Bitmap, before: Log, send: Option<(Log, Packet) -> bool>,
                               left: Bitmap, mid: Log, end: Bitmap, after: Log) {
    && NextOffered(id, round, before, send, left, mid)
    && if left != round then end == left && after == mid else NextOffered(id, round, mid, send, end, after)
  }

  lemma RetryGoesOut(s: Engine, i: nat, now: uint32)
    requires TxInv(s) && OnlyOpen(s, i) && RetransmitDue(s, i, now) && s.tx[i].attempts < s.config.maxAttempts
    ensures Retries(s, TxTick(s, now), i)
  {
    hide TxInv, NewRound, SendNext, TrySendRetransmit, TrySendOpenData, TryOpenQueued, NextOffered, RetransmitDue,
         Initial;
    hide RxSame, OnlyOpen;
    OpenSlotAt(s, i);
    var u := SetTx(s, i, NewRound(s.tx[i]));
    RoundSet(s, i, now, u);
    NewRoundParts(s.tx[i]);
    NextGoesOut(u, i, now);
    SendNextKeeps(u, i, now);
    RetransmitStep(s, i, now);
    DueSkips(s, i, now);
    var (v, sent) := SendNext(u, i, now);
    var round := Initial(s.tx[i]);
    if sent {
      assert OfferedTwice(s.tx[i].datagramId, round, s.log, s.callbacks.send, v.tx[i].round, v.log, v.tx[i].round,
          v.log);
    } else {
      OnlyOpenStays(u, v, i);
      RetransmitPast(v, i, i + 1, now);
      InRoundNotEmpty(s, i, now);
      RoundGoesOn(v, i, now);
      var t := TrySendOpenData(v, 0, now).0;
      OpenStopsQueue(v, t, i, now);
      assert OfferedTwice(s.tx[i].datagramId, round, s.log, s.callbacks.send, v.tx[i].round, v.log, t.tx[i].round,
          t.log);
    }
  }

  lemma InRoundNotEmpty(s: Engine, i: nat, now: uint32)
    requires i < 4 && RetransmitDue(s, i, now)
    ensures Initial(s.tx[i]) != {}
  {}

  lemma NewRoundParts(slot: TxSlot)
    requires slot.attempts < 0xFF
    ensures var b := NewRound(slot);
            b == slot.(attempts := slot.attempts + 1, round := b.round, nextFragment := b.nextFragment)
  {
    hide Scan, FullBitmap;
  }

  /** Between rounds, with fragments unacknowledged and the retry deadline reached, a tick starts another attempt
      as long as there are attempts left, and gives the datagram up exactly when there are none. */
  lemma TickRetries(s: Engine, i: nat, now: uint32, t: Engine)
    requires Reachable(s) && FreeToSend(s) && Leads(s, TickInput(now), t)
    requires i < 4 && RetransmitDue(s, i, now)
    ensures if s.tx[i].attempts < s.config.maxAttempts then Retries(s, t, i)
            else t.tx[i] == EMPTY_TX && s.log + [Exhausted(s.tx[i].datagramId)] <= t.log
  {
    hide Reachable, Leads, Inv, TxInv, RxOk, FreeToSend, OnTick, TxTick, Retries;
    ReachableInv(s);
    InvParts(s);
    TickLeads(s, now, t);
    FreeTick(s, now);
    DueIsOpen(s, i, now);
    OneOpen(s, i);
    hide RetransmitDue;
    if s.tx[i].attempts < s.config.maxAttempts {
      RetryGoesOut(s, i, now);
    } else {
      GivenUpIsEmpty(s, i, now);
      GivenUpIsLogged(s, i, now);
      TxTickKeeps(s, now);
      EmptyIs(t, i);
    }
  }

  lemma DueIsOpen(s: Engine, i: nat, now: uint32)
    requires i < 4 && RetransmitDue(s, i, now)
    ensures s.tx[i].state == OPEN
  {}

  lemma EmptyIs(s: Engine, i: nat)
    requires TxInv(s) && i < 4 && s.tx[i].state == EMPTY
    ensures s.tx[i] == EMPTY_TX
  {
    InvSlotOk(s, i);
    hide TxInv;
  }

  lemma GivenUpIsLogged(s: Engine, i: nat, now: uint32)
    requires TxInv(s) && OnlyOpen(s, i) && RetransmitDue(s, i, now) && s.tx[i].attempts >= s.config.maxAttempts
    ensures s.log + [Exhausted(s.tx[i].datagramId)] <= TxTick(s, now).log
  {
    hide TxInv, OnlyOpen, RetransmitDue, TrySendRetransmit, TrySendOpenData, TryOpenQueued, FailTxSlot, RxSame;
    OpenSlotAt(s, i);
    TrySendRetransmitKeeps(s, 0, now);
    DueSkips(s, i, now);
    FailLogs(s, i, now);
    var f := TrySendRetransmit(s, 0, now).0;
    TrySendOpenDataKeeps(f, 0, now);
    var u := TrySendOpenData(f, 0, now).0;
    TryOpenQueuedKeeps(u, now);
    SameGrows(f, u);
    SameGrows(u, TryOpenQueued(u, now).0);
  }

  lemma FailLogs(s: Engine, i: nat, now: uint32)
    requires i < 4 && RetransmitDue(s, i, now) && s.tx[i].attempts >= s.config.maxAttempts
    ensures TrySendRetransmit(s, i, now) == (FailTxSlot(s, i), false)
    ensures FailTxSlot(s, i).log == s.log + [Exhausted(s.tx[i].datagramId)]
  {
    hide RetransmitDue;
  }

  // ---- a deadline that is now ----

  /** Everything is acknowledged, but not by an acknowledgement that reports success. */
  predicate Stuck(s: Engine, i: nat) {
    i < 4 && s.tx[i].state == OPEN && s.tx[i].round == {} && FullBitmap(s.tx[i]) <= s.tx[i].acked
  }

  /** A slot was given up, retried or opened, or offered its next fragment to the radio. */
  ghost predicate Acts(s: Engine, t: Engine, i: nat)
    requires i < 4
  {
    Acted(s, t, i) || (s.tx[i].state == OPEN && s.tx[i].round != {} && GoesOn(s, t, i))
  }

  /** An engine with a stuck slot says it has work to do now and never does any. */
  lemma StuckTick(s: Engine, i: nat, now: uint32, t: Engine)
    requires Reachable(s) && FreeToSend(s) && Stuck(s, i) && Leads(s, TickInput(now), t)
    ensures t == s && NextDeadline(s, now) == Some(now)
    ensures forall j :: 0 <= j < 4 ==> !Acts(s, t, j)
  {
    hide Reachable, Leads, Inv, TxInv, RxOk, OnTick, TrySendRetransmit, TrySendOpenData, FullBitmap, GoesOn, CountTx;
    hide RetryDeadlines, RetransmitDue;
    ReachableInv(s);
    InvParts(s);
    TickLeads(s, now, t);
    FreeTick(s, now);
    OneOpen(s, i);
    StuckNotDue(s, i, now);
    RetransmitSkips(s, i, 0, now);
    NothingOpenToSend(s, 0, now);
    NoneOpen(s);
    StuckDeadline(s, i, now, 0, None);
  }

  lemma StuckNotDue(s: Engine, i: nat, now: uint32)
    requires Stuck(s, i)
    ensures !RetransmitDue(s, i, now)
  {}

  lemma {:induction false} StuckDeadline(s: Engine, i: nat, now: uint32, j: nat, best: Option<uint32>)
    requires Stuck(s, i) && OnlyOpen(s, i) && j <= i
    ensures RetryDeadlines(s, now, j, best) == Some(now)
    decreases i - j
  {
    hide FullBitmap, Reached;
    if j < i {
      StuckDeadline(s, i, now, j + 1, best);
    }
  }

  /** When the deadline is now, with nothing to acknowledge or deliver, a tick acts, if and only if no slot is
      stuck. */
  lemma ActsWhenDue(s: Engine, now: uint32, t: Engine)
    requires Reachable(s) && FreeToSend(s) && NextDeadline(s, now) == Some(now) && Leads(s, TickInput(now), t)
    ensures (exists i :: 0 <= i < 4 && Acts(s, t, i)) <==> !exists i :: Stuck(s, i)
  {
    hide *;
    if exists i :: Stuck(s, i) {
      var i :| Stuck(s, i);
      StuckTick(s, i, now, t);
    } else {
      ActsUnlessStuck(s, now, t);
    }
  }

  lemma ActsUnlessStuck(s: Engine, now: uint32, t: Engine)
    requires Reachable(s) && FreeToSend(s) && NextDeadline(s, now) == Some(now) && Leads(s, TickInput(now), t)
    requires !exists i :: Stuck(s, i)
    ensures exists i :: 0 <= i < 4 && Acts(s, t, i)
  {
    hide Reachable, Leads, GoesOn, Retries, Opens, FullBitmap, CountTx, RetryDeadlines, RetransmitDue, FirstTx, Stuck;
    hide Acted;
    NoneOpen(s);
    NoneQueued(s);
    if SomeInRound(s.tx) {
      var i :| 0 <= i < 4 && s.tx[i].state == OPEN && s.tx[i].round != {};
      TickGoesOn(s, i, now, t);
      assert Acts(s, t, i);
    } else if ActiveCount(s) != 0 {
      var probe: Option<uint32> := None;
      RetryNow(s, now, 0, probe);
      var i :| 0 <= i < 4 && RetryAtOrStuck(s, i, now);
      StuckOrDue(s, i, now);
      TickRetries(s, i, now, t);
      RetryActed(s, t, i, now);
      assert Acts(s, t, i);
    } else {
      QueueActs(s, now, t);
    }
  }

  predicate RetryAtOrStuck(s: Engine, i: nat, now: uint32)
    requires i < 4
  {
    s.tx[i].state == OPEN
    && (FullBitmap(s.tx[i]) <= s.tx[i].acked || (s.tx[i].round == {} && s.tx[i].retryDeadline == now))
  }

  lemma {:induction false} RetryNow(s: Engine, now: uint32, i: nat, best: Option<uint32>)
    requires i <= 4 && RetryDeadlines(s, now, i, best) == Some(now)
    ensures best == Some(now) || exists j :: i <= j < 4 && RetryAtOrStuck(s, j, now)
    decreases 4 - i
  {
    hide Reached, FullBitmap;
    if i < 4 {
      var slot := s.tx[i];
      if slot.state == OPEN && FullBitmap(slot) <= slot.acked {
        assert RetryAtOrStuck(s, i, now);
      } else if slot.state == OPEN && slot.round == {} && (best.None? || !Reached(slot.retryDeadline, best.value)) {
        RetryNow(s, now, i + 1, Some(slot.retryDeadline));
        assert slot.retryDeadline == now ==> RetryAtOrStuck(s, i, now);
      } else {
        RetryNow(s, now, i + 1, best);
      }
    }
  }

  lemma StuckOrDue(s: Engine, i: nat, now: uint32)
    requires i < 4 && RetryAtOrStuck(s, i, now) && s.tx[i].round == {}
    ensures Stuck(s, i) || RetransmitDue(s, i, now)
  {
    ReachedAt(now);
    hide FullBitmap, Reached;
  }

  lemma RetryActed(s: Engine, t: Engine, i: nat, now: uint32)
    requires i < 4 && RetransmitDue(s, i, now)
    requires if s.tx[i].attempts < s.config.maxAttempts then Retries(s, t, i) else t.tx[i] == EMPTY_TX
    ensures Acted(s, t, i)
  {
    hide NextOffered, FullBitmap, Reached;
  }

  lemma QueueActs(s: Engine, now: uint32, t: Engine)
    requires Reachable(s) && FreeToSend(s) && NextDeadline(s, now) == Some(now) && Leads(s, TickInput(now), t)
    requires ActiveCount(s) == 0 && !SomeInRound(s.tx)
    ensures exists i :: 0 <= i < 4 && Acts(s, t, i)
  {
    hide Reachable, Leads, GoesOn, CountTx, FirstTx, Opens, FullBitmap, RetryDeadlines, Reached;
    NoneOpen(s);
    NoneQueued(s);
    var probe := if s.probeArmed && s.credits == 0 && QueuedCount(s) > 0 then Some(s.probeDeadline) else None;
    ReachedAt(now);
    if !(QueuedCount(s) > 0 && s.credits > 0) {
      RetryNow(s, now, 0, probe);
    }
    TickTurnsToQueue(s, now, t);
    OpensActed(s, t, FirstTx(s.tx, QUEUED, 0));
    assert Acts(s, t, FirstTx(s.tx, QUEUED, 0));
  }

  lemma OpensActed(s: Engine, t: Engine, i: nat)
    requires i < 4 && s.tx[i].state == QUEUED && Opens(s, t, i)
    ensures Acted(s, t, i)
  {
    hide NextOffered;
  }

  // ---- a run that gets stuck ----

  /** Callbacks of a radio that takes everything. */
  function Sending(): Callbacks {
    Callbacks(Some((log: Log, p: Packet) => true), None, None)
  }

  /** A refusal that nevertheless lists the only fragment. */
  function Refusal(id: uint16): AckFrame {
    AckFrame(id, {0}, 4, MALFORMED_INPUT)
  }

  /** One datagram of one byte is submitted, sent, and refused. */
  function RefusedRun(id: uint16): seq<Input> {
    [SubmitInput(Some([7])), TickInput(0), PacketInput(Encode(Ack(Refusal(id))), 0)]
  }

  /** An engine with one queued single-fragment datagram and a credit. */
  ghost predicate OneQueued(s: Engine, id: uint16) {
    && Inv(s) && s.rx == NO_RX_SLOTS && s.acks == [] && s.callbacks == Sending() && s.credits > 0
    && s.tx[0].state == QUEUED && s.tx[0].datagramId == id && s.tx[0].fragmentCount == 1
    && s.tx[1] == EMPTY_TX && s.tx[2] == EMPTY_TX && s.tx[3] == EMPTY_TX
  }

  lemma SubmitQueuesOne(config: Config)
    requires config.initialRemoteCredits > 0
    ensures OneQueued(Apply(Reset(config, Sending()), SubmitInput(Some([7]))), config.initialDatagramId)
  {
    var s := Reset(config, Sending());
    AcquiresFresh();
    ResetInv(config, Sending());
    hide Inv, Acquire, FreshPool, EmptyWindow;
    SubmitsFirst(s);
    ApplyKeepsInv(s, SubmitInput(Some([7])));
    hide Apply;
  }

  lemma SubmitsFirst(s: Engine)
    requires s.tx == NO_TX_SLOTS && Acquire(s.txPool).1.Some?
    ensures var t := Apply(s, SubmitInput(Some([7])));
            && t.rx == s.rx && t.acks == s.acks && t.callbacks == s.callbacks && t.credits == s.credits
            && t.tx[0].state == QUEUED && t.tx[0].datagramId == s.nextId && t.tx[0].fragmentCount == 1
            && t.tx[1] == EMPTY_TX && t.tx[2] == EMPTY_TX && t.tx[3] == EMPTY_TX
  {
    assert FirstTx(s.tx, EMPTY, 0) == 0;
    hide Acquire, WriteBuffer, Filled, FirstTx;
  }

  lemma AcquiresFresh()
    ensures Acquire(FreshPool()).1.Some?
  {
    FreshPoolOk();
    AcquireThenRelease(FreshPool());
    assert 0 in FreshPool().free;
    hide Acquire;
  }

  lemma OneIsSent(s: Engine, id: uint16)
    requires OneQueued(s, id)
    ensures var t := OnTick(s, 0);
            && Inv(t) && t.rx == s.rx && t.acks == s.acks && t.tx[0].state == OPEN && t.tx[0].datagramId == id
            && t.tx[0].round == {} && t.tx[0].acked == {} && t.tx[0].fragmentCount == 1
  {
    hide Inv, OnTick, Encode, IsNextOf;
    OnTickKeepsInv(s, 0);
    assert FirstTx(s.tx, QUEUED, 0) == 0 && !SomeWaiting(s.rx);
    QueueTurn(s, 0);
    var t := OnTick(s, 0);
    assert Opens(s, t, 0);
    hide FirstTx;
    var before := s.log + [Opened(id, s.credits == 0)];
    var f :| OfferedAs(f, id, FullBitmap(s.tx[0]), before, s.callbacks.send.value, t.tx[0].round, t.log);
    LeastOfOne(f, id, s.tx[0]);
  }

  lemma LeastOfOne(f: Frame, id: uint16, slot: TxSlot)
    requires slot.fragmentCount == 1 && IsNextOf(f, id, FullBitmap(slot))
    ensures FullBitmap(slot) - {f.header.fragmentIndex} == {}
  {}

  lemma RefusedIsStuck(s: Engine, id: uint16)
    requires Inv(s) && s.tx[0].state == OPEN && s.tx[0].datagramId == id
    requires s.tx[0].round == {} && s.tx[0].acked == {} && s.tx[0].fragmentCount == 1
    ensures var t := HandleAck(s, Refusal(id), 0);
            Stuck(t, 0) && t.rx == s.rx && t.acks == s.acks
  {
    hide Inv, HandleAck, TxInv, RxOk;
    InvParts(s);
    HandleAckMoves(s, Refusal(id), 0);
    var t := HandleAck(s, Refusal(id), 0);
    assert AckedMoves(s.tx[0], t.tx[0], Refusal(id));
    hide Grew;
  }

  /** A limit of the code: an acknowledgement that lists every fragment with a failure neither completes the
      datagram nor lets it be retried. Whatever the configuration, if it grants a credit, this run ends with
      a stuck slot. */
  lemma RefusalBlocks(config: Config) returns (states: seq<Engine>)
    requires config.initialRemoteCredits > 0
    ensures History(config, Sending(), states, RefusedRun(config.initialDatagramId))
    ensures Stuck(states[3], 0) && FreeToSend(states[3])
  {
    var id := config.initialDatagramId;
    var inputs := RefusedRun(id);
    hide Apply, Reset, OneQueued, Stuck, Inv, Encode, Decode, Refusal, HandleAck, OnTick;
    var s0 := Reset(config, Sending());
    var s1 := Apply(s0, inputs[0]);
    var s2 := Apply(s1, inputs[1]);
    var s3 := Apply(s2, inputs[2]);
    states := [s0, s1, s2, s3];
    SubmitQueuesOne(config);
    TickIs(s1, 0);
    OneIsSent(s1, id);
    RefusalDecodes(id);
    PacketIsAck(s2, Encode(Ack(Refusal(id))), Refusal(id), 0);
    RefusedIsStuck(s2, id);
    OneQueuedParts(s1, id);
    forall k | 0 <= k <= 3 ensures StateAt(config, Sending(), states, inputs, k) {}
  }

  lemma RefusalDecodes(id: uint16)
    ensures Decode(Encode(Ack(Refusal(id)))) == Success(Ack(Refusal(id)))
  {
    CodecRoundTrip(Ack(Refusal(id)));
    hide Encode, Decode;
  }

  lemma TickIs(s: Engine, now: uint32)
    ensures Apply(s, TickInput(now)) == OnTick(s, now)
  {
    hide OnTick;
  }

  lemma OneQueuedParts(s: Engine, id: uint16)
    requires OneQueued(s, id)
    ensures s.rx == NO_RX_SLOTS && s.acks == []
  {
    hide Inv;
  }
}
