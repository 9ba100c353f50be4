/** The discipline of a transmission round: every fragment of the round goes out once, in ascending
    order, and only the last one carries the ROUND_END flag. */
module ArqRounds {
  import opened Words
  import opened FramingV3
  import opened FragmentV3
  import opened DatagramPool
  import opened ArqState
  import opened ArqInvariant
  import ArqLink
  import ArqSender
  import ArqTiming

  /** The DATA frames a log shows the radio taking, in order. */
  function SentData(log: Log): seq<Frame> {
    if |log| == 0 then [] else SentData(log[..|log| - 1]) + DataOf(log[|log| - 1])
  }

  function DataOf(e: Event): seq<Frame> {
    if e.Sent? && e.accepted && e.frame.DataFrame? then [e.frame] else []
  }

  lemma SentDataAppend(log: Log, e: Event)
    ensures SentData(log + [e]) == SentData(log) + DataOf(e)
  {
    assert (log + [e])[..|log|] == log;
  }

  lemma {:induction false} RxSendsNoData(a: Log, b: Log)
    requires Grew(a, b, true)
    ensures SentData(b) == SentData(a)
    decreases |b|
  {
    if |a| < |b| {
      var c := b[..|b| - 1];
      assert IsRxEvent(b[|b| - 1]);
      assert forall k :: |a| <= k < |c| ==> c[k] == b[k];
      assert c[..|a|] == b[..|a|] == a;
      RxSendsNoData(a, c);
    } else {
      assert a == b;
    }
  }

  // ---- every fragment can be sent ----

  /** The fragment of d that FragmentFrame sends. */
  function FrameOf(d: Bytes, id: uint16, flags: byte, hint: byte, k: nat): (f: Frame)
    requires Datagram(d) && k < Count(d)
  {
    DataFrame(HeaderOf(d, id, flags, hint, k), Slice(d, k))
  }

  lemma DescribedFragment(d: Bytes, id: uint16, flags: byte, hint: byte, k: nat)
    requires Datagram(d) && k < Count(d) && flags <= V3_MAX_NIBBLE && hint <= V3_MAX_NIBBLE
    ensures Buildable(FrameOf(d, id, flags, hint, k))
    ensures DescribeDatagram(d, id, flags, hint).Success?
    ensures var fragments := DescribeDatagram(d, id, flags, hint).value;
            && k < |fragments|
            && DataFrame(fragments[k].header, fragments[k].payload) == FrameOf(d, id, flags, hint, k)
  {
    Geometry(|d|, k);
  }

  lemma SlotDatagram(s: Engine, i: nat)
    requires TxInv(s) && i < 4 && s.tx[i].state != EMPTY
    ensures SlotData(s, s.tx[i]).Some?
    ensures var d := SlotData(s, s.tx[i]).value; Datagram(d) && Count(d) == s.tx[i].fragmentCount
  {
    assert TxSlotOk(s.config, s.tx[i]);
    assert |Buffer(s.txPool, s.tx[i].handle)| == V3_MAX_DATAGRAM by { hide TxSlotOk, LedgerOk, CountTx; }
    hide TxInv, ExpectedFragmentCount;
  }

  /** Whatever state the engine is in, the packet for any fragment of a datagram it holds is
      described, built and, once received, parsed back to the same header and payload. */
  lemma EveryFragmentBuilds(s: Engine, i: nat, k: nat)
    requires TxInv(s) && i < 4 && s.tx[i].state != EMPTY && k < s.tx[i].fragmentCount
    ensures FragmentFrame(s, i, k).Some?
    ensures var f := FragmentFrame(s, i, k).value;
            && Decode(Encode(f)) == Success(f)
            && f.header.fragmentIndex == k && f.header.datagramId == s.tx[i].datagramId
            && (f.header.flags % 2 == V3_DATA_FLAG_ROUND_END <==> s.tx[i].round - {k} == {})
            && f.header.flags <= V3_DATA_FLAG_ROUND_END && f.header.queueDepthHint == QueuedCount(s)
  {
    SlotDatagram(s, i);
    var slot := s.tx[i];
    var d := SlotData(s, slot).value;
    hide TxInv, CountTx, SlotData, Count, DescribeDatagram, Buildable, Slice;
    DescribedFragment(d, slot.datagramId, RoundFlags(slot, k), QueuedCount(s), k);
    assert FragmentFrame(s, i, k) == Some(FrameOf(d, slot.datagramId, RoundFlags(slot, k), QueuedCount(s), k));
    hide FragmentFrame, Encode, Decode;
    CodecRoundTrip(FragmentFrame(s, i, k).value);
  }

  /** The scan stops at the least fragment of the round: the branch for a round whose fragments are
      all behind is never taken. */
  lemma ScanFindsLeast(c: Config, slot: TxSlot)
    requires TxSlotOk(c, slot) && slot.state == OPEN && slot.round != {}
    ensures var n := Scan(slot, slot.nextFragment);
            n < slot.fragmentCount && n in slot.round && forall k :: k in slot.round ==> n <= k
  {
    ScannedOk(c, slot);
  }

  // ---- one step within a round ----

  /** The slot is still in the round it was in. */
  predicate SameRound(a: TxSlot, b: TxSlot) {
    a.state == OPEN && b.state == OPEN && b.datagramId == a.datagramId && b.attempts == a.attempts
  }

  /** f is the least fragment of the slot's round, flagged as the end of the round if the only one. */
  predicate IsNextOf(f: Frame, id: uint16, round: Bitmap) {
    && f.DataFrame? && f.header.datagramId == id
    && f.header.fragmentIndex in round && (forall k :: k in round ==> f.header.fragmentIndex <= k)
    && (f.header.flags % 2 == V3_DATA_FLAG_ROUND_END <==> round == {f.header.fragmentIndex})
  }

  /** Of the fragments in `round` either none went out, or exactly the least one did. */
  ghost predicate Played(id: uint16, round: Bitmap, left: Bitmap, before: Log, after: Log) {
    || (left == round && SentData(after) == SentData(before))
    || exists f :: && IsNextOf(f, id, round) && left == round - {f.header.fragmentIndex}
                   && SentData(after) == SentData(before) + [f]
  }

  /** Of slot i's round nothing went out, or exactly the next fragment. */
  ghost predicate RoundStep(s: Engine, t: Engine, i: nat)
    requires i < 4
  {
    Played(s.tx[i].datagramId, s.tx[i].round, t.tx[i].round, s.log, t.log)
  }

  lemma SendStep(s: Engine, i: nat, now: uint32)
    requires TxInv(s) && i < 4 && s.tx[i].state == OPEN
    requires s.tx[i].nextFragment < s.tx[i].fragmentCount && s.tx[i].nextFragment in s.tx[i].round
    requires forall k :: k in s.tx[i].round ==> s.tx[i].nextFragment <= k
    ensures var (t, sent) := SendNext(s, i, now);
            && (sent ==>
                  var f := FragmentFrame(s, i, s.tx[i].nextFragment);
                  && f.Some? && IsNextOf(f.value, s.tx[i].datagramId, s.tx[i].round)
                  && t.tx[i].round == s.tx[i].round - {s.tx[i].nextFragment}
                  && f.value.header.fragmentIndex == s.tx[i].nextFragment
                  && SentData(t.log) == SentData(s.log) + [f.value])
            && (!sent ==> t == s.(log := t.log) && SentData(t.log) == SentData(s.log))
  {
    hide TxInv, FragmentFrame, SentData, Encode, Decode;
    var k := s.tx[i].nextFragment;
    EveryFragmentBuilds(s, i, k);
    var f := FragmentFrame(s, i, k).value;
    assert s.tx[i].round - {k} == {} <==> s.tx[i].round == {k};
    assert IsNextOf(f, s.tx[i].datagramId, s.tx[i].round);
    TransmitLog(s, f);
    hide IsNextOf, Transmit;
    assert SendDataFragment(s, i, k) == Transmit(s, f);
  }

  lemma TransmitLog(s: Engine, f: Frame)
    requires Buildable(f) && f.DataFrame?
    ensures var (t, accepted) := Transmit(s, f);
            && t == s.(log := t.log)
            && SentData(t.log) == SentData(s.log) + (if accepted then [f] else [])
  {
    hide SentData, Encode;
    SentDataAppend(s.log, Sent(f, true));
    SentDataAppend(s.log, Sent(f, false));
  }

  /** No other slot is OPEN. */
  predicate OnlyOpen(s: Engine, i: nat) {
    i < 4 && s.tx[i].state == OPEN && forall j :: 0 <= j < 4 && j != i ==> s.tx[j].state != OPEN
  }

  lemma OneOpen(s: Engine, i: nat)
    requires TxInv(s) && i < 4 && s.tx[i].state == OPEN
    ensures OnlyOpen(s, i)
  {
    hide LedgerOk, TxBuffersOk, TxSlotOk;
  }

  lemma {:induction false} PastTheOpenSlot(s: Engine, i: nat, j: nat, now: uint32)
    requires OnlyOpen(s, i) && i < j <= 4
    ensures TrySendOpenData(s, j, now) == (s, false)
    decreases 4 - j
  {
    hide SendNext, Scan;
    if j < 4 {
      PastTheOpenSlot(s, i, j + 1, now);
    }
  }

  lemma {:induction false} UpToTheOpenSlot(s: Engine, i: nat, j: nat, now: uint32)
    requires OnlyOpen(s, i) && j <= i
    ensures TrySendOpenData(s, j, now) == TrySendOpenData(s, i, now)
    decreases i - j
  {
    hide SendNext, Scan;
    if j < i {
      UpToTheOpenSlot(s, i, j + 1, now);
    }
  }

  lemma OpenDataStep(s: Engine, i: nat, now: uint32)
    requires TxInv(s) && OnlyOpen(s, i)
    ensures RoundStep(s, TrySendOpenData(s, 0, now).0, i)
    ensures OnlyOpen(TrySendOpenData(s, 0, now).0, i)
  {
    hide TxInv, Scan, TxSlotOk, FragmentFrame, RxSame, SendNext, SentData, IsNextOf;
    UpToTheOpenSlot(s, i, 0, now);
    if s.tx[i].round == {} {
      PastTheOpenSlot(s, i, i + 1, now);
    } else {
      InvSlotOk(s, i);
      ScanFindsLeast(s.config, s.tx[i]);
      ScannedOk(s.config, s.tx[i]);
      var slot := s.tx[i].(nextFragment := Scan(s.tx[i], s.tx[i].nextFragment));
      var u := SetTx(s, i, slot);
      ProgressKeeps(s, i, slot);
      SendStep(u, i, now);
      SendNextStates(u, i, now);
      var (t, sent) := SendNext(u, i, now);
      assert TrySendOpenData(s, i, now) == if sent then (t, true) else TrySendOpenData(t, i + 1, now);
      hide TrySendOpenData;
      PastTheOpenSlot(t, i, i + 1, now);
    }
  }

  lemma InvSlotOk(s: Engine, i: nat)
    requires TxInv(s) && i < 4
    ensures TxSlotOk(s.config, s.tx[i])
  {
    hide TxSlotOk, LedgerOk, TxBuffersOk;
  }

  lemma SendNextStates(s: Engine, i: nat, now: uint32)
    requires OnlyOpen(s, i)
    ensures OnlyOpen(SendNext(s, i, now).0, i)
  {
    hide FragmentFrame, Encode;
  }

  lemma {:induction false} RetransmitSkips(s: Engine, i: nat, j: nat, now: uint32)
    requires OnlyOpen(s, i) && j <= 4
    ensures TrySendRetransmit(s, j, now) == (s, false) || (j <= i && RetransmitDue(s, i, now))
    ensures j <= i && RetransmitDue(s, i, now) ==> TrySendRetransmit(s, j, now) == TrySendRetransmit(s, i, now)
    decreases 4 - j
  {
    hide SendNext, FailTxSlot, NewRound;
    if j < 4 && j != i {
      RetransmitSkips(s, i, j + 1, now);
    }
    if j == i && !RetransmitDue(s, i, now) {
      RetransmitSkips(s, i, j + 1, now);
    }
  }

  lemma TickRound(s: Engine, i: nat, now: uint32)
    requires Inv(s) && OnlyOpen(s, i) && SameRound(s.tx[i], TxTick(s, now).tx[i])
    ensures RoundStep(s, TxTick(s, now), i)
  {
    if RetransmitDue(s, i, now) {
      hide Inv, TxTick, RetransmitDue;
      ArqTiming.DueSlotActs(s, i, now);
      assert false;
    }
    InvParts(s);
    hide Inv, TxInv, RetransmitDue, TrySendRetransmit, TrySendOpenData, OpenNext, RxOk, RoundStep;
    RetransmitSkips(s, i, 0, now);
    OpenDataStep(s, i, now);
    SomeOpenCount(TrySendOpenData(s, 0, now).0, i);
    hide CountTx;
  }

  lemma SomeOpenCount(s: Engine, i: nat)
    requires OnlyOpen(s, i)
    ensures ActiveCount(s) != 0
  {}

  lemma RxRound(s: Engine, t: Engine, i: nat)
    requires TxSame(s, t) && i < 4
    ensures RoundStep(s, t, i)
  {
    RxSendsNoData(s.log, t.log);
    hide SentData, Grew;
  }

  /** The one kind of packet that cuts a round short: a credit withdrawal for its datagram. */
  predicate Withdraws(input: Input, id: uint16) {
    && input.PacketInput? && Decode(input.packet).Success? && Decode(input.packet).value.Ack?
    && Decode(input.packet).value.ack.datagramId == id
    && Decode(input.packet).value.ack.failure == CREDIT_WITHDRAWAL
  }

  /** Any other acknowledgement leaves the round as it is. */
  lemma AckRound(s: Engine, ack: AckFrame, now: uint32, i: nat)
    requires OnlyOpen(s, i) && HandleAck(s, ack, now).tx[i].state == OPEN
    requires !(ack.failure == CREDIT_WITHDRAWAL && ack.datagramId == s.tx[i].datagramId)
    ensures RoundStep(s, HandleAck(s, ack, now), i)
  {
    var t, seen := HandleAck(s, ack, now), s.log + [AckSeen(ack)];
    SentDataAppend(s.log, AckSeen(ack));
    SentDataAppend(seen, Completed(ack.datagramId));
    hide SentData, IsNextOf, FullBitmap, Wrap32, Release, ClampCredits;
    assert t.log == seen || t.log == seen + [Completed(ack.datagramId)];
  }

  lemma SubmitRound(s: Engine, data: Option<Bytes>, i: nat)
    requires i < 4 && s.tx[i].state == OPEN
    ensures RoundStep(s, Submit(s, data).0, i)
  {
    hide Acquire, WriteBuffer, Filled, SentData;
    var t := Submit(s, data).0;
    if t.log != s.log {
      SentDataAppend(s.log, t.log[|s.log|]);
    }
  }

  /** Within a round, any call but a credit withdrawal for the datagram sends nothing of the slot,
      or exactly its next fragment. */
  lemma InputRound(s: Engine, input: Input, i: nat)
    requires Inv(s) && i < 4 && SameRound(s.tx[i], Apply(s, input).tx[i])
    requires !Withdraws(input, s.tx[i].datagramId)
    ensures RoundStep(s, Apply(s, input), i)
  {
    InvParts(s);
    OneOpen(s, i);
    hide Inv, TxInv, RxOk, Submit, OnTick, TxTick, TryCompleteRxSlots, SendPendingAck, RoundStep, HandleData, HandleAck;
    hide Decode, Buildable, TxSame, RxSame, ValidateDataHeader;
    match input
    case SubmitInput(data) => SubmitRound(s, data, i);
    case PacketInput(packet, now) =>
      StillRound(s, i);
      if Decode(packet).Success? {
        DecodedIsBuildable(packet);
        match Decode(packet).value
        case Ack(ack) => AckRound(s, ack, now, i);
        case f => DataRound(s, f, now, i);
      }
    case TickInput(now) =>
      ArqLink.TickHalves(s, now);
      var u := SendPendingAck(TryCompleteRxSlots(s, 0, now).0, now).0;
      TxSameSlots(s, u);
      RxRound(s, u, i);
      if OnTick(s, now) != u {
        TickRound(u, i, now);
        RoundAfterRx(s, u, TxTick(u, now), i);
      }
    case FlushInput(now) =>
      ArqLink.FlushSame(s, now);
      RxRound(s, SendPendingAck(s, now).0, i);
  }

  lemma StillRound(s: Engine, i: nat)
    requires i < 4
    ensures RoundStep(s, s, i)
  {}

  lemma DataRound(s: Engine, f: Frame, now: uint32, i: nat)
    requires RxOk(s) && Buildable(f) && !f.Ack? && i < 4
    ensures RoundStep(s, OnFrame(s, f, now), i)
  {
    hide RxOk, HandleData, RoundStep, ValidateDataHeader, TxSame;
    StillRound(s, i);
    if f.DataFrame? {
      HandleDataKeeps(s, f.header, f.payload, now);
      RxRound(s, HandleData(s, f.header, f.payload, now), i);
    }
  }

  lemma TxSameSlots(s: Engine, t: Engine)
    requires TxSame(s, t)
    ensures t.tx == s.tx && SentData(t.log) == SentData(s.log)
  {
    RxSendsNoData(s.log, t.log);
  }

  lemma RoundAfterRx(s: Engine, u: Engine, t: Engine, i: nat)
    requires i < 4 && RoundStep(u, t, i) && u.tx == s.tx && SentData(u.log) == SentData(s.log)
    ensures RoundStep(s, t, i)
  {
    hide SentData, IsNextOf;
  }

  // ---- the tick a round begins with ----

  /** The slot was opened, or started on another attempt. */
  predicate Begins(a: TxSlot, b: TxSlot) {
    b.state == OPEN && (a.state == QUEUED || (a.state == OPEN && b.attempts == a.attempts + 1))
  }

  /** What a round begun in this state is to send: every fragment not acknowledged. */
  function Initial(slot: TxSlot): Bitmap {
    FullBitmap(slot) - slot.acked
  }

  /** The new round of slot i has sent nothing yet, or exactly its least fragment. */
  ghost predicate RoundStart(s: Engine, t: Engine, i: nat)
    requires i < 4
  {
    && t.tx[i].datagramId == s.tx[i].datagramId
    && Played(s.tx[i].datagramId, Initial(s.tx[i]), t.tx[i].round, s.log, t.log)
  }

  lemma UnsentNext(s: Engine, i: nat, now: uint32)
    requires i < 4 && !SendNext(s, i, now).1
    ensures SentData(SendNext(s, i, now).0.log) == SentData(s.log)
  {
    hide SentData, Encode, FragmentFrame;
    var k := s.tx[i].nextFragment;
    if k < s.tx[i].fragmentCount && FragmentFrame(s, i, k).Some? {
      SentDataAppend(s.log, Sent(FragmentFrame(s, i, k).value, false));
    }
  }

  lemma {:induction false} UnsentRetransmit(s: Engine, i: nat, now: uint32)
    requires i <= 4 && !TrySendRetransmit(s, i, now).1
    ensures SentData(TrySendRetransmit(s, i, now).0.log) == SentData(s.log)
    decreases 4 - i
  {
    hide SentData, SendNext, NewRound, RetransmitDue, Release;
    if i < 4 {
      if !RetransmitDue(s, i, now) {
        UnsentRetransmit(s, i + 1, now);
      } else if s.tx[i].attempts >= s.config.maxAttempts {
        SentDataAppend(s.log, Exhausted(s.tx[i].datagramId));
      } else {
        var u := SetTx(s, i, NewRound(s.tx[i]));
        UnsentNext(u, i, now);
        UnsentRetransmit(SendNext(u, i, now).0, i + 1, now);
      }
    }
  }

  lemma {:induction false} UnsentOpenData(s: Engine, i: nat, now: uint32)
    requires i <= 4 && !TrySendOpenData(s, i, now).1
    ensures SentData(TrySendOpenData(s, i, now).0.log) == SentData(s.log)
    decreases 4 - i
  {
    hide SentData, SendNext, Scan, Wrap32;
    if i < 4 {
      if s.tx[i].state != OPEN || s.tx[i].round == {} {
        UnsentOpenData(s, i + 1, now);
      } else {
        var slot := s.tx[i].(nextFragment := Scan(s.tx[i], s.tx[i].nextFragment));
        if slot.nextFragment >= slot.fragmentCount {
          UnsentOpenData(SetTx(s, i, slot.(round := {}, retryDeadline := RetryDeadline(s, now))), i + 1, now);
        } else {
          UnsentNext(SetTx(s, i, slot), i, now);
          UnsentOpenData(SendNext(SetTx(s, i, slot), i, now).0, i + 1, now);
        }
      }
    }
  }

  // A retransmit round.

  lemma NewRoundLeast(c: Config, slot: TxSlot)
    requires TxSlotOk(c, slot) && slot.state == OPEN && slot.attempts < c.maxAttempts
    requires !(FullBitmap(slot) <= slot.acked)
    ensures var b := NewRound(slot);
            && TxSlotOk(c, b) && b.state == OPEN && b.handle == slot.handle && b.datagramId == slot.datagramId
            && b.round == Initial(slot) && b.round != {}
            && b.nextFragment < b.fragmentCount && b.nextFragment in b.round
            && forall k :: k in b.round ==> b.nextFragment <= k
  {
    NewRoundOk(c, slot);
    hide ExpectedFragmentCount;
    var k :| k in FullBitmap(slot) && k !in slot.acked;
    assert k in NewRound(slot).round;
  }

  lemma {:induction false} RetransmitPast(s: Engine, i: nat, j: nat, now: uint32)
    requires OnlyOpen(s, i) && i < j <= 4
    ensures TrySendRetransmit(s, j, now) == (s, false)
    decreases 4 - j
  {
    hide SendNext, FailTxSlot, NewRound;
    if j < 4 {
      RetransmitPast(s, i, j + 1, now);
    }
  }

  lemma TickRetransmitted(s: Engine, now: uint32, t: Engine)
    requires TrySendRetransmit(s, 0, now) == (t, true)
    ensures TxTick(s, now) == t
  {
    hide TrySendRetransmit;
  }

  /** When the retransmit loop sent nothing and left slot i OPEN, the tick sends its next fragment,
      if any, and opens nothing. */
  lemma TickOfOpen(s: Engine, i: nat, now: uint32, t: Engine)
    requires TrySendRetransmit(s, 0, now) == (t, false) && TxInv(t) && OnlyOpen(t, i)
    ensures RoundStep(t, TxTick(s, now), i) && SameRound(t.tx[i], TxTick(s, now).tx[i])
  {
    hide TxInv, TrySendRetransmit, TrySendOpenData, OpenNext, CountTx, RoundStep;
    OpenDataStep(t, i, now);
    ArqTiming.OpenDataStages(t, 0, now);
    ArqTiming.StagesCount(t.tx, TrySendOpenData(t, 0, now).0.tx, OPEN);
    SomeOpenCount(TrySendOpenData(t, 0, now).0, i);
  }

  lemma SendNextSameRound(s: Engine, i: nat, now: uint32)
    requires i < 4 && s.tx[i].state == OPEN
    ensures SameRound(s.tx[i], SendNext(s, i, now).0.tx[i])
  {
    hide FragmentFrame, Encode;
  }

  lemma StepIsStart(s: Engine, u: Engine, t: Engine, i: nat)
    requires i < 4 && RoundStep(u, t, i) && SentData(u.log) == SentData(s.log) && SameRound(u.tx[i], t.tx[i])
    requires u.tx[i].round == Initial(s.tx[i]) && u.tx[i].datagramId == s.tx[i].datagramId
    ensures RoundStart(s, t, i)
  {
    hide SentData, IsNextOf, FullBitmap;
  }

  lemma SentIsStep(s: Engine, i: nat, now: uint32)
    requires TxInv(s) && i < 4 && s.tx[i].state == OPEN
    requires s.tx[i].nextFragment < s.tx[i].fragmentCount && s.tx[i].nextFragment in s.tx[i].round
    requires forall k :: k in s.tx[i].round ==> s.tx[i].nextFragment <= k
    ensures SendNext(s, i, now).1 ==> RoundStep(s, SendNext(s, i, now).0, i)
  {
    hide TxInv, FragmentFrame, SentData, IsNextOf, SendNext;
    SendStep(s, i, now);
  }

  /** The state a retransmit round starts from: the new round in the slot, nothing sent. */
  lemma RoundSet(s: Engine, i: nat, now: uint32, u: Engine)
    requires TxInv(s) && OnlyOpen(s, i) && RetransmitDue(s, i, now) && s.tx[i].attempts < s.config.maxAttempts
    requires u == SetTx(s, i, NewRound(s.tx[i]))
    ensures TxInv(u) && OnlyOpen(u, i) && u.log == s.log && u.config == s.config
    ensures u.tx[i].round == Initial(s.tx[i]) && u.tx[i].datagramId == s.tx[i].datagramId
    ensures u.tx[i].nextFragment < u.tx[i].fragmentCount && u.tx[i].nextFragment in u.tx[i].round
    ensures forall k :: k in u.tx[i].round ==> u.tx[i].nextFragment <= k
  {
    hide TxInv, TxSlotOk, NewRound, RxSame, Initial, Reached;
    InvSlotOk(s, i);
    NewRoundLeast(s.config, s.tx[i]);
    ProgressKeeps(s, i, NewRound(s.tx[i]));
    OneOpen(u, i);
  }

  /** The tick that starts another attempt: nothing of the new round goes out, or its least fragment. */
  lemma RetransmitRound(s: Engine, i: nat, now: uint32)
    requires TxInv(s) && OnlyOpen(s, i) && RetransmitDue(s, i, now) && s.tx[i].attempts < s.config.maxAttempts
    ensures RoundStart(s, TxTick(s, now), i)
  {
    hide *;
    OpenSlotAt(s, i);
    var u := SetTx(s, i, NewRound(s.tx[i]));
    RoundSet(s, i, now, u);
    OpenSlotAt(u, i);
    SentIsStep(u, i, now);
    UnsentFrame(u, i, now);
    SendNextSameRound(u, i, now);
    SendNextStates(u, i, now);
    SendNextKeeps(u, i, now);
    ArqTiming.RetransmitStep(s, i, now);
    DueSkips(s, i, now);
    var (t, sent) := SendNext(u, i, now);
    if sent {
      TickRetransmitted(s, now, t);
      StepIsStart(s, u, t, i);
    } else {
      RetransmitPast(t, i, i + 1, now);
      TickOfOpen(s, i, now, t);
      StepIsStart(s, t, TxTick(s, now), i);
    }
  }

  lemma OpenSlotAt(s: Engine, i: nat)
    requires OnlyOpen(s, i)
    ensures i < 4 && s.tx[i].state == OPEN
  {}

  lemma DueSkips(s: Engine, i: nat, now: uint32)
    requires OnlyOpen(s, i) && RetransmitDue(s, i, now)
    ensures TrySendRetransmit(s, 0, now) == TrySendRetransmit(s, i, now)
  {
    hide RetransmitDue, TrySendRetransmit;
    ArqTiming.SkipToDue(s, 0, i, now);
  }

  lemma UnsentFrame(s: Engine, i: nat, now: uint32)
    requires TxInv(s) && i < 4 && s.tx[i].state == OPEN
    requires s.tx[i].nextFragment < s.tx[i].fragmentCount && s.tx[i].nextFragment in s.tx[i].round
    requires forall k :: k in s.tx[i].round ==> s.tx[i].nextFragment <= k
    ensures !SendNext(s, i, now).1 ==> SendNext(s, i, now).0.tx == s.tx
                                       && SentData(SendNext(s, i, now).0.log) == SentData(s.log)
  {
    hide TxInv, FragmentFrame, SentData, IsNextOf, SendNext;
    SendStep(s, i, now);
  }

  // Opening.

  /** The state a datagram's first round starts from. */
  lemma OpenedSet(s: Engine, i: nat, now: uint32)
    requires TxInv(s) && i < 4 && s.tx[i].state == QUEUED && ActiveCount(s) == 0
    ensures var u := OpenSlot(s, i, now);
            && TxInv(u) && OnlyOpen(u, i) && SentData(u.log) == SentData(s.log)
            && u.tx[i].round == Initial(s.tx[i]) && u.tx[i].datagramId == s.tx[i].datagramId
  {
    InvSlotOk(s, i);
    assert s.tx[i].acked == {};
    OpenSlotKeeps(s, i, now);
    SentDataAppend(s.log, Opened(s.tx[i].datagramId, s.credits == 0));
    hide TxInv, TxSlotOk, RxSame, SentData, FullBitmap, CountTx, Wrap32;
    var u := OpenSlot(s, i, now);
    OneOpen(u, i);
    assert FullBitmap(s.tx[i]) - {} == FullBitmap(s.tx[i]);
  }

  lemma OpeningRound(s: Engine, i: nat, now: uint32)
    requires TxInv(s) && i < 4 && s.tx[i].state == QUEUED && ActiveCount(s) == 0
    requires OpenNext(s, now).0.tx[i].state == OPEN
    ensures RoundStart(s, OpenNext(s, now).0, i)
  {
    hide TxInv, RoundStart, RoundStep, OpenSlot, CountTx, TrySendOpenData, SentData, Initial;
    var j := FirstTx(s.tx, QUEUED, 0);
    var u := OpenSlot(s, j, now);
    OthersStayQueued(s, i, j, now);
    OpenedSet(s, i, now);
    OpenDataStep(u, i, now);
    ArqTiming.OpenDataStages(u, 0, now);
    StageIsSameRound(u, TrySendOpenData(u, 0, now).0, i);
    StepIsStart(s, u, TrySendOpenData(u, 0, now).0, i);
  }

  lemma StageIsSameRound(s: Engine, t: Engine, i: nat)
    requires OnlyOpen(s, i) && ArqTiming.SameStages(s.tx, t.tx)
    ensures SameRound(s.tx[i], t.tx[i])
  {}

  /** Opening slot j leaves every other slot queued. */
  lemma OthersStayQueued(s: Engine, i: nat, j: nat, now: uint32)
    requires i < 4 && j == FirstTx(s.tx, QUEUED, 0) && s.tx[i].state == QUEUED
    requires OpenNext(s, now).0.tx[i].state == OPEN
    ensures j == i
  {
    var u := OpenSlot(s, j, now);
    assert u.tx == s.tx[j := u.tx[j]];
    ArqTiming.OpenDataKeepsQueue(u, 0, now);
    hide TrySendOpenData, OpenSlot;
  }

  /** A slot is opened by nothing but the last step of a tick, after nothing was sent. */
  lemma OpenedLast(s: Engine, i: nat, now: uint32)
    requires i < 4 && s.tx[i].state == QUEUED && TxTick(s, now).tx[i].state == OPEN
    ensures var t := TrySendRetransmit(s, 0, now).0;
            var u := TrySendOpenData(t, 0, now).0;
            && !TrySendRetransmit(s, 0, now).1 && !TrySendOpenData(t, 0, now).1
            && SentData(u.log) == SentData(s.log) && u.tx[i] == s.tx[i]
            && TxTick(s, now) == TryOpenQueued(u, now).0
  {
    ArqTiming.RetransmitKeepsQueue(s, 0, now);
    var t := TrySendRetransmit(s, 0, now).0;
    ArqTiming.OpenDataKeepsQueue(t, 0, now);
    hide TrySendRetransmit, TrySendOpenData, TryOpenQueued, SentData;
    if !TrySendRetransmit(s, 0, now).1 {
      UnsentRetransmit(s, 0, now);
      if !TrySendOpenData(t, 0, now).1 {
        UnsentOpenData(t, 0, now);
      }
    }
  }

  lemma OpenQueuedRound(s: Engine, i: nat, now: uint32)
    requires TxInv(s) && i < 4 && s.tx[i].state == QUEUED && TryOpenQueued(s, now).0.tx[i].state == OPEN
    ensures RoundStart(s, TryOpenQueued(s, now).0, i)
  {
    var v := s.(probeArmed := false);
    hide TxInv, RoundStart, OpenNext, CountTx, Reached;
    assert TryOpenQueued(s, now).0 == OpenNext(v, now).0 && ActiveCount(v) == 0;
    ProbeKeeps(s, v);
    OpeningRound(v, i, now);
    hide TryOpenQueued;
    SameStart(s, v, OpenNext(v, now).0, i);
  }

  lemma SameStart(s: Engine, u: Engine, t: Engine, i: nat)
    requires i < 4 && RoundStart(u, t, i) && u.tx[i] == s.tx[i] && SentData(u.log) == SentData(s.log)
    ensures RoundStart(s, t, i)
  {
    hide SentData, IsNextOf, FullBitmap;
  }

  lemma TransmitStart(s: Engine, i: nat, now: uint32)
    requires Inv(s) && i < 4 && Begins(s.tx[i], TxTick(s, now).tx[i])
    ensures RoundStart(s, TxTick(s, now), i)
  {
    InvParts(s);
    hide Inv, TxInv, RxOk, TxTick, RoundStart, RetransmitDue, TrySendRetransmit, TrySendOpenData, TryOpenQueued, RxSame;
    if s.tx[i].state == OPEN {
      OneOpen(s, i);
      if !RetransmitDue(s, i, now) {
        NotDueSameRound(s, i, now);
      } else if s.tx[i].attempts < s.config.maxAttempts {
        RetransmitRound(s, i, now);
      } else {
        GivenUpIsEmpty(s, i, now);
      }
    } else {
      OpenedLast(s, i, now);
      var t := TrySendRetransmit(s, 0, now).0;
      TrySendRetransmitKeeps(s, 0, now);
      TrySendOpenDataKeeps(t, 0, now);
      var u := TrySendOpenData(t, 0, now).0;
      OpenQueuedRound(u, i, now);
      SameStart(s, u, TxTick(s, now), i);
    }
  }

  /** A slot given up in a tick is not OPEN after it. */
  lemma GivenUpIsEmpty(s: Engine, i: nat, now: uint32)
    requires OnlyOpen(s, i) && RetransmitDue(s, i, now) && s.tx[i].attempts >= s.config.maxAttempts
    ensures TxTick(s, now).tx[i].state == EMPTY
  {
    var f := FailTxSlot(s, i);
    assert f.tx[i].state == EMPTY;
    DueSkips(s, i, now);
    hide FailTxSlot, TrySendOpenData, TryOpenQueued, RetransmitDue;
    assert TrySendRetransmit(s, i, now) == (f, false);
    hide TrySendRetransmit;
    ArqSender.OpenDataMoves(f, 0, now);
    var u := TrySendOpenData(f, 0, now).0;
    ArqSender.OpenQueuedMoves(u, now);
    StaysEmpty(f, u, i);
    StaysEmpty(u, TryOpenQueued(u, now).0, i);
  }

  lemma StaysEmpty(s: Engine, t: Engine, i: nat)
    requires i < 4 && s.tx[i].state == EMPTY && ArqSender.TxMoves(s, t)
    ensures t.tx[i].state == EMPTY
  {
    assert ArqSender.SlotMoves(s.tx[i], t.tx[i]);
    hide ArqSender.MoveEvents;
  }

  /** The call a round begins with, whichever it is: nothing of the round has gone out, or exactly its
      least fragment, flagged as the last one if it is the only one. */
  lemma InputStart(s: Engine, input: Input, i: nat)
    requires Inv(s) && i < 4 && Begins(s.tx[i], Apply(s, input).tx[i])
    ensures RoundStart(s, Apply(s, input), i)
  {
    OnlyTicksBegin(s, input, i);
    hide Inv, OnTick, TxTick, TryCompleteRxSlots, SendPendingAck, RoundStart, TxSame, RxSame;
    var now := input.now;
    ArqLink.TickHalves(s, now);
    var u := SendPendingAck(TryCompleteRxSlots(s, 0, now).0, now).0;
    TxSameSlots(s, u);
    NoBeginning(s.tx[i]);
    TransmitStart(u, i, now);
    SameStart(s, u, TxTick(u, now), i);
  }

  /** In every reachable state, therefore. */
  lemma RoundBegins(s: Engine, input: Input, i: nat, t: Engine)
    requires Reachable(s) && i < 4 && Leads(s, input, t) && Begins(s.tx[i], t.tx[i])
    ensures RoundStart(s, t, i)
  {
    hide *;
    ReachableInv(s);
    LeadsIs(s, input, t);
    InputStart(s, input, i);
  }

  lemma NoBeginning(slot: TxSlot)
    ensures !Begins(slot, slot)
  {}

  lemma OnlyTicksBegin(s: Engine, input: Input, i: nat)
    requires Inv(s) && i < 4 && Begins(s.tx[i], Apply(s, input).tx[i])
    ensures input.TickInput?
  {
    InvParts(s);
    InvSlotOk(s, i);
    hide Inv, TxInv, RxOk, Submit, OnTick, SendPendingAck, OnFrame, Decode, Buildable, TxSame;
    NoBeginning(s.tx[i]);
    match input
    case SubmitInput(data) => SubmitBeginsNothing(s, data, i);
    case PacketInput(packet, now) =>
      if Decode(packet).Success? {
        DecodedIsBuildable(packet);
        FrameBeginsNothing(s, Decode(packet).value, now, i);
      }
    case TickInput(now) =>
    case FlushInput(now) =>
      ArqLink.FlushSame(s, now);
      TxSameSlots(s, SendPendingAck(s, now).0);
  }

  lemma SubmitBeginsNothing(s: Engine, data: Option<Bytes>, i: nat)
    requires i < 4
    ensures !Begins(s.tx[i], Submit(s, data).0.tx[i])
  {
    hide Acquire, WriteBuffer, Filled;
  }

  lemma FrameBeginsNothing(s: Engine, f: Frame, now: uint32, i: nat)
    requires Inv(s) && Buildable(f) && i < 4
    ensures !Begins(s.tx[i], OnFrame(s, f, now).tx[i])
  {
    InvParts(s);
    InvSlotOk(s, i);
    hide Inv, TxInv, RxOk, HandleData, ValidateDataHeader, TxSame;
    match f
    case DataFrame(h, payload) =>
      HandleDataKeeps(s, h, payload, now);
      TxSameSlots(s, HandleData(s, h, payload, now));
    case Ack(ack) => AckBeginsNothing(s, ack, now, i);
    case ControlFrame(_) =>
    case MgmtFrame(_) =>
  }

  lemma AckBeginsNothing(s: Engine, ack: AckFrame, now: uint32, i: nat)
    requires i < 4 && TxSlotOk(s.config, s.tx[i])
    ensures !Begins(s.tx[i], HandleAck(s, ack, now).tx[i])
  {
    hide FullBitmap, Wrap32, Release, ClampCredits;
  }

  // ---- a whole round ----

  /** fs runs through the round, least fragment first, as far as `left`. */
  predicate RoundPlay(fs: seq<Frame>, id: uint16, round: Bitmap, left: Bitmap) {
    if |fs| == 0 then left == round
    else IsNextOf(fs[0], id, round) && RoundPlay(fs[1..], id, round - {fs[0].header.fragmentIndex}, left)
  }

  function IndexesOf(fs: seq<Frame>): set<nat>
    requires forall n :: 0 <= n < |fs| ==> fs[n].DataFrame?
  {
    set n | 0 <= n < |fs| :: fs[n].header.fragmentIndex
  }

  lemma {:induction false} RoundPlayConcat(fs: seq<Frame>, gs: seq<Frame>, id: uint16, round: Bitmap, mid: Bitmap,
                                           left: Bitmap)
    requires RoundPlay(fs, id, round, mid) && RoundPlay(gs, id, mid, left)
    ensures RoundPlay(fs + gs, id, round, left)
  {
    if |fs| > 0 {
      RoundPlayConcat(fs[1..], gs, id, round - {fs[0].header.fragmentIndex}, mid, left);
      assert (fs + gs)[1..] == fs[1..] + gs;
    } else {
      assert fs + gs == gs;
    }
  }

  /** One step of a round as a play of at most one frame. */
  lemma PlayOne(id: uint16, round: Bitmap, left: Bitmap, before: Log, after: Log) returns (fs: seq<Frame>)
    requires Played(id, round, left, before, after)
    ensures SentData(after) == SentData(before) + fs && RoundPlay(fs, id, round, left)
  {
    hide SentData;
    if left == round && SentData(after) == SentData(before) {
      fs := [];
    } else {
      var f :| IsNextOf(f, id, round) && left == round - {f.header.fragmentIndex}
               && SentData(after) == SentData(before) + [f];
      fs := [f];
      assert fs[1..] == [];
    }
  }

  /** From the m-th state on the slot stays in one round, and no credit withdrawal for its datagram
      arrives. */
  ghost predicate StaysInRound(states: seq<Engine>, inputs: seq<Input>, i: nat, m: nat)
    requires i < 4 && m < |states|
  {
    && (forall n :: m <= n < |inputs| ==> !Withdraws(inputs[n], states[m].tx[i].datagramId))
    && (forall n :: m <= n < |states| ==> SameRound(states[m].tx[i], states[n].tx[i]))
  }

  lemma {:induction false} RoundPlays(states: seq<Engine>, inputs: seq<Input>, i: nat, m: nat, n: nat)
    returns (fs: seq<Frame>)
    requires i < 4 && m <= n <= |inputs| && Trace(states, inputs) && StaysInRound(states, inputs, i, m)
    requires Inv(states[0])
    ensures SentData(states[n].log) == SentData(states[m].log) + fs
    ensures RoundPlay(fs, states[m].tx[i].datagramId, states[m].tx[i].round, states[n].tx[i].round)
    decreases n
  {
    hide Inv, Apply, SentData, Withdraws, Played;
    if n == m {
      fs := [];
    } else {
      var s, t, u := states[m], states[n - 1], states[n];
      fs := RoundPlays(states, inputs, i, m, n - 1);
      InvAt(states, inputs, n - 1);
      assert StepAt(states, inputs, n - 1);
      assert SameRound(s.tx[i], t.tx[i]) && SameRound(s.tx[i], u.tx[i]);
      InputRound(t, inputs[n - 1], i);
      var gs := PlayOne(s.tx[i].datagramId, t.tx[i].round, u.tx[i].round, t.log, u.log);
      RoundPlayConcat(fs, gs, s.tx[i].datagramId, s.tx[i].round, t.tx[i].round, u.tx[i].round);
      fs := fs + gs;
    }
  }

  /** fs are fragments of datagram id, those of `round` not in `left`, each once and in ascending
      order; ROUND_END is on the last of them when none is left, and on no other. */
  predicate InOrder(fs: seq<Frame>, id: uint16, round: Bitmap, left: Bitmap) {
    && (forall n :: 0 <= n < |fs| ==> fs[n].DataFrame? && fs[n].header.datagramId == id)
    && (forall n, m :: 0 <= n < m < |fs| ==> fs[n].header.fragmentIndex < fs[m].header.fragmentIndex)
    && left <= round && IndexesOf(fs) == round - left
    && (forall n :: 0 <= n < |fs| ==>
          (fs[n].header.flags % 2 == V3_DATA_FLAG_ROUND_END <==> n == |fs| - 1 && left == {}))
  }

  /** What a played round looks like. */
  lemma {:induction false} RoundPlayMeans(fs: seq<Frame>, id: uint16, round: Bitmap, left: Bitmap)
    requires RoundPlay(fs, id, round, left)
    ensures InOrder(fs, id, round, left)
  {
    if |fs| > 0 {
      var k, rest := fs[0].header.fragmentIndex, fs[1..];
      RoundPlayMeans(rest, id, round - {k}, left);
      assert forall n :: 1 <= n < |fs| ==> fs[n] == rest[n - 1];
      forall m | 1 <= m < |fs| ensures k < fs[m].header.fragmentIndex {
        assert rest[m - 1].header.fragmentIndex in IndexesOf(rest);
      }
      assert IndexesOf(fs) == {k} + IndexesOf(rest);
      if left == {} && |rest| == 0 {
        assert round == {k};
      }
    }
  }

  /** Round discipline from anywhere within a round: through any calls that leave the slot in it, the
      radio took fragments of the round in order. */
  lemma RoundInOrder(states: seq<Engine>, inputs: seq<Input>, i: nat) returns (fs: seq<Frame>)
    requires i < 4 && Trace(states, inputs) && Reachable(states[0])
    requires StaysInRound(states, inputs, i, 0)
    ensures SentData(states[|inputs|].log) == SentData(states[0].log) + fs
    ensures InOrder(fs, states[0].tx[i].datagramId, states[0].tx[i].round, states[|inputs|].tx[i].round)
  {
    hide Reachable, Inv, SentData, RoundPlay, StaysInRound, StepAt;
    ReachableInv(states[0]);
    fs := RoundPlays(states, inputs, i, 0, |inputs|);
    RoundPlayMeans(fs, states[0].tx[i].datagramId, states[0].tx[i].round, states[|inputs|].tx[i].round);
  }

  /** Round discipline over whole rounds: from before the call that opens the slot or starts it on
      another attempt, through any calls that leave it in that round, the radio took the fragments not
      acknowledged when the round began, each exactly once and in ascending order, up to those still
      left; ROUND_END is on the very last and on no other. */
  lemma WholeRoundInOrder(states: seq<Engine>, inputs: seq<Input>, i: nat) returns (fs: seq<Frame>)
    requires i < 4 && Trace(states, inputs) && |inputs| > 0 && Reachable(states[0])
    requires Begins(states[0].tx[i], states[1].tx[i]) && StaysInRound(states, inputs, i, 1)
    ensures SentData(states[|inputs|].log) == SentData(states[0].log) + fs
    ensures InOrder(fs, states[0].tx[i].datagramId, Initial(states[0].tx[i]), states[|inputs|].tx[i].round)
  {
    hide Reachable, Inv, SentData, RoundPlay, StaysInRound, Apply, Begins, Played, Initial;
    ReachableInv(states[0]);
    assert StepAt(states, inputs, 0);
    InputStart(states[0], inputs[0], i);
    var id, round := states[0].tx[i].datagramId, Initial(states[0].tx[i]);
    var first := PlayOne(id, round, states[1].tx[i].round, states[0].log, states[1].log);
    var rest := RoundPlays(states, inputs, i, 1, |inputs|);
    RoundPlayConcat(first, rest, id, round, states[1].tx[i].round, states[|inputs|].tx[i].round);
    fs := first + rest;
    RoundPlayMeans(fs, id, round, states[|inputs|].tx[i].round);
  }

  // ---- a round makes progress ----

  /** The radio takes whatever it is handed next. */
  ghost predicate RadioReady(s: Engine) {
    s.callbacks.send.Some? && forall p: Packet :: s.callbacks.send.value(s.log, p)
  }

  /** With a ready radio and nothing to acknowledge or deliver, every tick in a round sends the
      round's next fragment, so a round of n fragments takes n such ticks. */
  lemma TickSendsNext(s: Engine, i: nat, now: uint32, t: Engine)
    requires Reachable(s) && i < 4 && s.tx[i].state == OPEN && s.tx[i].round != {}
    requires |s.acks| == 0 && !SomeWaiting(s.rx) && RadioReady(s) && Leads(s, TickInput(now), t)
    ensures t.tx[i].state == OPEN
    ensures exists f :: && IsNextOf(f, s.tx[i].datagramId, s.tx[i].round)
                        && t.tx[i].round == s.tx[i].round - {f.header.fragmentIndex}
                        && SentData(t.log) == SentData(s.log) + [f]
  {
    hide Reachable, Leads, Inv, OnTick, SentData, IsNextOf, RadioReady, SomeWaiting;
    ReachableInv(s);
    ArqTiming.TickLeads(s, now, t);
    TickSends(s, i, now);
  }

  lemma TickSends(s: Engine, i: nat, now: uint32)
    requires Inv(s) && i < 4 && s.tx[i].state == OPEN && s.tx[i].round != {}
    requires |s.acks| == 0 && !SomeWaiting(s.rx) && RadioReady(s)
    ensures var t := OnTick(s, now);
            && t.tx[i].state == OPEN
            && exists f :: && IsNextOf(f, s.tx[i].datagramId, s.tx[i].round)
                           && t.tx[i].round == s.tx[i].round - {f.header.fragmentIndex}
                           && SentData(t.log) == SentData(s.log) + [f]
  {
    InvParts(s);
    OneOpen(s, i);
    ArqTiming.NothingToComplete(s, 0, now);
    NotDueInRound(s, i, now);
    RetransmitSkips(s, i, 0, now);
    UpToTheOpenSlot(s, i, 0, now);
    hide Inv, TxInv, RxOk, RetransmitDue, TrySendRetransmit, TryOpenQueued, TryCompleteRxSlots, RadioReady;
    OpenSlotSends(s, i, now);
    hide TrySendOpenData, SentData, IsNextOf;
  }

  lemma NotDueInRound(s: Engine, i: nat, now: uint32)
    requires i < 4 && s.tx[i].round != {}
    ensures !RetransmitDue(s, i, now)
  {}

  lemma OpenSlotSends(s: Engine, i: nat, now: uint32)
    requires TxInv(s) && i < 4 && s.tx[i].state == OPEN && s.tx[i].round != {} && RadioReady(s)
    ensures var (t, sent) := TrySendOpenData(s, i, now);
            && sent && t.tx[i].state == OPEN
            && exists f :: && IsNextOf(f, s.tx[i].datagramId, s.tx[i].round)
                           && t.tx[i].round == s.tx[i].round - {f.header.fragmentIndex}
                           && SentData(t.log) == SentData(s.log) + [f]
  {
    hide TxInv, Scan, TxSlotOk, FragmentFrame, RxSame, SentData, IsNextOf, SendNext;
    InvSlotOk(s, i);
    ScanFindsLeast(s.config, s.tx[i]);
    ScannedOk(s.config, s.tx[i]);
    var slot := s.tx[i].(nextFragment := Scan(s.tx[i], s.tx[i].nextFragment));
    var u := SetTx(s, i, slot);
    ProgressKeeps(s, i, slot);
    EveryFragmentBuilds(u, i, slot.nextFragment);
    ReadyTakes(u, FragmentFrame(u, i, slot.nextFragment).value);
    SendStep(u, i, now);
    AcceptedNextIsSent(u, i, now);
    SendNextStateAt(u, i, now);
  }

  lemma AcceptedNextIsSent(s: Engine, i: nat, now: uint32)
    requires i < 4 && s.tx[i].nextFragment < s.tx[i].fragmentCount
    requires FragmentFrame(s, i, s.tx[i].nextFragment).Some?
    requires Transmit(s, FragmentFrame(s, i, s.tx[i].nextFragment).value).1
    ensures SendNext(s, i, now).1
  {
    hide FragmentFrame, Transmit;
  }

  lemma ReadyTakes(s: Engine, f: Frame)
    requires RadioReady(s) && Buildable(f)
    ensures Transmit(s, f).1
  {
    hide Encode;
  }

  lemma SendNextStateAt(s: Engine, i: nat, now: uint32)
    requires i < 4 && s.tx[i].state == OPEN
    ensures SendNext(s, i, now).0.tx[i].state == OPEN
  {
    hide FragmentFrame, Encode;
  }

  /** What a tick does to the measure of a datagram's transmission, attempts left and then fragments
      left in the round: another attempt, one fragment less, or nothing sent and nothing changed. */
  ghost predicate Falls(s: Engine, t: Engine, i: nat)
    requires i < 4
  {
    || t.tx[i].attempts == s.tx[i].attempts + 1
    || (t.tx[i].attempts == s.tx[i].attempts && t.tx[i].round == s.tx[i].round && SentData(t.log) == SentData(s.log))
    || (&& t.tx[i].attempts == s.tx[i].attempts && |t.tx[i].round| == |s.tx[i].round| - 1
        && |SentData(t.log)| == |SentData(s.log)| + 1)
  }

  /** The measure falls lexicographically with every fragment a tick sends, opening included, and
      never rises. */
  lemma TickMeasure(s: Engine, i: nat, now: uint32, t: Engine)
    requires Reachable(s) && i < 4 && s.tx[i].state != EMPTY
    requires Leads(s, TickInput(now), t) && t.tx[i].state == OPEN
    ensures t.tx[i].attempts <= MaxRounds(t.config) && Falls(s, t, i)
  {
    hide *;
    ReachableInv(s);
    ArqTiming.TickLeads(s, now, t);
    ArqLink.TickHalves(s, now);
    OnTickKeepsInv(s, now);
    AttemptsBounded(t, i);
    var u := SendPendingAck(TryCompleteRxSlots(s, 0, now).0, now).0;
    TxSameSlots(s, u);
    NothingFalls(s, u, i);
    if t != u {
      if s.tx[i].state == OPEN {
        TransmitMeasure(u, i, now);
      } else {
        OpeningMeasure(u, i, now);
      }
      FallsFrom(s, u, t, i);
    }
  }

  lemma OpeningMeasure(s: Engine, i: nat, now: uint32)
    requires Inv(s) && i < 4 && s.tx[i].state == QUEUED && TxTick(s, now).tx[i].state == OPEN
    ensures Falls(s, TxTick(s, now), i)
  {
    InvParts(s);
    InvSlotOk(s, i);
    assert s.tx[i].attempts == 0;
    hide Inv, TxInv, RxOk, TxSlotOk, TxTick, TrySendRetransmit, TrySendOpenData, TryOpenQueued, SentData;
    OpenedLast(s, i, now);
    var u := TrySendOpenData(TrySendRetransmit(s, 0, now).0, 0, now).0;
    ArqTiming.TryOpenQueuedStages(u, now);
    assert ArqTiming.StageAfterOpen(u.tx[i], TryOpenQueued(u, now).0.tx[i]);
  }

  lemma AttemptsBounded(s: Engine, i: nat)
    requires Inv(s) && i < 4 && s.tx[i].state == OPEN
    ensures s.tx[i].attempts <= MaxRounds(s.config)
  {
    InvParts(s);
    hide Inv, TxInv, RxOk;
    InvSlotOk(s, i);
  }

  lemma NothingFalls(s: Engine, t: Engine, i: nat)
    requires i < 4 && t.tx == s.tx && SentData(t.log) == SentData(s.log)
    ensures Falls(s, t, i)
  {}

  lemma FallsFrom(s: Engine, u: Engine, t: Engine, i: nat)
    requires i < 4 && u.tx == s.tx && SentData(u.log) == SentData(s.log) && Falls(u, t, i)
    ensures Falls(s, t, i)
  {}

  lemma TransmitMeasure(s: Engine, i: nat, now: uint32)
    requires Inv(s) && i < 4 && s.tx[i].state == OPEN && TxTick(s, now).tx[i].state == OPEN
    ensures Falls(s, TxTick(s, now), i)
  {
    hide *;
    InvParts(s);
    OneOpen(s, i);
    OthersClosed(s, i);
    var t := TxTick(s, now);
    if RetransmitDue(s, i, now) {
      ArqTiming.DueSlotActs(s, i, now);
      ActedFalls(s, t, i);
    } else {
      NotDueSameRound(s, i, now);
      TickRound(s, i, now);
      RoundStepFalls(s, t, i);
    }
  }

  lemma OthersClosed(s: Engine, i: nat)
    requires OnlyOpen(s, i)
    ensures forall j :: 0 <= j < 4 && j != i ==> s.tx[j].state != OPEN
  {}

  lemma ActedFalls(s: Engine, t: Engine, i: nat)
    requires i < 4 && s.tx[i].state == OPEN && t.tx[i].state == OPEN && ArqTiming.Acted(s, t, i)
    ensures Falls(s, t, i)
  {}

  lemma RoundStepFalls(s: Engine, t: Engine, i: nat)
    requires i < 4 && RoundStep(s, t, i) && SameRound(s.tx[i], t.tx[i])
    ensures Falls(s, t, i)
  {
    hide SentData;
  }

  lemma NotDueSameRound(s: Engine, i: nat, now: uint32)
    requires TxInv(s) && OnlyOpen(s, i) && !RetransmitDue(s, i, now)
    ensures SameRound(s.tx[i], TxTick(s, now).tx[i])
  {
    hide TxInv, RetransmitDue, TrySendRetransmit, TrySendOpenData, OpenNext, CountTx;
    RetransmitSkips(s, i, 0, now);
    ArqTiming.OpenDataStages(s, 0, now);
    ArqTiming.StagesCount(s.tx, TrySendOpenData(s, 0, now).0.tx, OPEN);
    SomeOpenCount(s, i);
  }

  // ---- and after the round ----

  lemma LastSendSlot(s: Engine, i: nat, k: nat, now: uint32)
    requires TxInv(s) && OnlyOpen(s, i) && s.tx[i].round == {k}
    ensures var (t, sent) := TrySendOpenData(s, i, now);
            && (sent ==> t.tx[i] == s.tx[i].(round := {}, nextFragment := t.tx[i].nextFragment,
                                             retryDeadline := RetryDeadline(s, now)))
            && (!sent ==> t.tx[i].round == {k})
  {
    hide TxInv, Scan, TxSlotOk, FragmentFrame, RxSame, SendNext, SentData, IsNextOf, Wrap32;
    InvSlotOk(s, i);
    ScanFindsLeast(s.config, s.tx[i]);
    ScannedOk(s.config, s.tx[i]);
    var slot := s.tx[i].(nextFragment := Scan(s.tx[i], s.tx[i].nextFragment));
    assert slot.nextFragment == k && slot.round - {k} == {};
    var u := SetTx(s, i, slot);
    SendNextSlot(u, i, k, now);
    SendNextStates(u, i, now);
    var (t, sent) := SendNext(u, i, now);
    assert TrySendOpenData(s, i, now) == if sent then (t, true) else TrySendOpenData(t, i + 1, now);
    hide TrySendOpenData;
    PastTheOpenSlot(t, i, i + 1, now);
  }

  lemma SendNextSlot(s: Engine, i: nat, k: byte, now: uint32)
    requires i < 4 && k == s.tx[i].nextFragment < s.tx[i].fragmentCount && k < 0xFF
    ensures var (t, sent) := SendNext(s, i, now);
            t.tx == if sent then s.tx[i := AfterFragment(s.tx[i], k, RetryDeadline(s, now))] else s.tx
  {
    hide FragmentFrame, Encode, AfterFragment;
  }

  lemma LastOfRound(id: uint16, round: Bitmap, before: Log, after: Log) returns (k: nat)
    requires Played(id, round, {}, before, after) && round != {}
    ensures round == {k}
  {
    hide SentData;
    var f :| IsNextOf(f, id, round) && {} == round - {f.header.fragmentIndex};
    k := f.header.fragmentIndex;
  }

  /** An OPEN slot whose round ends in the open-data loop gets a new deadline. */
  lemma EndOfOpen(s: Engine, i: nat, now: uint32)
    requires TxInv(s) && OnlyOpen(s, i) && s.tx[i].round != {} && TrySendOpenData(s, 0, now).0.tx[i].round == {}
    ensures TrySendOpenData(s, 0, now).0.tx[i].retryDeadline == RetryDeadline(s, now)
  {
    hide TxInv, Played, TrySendOpenData, Wrap32;
    OpenDataStep(s, i, now);
    var k := LastOfRound(s.tx[i].datagramId, s.tx[i].round, s.log, TrySendOpenData(s, 0, now).0.log);
    UpToTheOpenSlot(s, i, 0, now);
    LastSendSlot(s, i, k, now);
  }

  lemma EndOfTick(s: Engine, i: nat, now: uint32, t: Engine)
    requires TrySendRetransmit(s, 0, now) == (t, false) && TxInv(t) && OnlyOpen(t, i)
    requires t.tx[i].round != {} && TxTick(s, now).tx[i].round == {}
    ensures TxTick(s, now).tx[i].retryDeadline == RetryDeadline(t, now)
  {
    hide TxInv, TrySendRetransmit, TrySendOpenData, OpenNext, CountTx, RoundStep, RetryDeadline;
    OpenDataStep(t, i, now);
    SomeOpenCount(TrySendOpenData(t, 0, now).0, i);
    assert TxTick(s, now).tx == TrySendOpenData(t, 0, now).0.tx;
    EndOfOpen(t, i, now);
  }

  /** A retransmit round that ends in the tick it begins with. */
  lemma EndOfRetransmit(s: Engine, i: nat, now: uint32)
    requires TxInv(s) && OnlyOpen(s, i) && RetransmitDue(s, i, now) && s.tx[i].attempts < s.config.maxAttempts
    requires TxTick(s, now).tx[i].round == {}
    ensures TxTick(s, now).tx[i].retryDeadline == RetryDeadline(s, now)
  {
    hide *;
    OpenSlotAt(s, i);
    var u := SetTx(s, i, NewRound(s.tx[i]));
    RoundSet(s, i, now, u);
    OpenSlotAt(u, i);
    UnsentFrame(u, i, now);
    SendNextStates(u, i, now);
    SendNextKeeps(u, i, now);
    ArqTiming.RetransmitStep(s, i, now);
    DueSkips(s, i, now);
    var (t, sent) := SendNext(u, i, now);
    if sent {
      TickRetransmitted(s, now, t);
      SentEnds(u, i, now);
    } else {
      RetransmitPast(t, i, i + 1, now);
      EndOfTick(s, i, now, t);
    }
    SendNextConfig(u, i, now);
    SameTimer(s, u, now);
    SameTimer(u, t, now);
  }

  lemma SameTimer(s: Engine, t: Engine, now: uint32)
    ensures t.config == s.config ==> RetryDeadline(t, now) == RetryDeadline(s, now)
  {}

  lemma SendNextConfig(s: Engine, i: nat, now: uint32)
    requires i < 4
    ensures SendNext(s, i, now).0.config == s.config
  {
    hide FragmentFrame, Encode;
  }

  lemma SentEnds(s: Engine, i: nat, now: uint32)
    requires TxInv(s) && i < 4 && s.tx[i].state == OPEN && SendNext(s, i, now).1
    requires SendNext(s, i, now).0.tx[i].round == {}
    ensures SendNext(s, i, now).0.tx[i].retryDeadline == RetryDeadline(s, now)
  {
    hide TxInv, FragmentFrame, Encode, Wrap32;
  }

  /** The round of slot i ended in a tick: its last fragment went out, be it the only one. */
  predicate RoundEnds(a: TxSlot, b: TxSlot) {
    b.state == OPEN && b.round == {} && ((a.state == OPEN && a.round != {}) || Begins(a, b))
  }

  lemma TransmitEnd(s: Engine, i: nat, now: uint32)
    requires Inv(s) && i < 4 && RoundEnds(s.tx[i], TxTick(s, now).tx[i])
    ensures TxTick(s, now).tx[i].retryDeadline == RetryDeadline(s, now)
  {
    InvParts(s);
    hide Inv, TxInv, RxOk, TxTick, RetransmitDue, TrySendRetransmit, TrySendOpenData, TryOpenQueued, RxSame,
         RetryDeadline;
    if s.tx[i].state == OPEN {
      OneOpen(s, i);
      if !RetransmitDue(s, i, now) {
        NotDueSameRound(s, i, now);
        RetransmitSkips(s, i, 0, now);
        EndOfTick(s, i, now, s);
      } else if s.tx[i].attempts < s.config.maxAttempts {
        EndOfRetransmit(s, i, now);
      } else {
        GivenUpIsEmpty(s, i, now);
      }
    } else {
      OpenedLast(s, i, now);
      var t := TrySendRetransmit(s, 0, now).0;
      TrySendRetransmitKeeps(s, 0, now);
      TrySendOpenDataKeeps(t, 0, now);
      var u := TrySendOpenData(t, 0, now).0;
      ArqTiming.RetransmitKeepsQueue(s, 0, now);
      ArqTiming.OpenDataKeepsQueue(t, 0, now);
      EndOfOpening(u, i, now);
      SameTimer(s, u, now);
    }
  }

  lemma EndOfOpening(s: Engine, i: nat, now: uint32)
    requires TxInv(s) && i < 4 && s.tx[i].state == QUEUED && TryOpenQueued(s, now).0.tx[i].state == OPEN
    requires TryOpenQueued(s, now).0.tx[i].round == {}
    ensures TryOpenQueued(s, now).0.tx[i].retryDeadline == RetryDeadline(s, now)
  {
    var v := s.(probeArmed := false);
    hide TxInv, OpenSlot, TrySendOpenData, CountTx, Reached, RxSame, Initial, RoundStep;
    assert TryOpenQueued(s, now).0 == OpenNext(v, now).0 && ActiveCount(v) == 0;
    ProbeKeeps(s, v);
    var j := FirstTx(v.tx, QUEUED, 0);
    OthersStayQueued(v, i, j, now);
    var u := OpenSlot(v, i, now);
    OpenedSet(v, i, now);
    InitialNonEmpty(v, i);
    EndOfOpen(u, i, now);
    OpenConfig(v, i, now);
  }

  lemma OpenConfig(s: Engine, i: nat, now: uint32)
    requires i < 4
    ensures OpenSlot(s, i, now).config == s.config
  {}

  lemma InitialNonEmpty(s: Engine, i: nat)
    requires TxInv(s) && i < 4 && s.tx[i].state == QUEUED
    ensures Initial(s.tx[i]) != {}
  {
    InvSlotOk(s, i);
    hide TxInv;
    assert 0 in Initial(s.tx[i]);
  }

  /** The tick that sends the last fragment of a round sets the slot's deadline a retry timeout ahead. */
  lemma RoundEndBacksOff(s: Engine, i: nat, now: uint32, t: Engine)
    requires Reachable(s) && i < 4 && Leads(s, TickInput(now), t) && RoundEnds(s.tx[i], t.tx[i])
    ensures t.tx[i].retryDeadline == Wrap32(now + s.config.retryTimeout)
  {
    hide *;
    ReachableInv(s);
    ArqTiming.TickLeads(s, now, t);
    ArqLink.TickHalves(s, now);
    var u := SendPendingAck(TryCompleteRxSlots(s, 0, now).0, now).0;
    TxSameSlots(s, u);
    TxSameConfig(s, u);
    NeverEnds(s.tx[i]);
    TransmitEnd(u, i, now);
    TimerIs(s, u, now);
  }

  lemma NeverEnds(slot: TxSlot)
    ensures !RoundEnds(slot, slot)
  {}

  lemma TimerIs(s: Engine, t: Engine, now: uint32)
    requires t.config == s.config
    ensures RetryDeadline(t, now) == Wrap32(now + s.config.retryTimeout)
  {}

  lemma TxSameConfig(s: Engine, t: Engine)
    requires TxSame(s, t)
    ensures t.config == s.config
  {
    hide Grew;
  }

  /** After it, with nothing to acknowledge or deliver, that is what the engine waits for. */
  lemma WaitsAfterRound(s: Engine, i: nat, now: uint32, t: Engine, later: uint32)
    requires Reachable(s) && i < 4 && Leads(s, TickInput(now), t) && RoundEnds(s.tx[i], t.tx[i])
    requires !(FullBitmap(t.tx[i]) <= t.tx[i].acked) && |t.acks| == 0 && !SomeWaiting(t.rx)
    ensures NextDeadline(t, later) == Some(Wrap32(now + s.config.retryTimeout))
  {
    hide Reachable, Leads, Inv, TxInv, RxOk, OnTick, NextDeadline, FullBitmap, SomeWaiting, Wrap32;
    ReachableInv(s);
    ArqTiming.TickLeads(s, now, t);
    OnTickKeepsInv(s, now);
    InvParts(t);
    RoundEndBacksOff(s, i, now, t);
    ArqTiming.OpenWaitsForRetry(t, i, later);
  }
}
