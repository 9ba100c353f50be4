/** What the log says the environment answered is what it answered. */
module ArqLog {
  import opened Words
  import opened FramingV3
  import opened FragmentV3
  import opened DatagramPool
  import opened DuplicateWindow
  import opened ArqState
  import opened ArqInvariant

  /** The k-th event is a true record: the radio answered so to this packet, the egress said it has room for
      so many, or was offered these bytes and took them or not; and nothing is offered without a callback
      to offer it to, or right after the egress has said that it has no room. */
  predicate TrueAt(c: Callbacks, log: Log, k: nat)
    requires k < |log|
  {
    match log[k]
    case Sent(f, accepted) => Buildable(f) && c.send.Some? && accepted == c.send.value(log[..k], Encode(f))
    case EgressAsked(capacity) => c.egress.Some? && capacity == c.egress.value(log[..k])
    case Delivered(id, data, accepted) =>
      && c.deliver.Some? && accepted == c.deliver.value(log[..k], data)
      && (c.egress.Some? ==> k > 0 && log[k - 1].EgressAsked? && log[k - 1].capacity > 0)
    case _ => true
  }

  predicate TrueSince(c: Callbacks, a: Log, b: Log) {
    a <= b && forall k :: |a| <= k < |b| ==> TrueAt(c, b, k)
  }

  /** From s to t only true events were recorded, for the same callbacks. */
  ghost predicate Truthful(s: Engine, t: Engine) {
    t.callbacks == s.callbacks && TrueSince(s.callbacks, s.log, t.log)
  }

  lemma TrueLater(c: Callbacks, a: Log, b: Log, k: nat)
    requires a <= b && k < |a| && TrueAt(c, a, k)
    ensures TrueAt(c, b, k)
  {
    assert b[..k] == a[..k];
    hide Encode;
  }

  lemma TruthfulTrans(s: Engine, t: Engine, u: Engine)
    requires Truthful(s, t) && Truthful(t, u)
    ensures Truthful(s, u)
  {
    forall k | |s.log| <= k < |u.log| ensures TrueAt(s.callbacks, u.log, k) {
      if k < |t.log| {
        TrueLater(s.callbacks, t.log, u.log, k);
      }
    }
    hide TrueAt;
  }

  lemma TruthfulRefl(s: Engine, t: Engine)
    requires t.callbacks == s.callbacks && t.log == s.log
    ensures Truthful(s, t)
  {
    hide TrueAt;
  }

  lemma TruthfulOne(s: Engine, t: Engine, e: Event)
    requires t.callbacks == s.callbacks && t.log == s.log + [e] && TrueAt(t.callbacks, t.log, |s.log|)
    ensures Truthful(s, t)
  {
    hide TrueAt;
  }

  lemma AskTruthful(s: Engine, default: byte)
    ensures Truthful(s, AskEgress(s, default).0)
  {
    var t := AskEgress(s, default).0;
    if s.callbacks.egress.Some? {
      assert t.log[..|s.log|] == s.log;
      TruthfulOne(s, t, t.log[|s.log|]);
    } else {
      TruthfulRefl(s, t);
    }
  }

  lemma CreditsTruthful(s: Engine)
    ensures Truthful(s, CurrentCredits(s).0)
  {
    AskTruthful(s, ARQ_MAX_RX_DATAGRAMS);
    hide Truthful;
  }

  lemma TransmitTruthful(s: Engine, f: Frame)
    requires Buildable(f)
    ensures Truthful(s, Transmit(s, f).0) && Transmit(s, f).0 == s.(log := Transmit(s, f).0.log)
  {
    hide Encode;
    var t := Transmit(s, f).0;
    if s.callbacks.send.Some? {
      assert t.log[..|s.log|] == s.log;
      TruthfulOne(s, t, t.log[|s.log|]);
    } else {
      TruthfulRefl(s, t);
    }
  }

  lemma OfferTruthful(s: Engine, i: nat)
    requires i < 4
    ensures Truthful(s, Offer(s, i).0)
  {
    hide OutputOf;
    AskTruthful(s, 1);
    var (t, egress) := AskEgress(s, 1);
    var u := Offer(s, i).0;
    if u != t {
      assert u.log[..|t.log|] == t.log;
      TruthfulOne(t, u, u.log[|t.log|]);
      TruthfulTrans(s, t, u);
    }
  }

  lemma QueueTruthful(s: Engine, ack: AckFrame, ready: uint32)
    ensures Truthful(s, EnqueueAck(s, ack, ready))
  {
    TruthfulRefl(s, EnqueueAck(s, ack, ready));
    hide Truthful;
  }

  lemma RefusalTruthful(s: Engine, id: uint16, bitmap: Bitmap, failure: FailureStatus, now: uint32)
    ensures Truthful(s, QueueFailureAck(s, id, bitmap, failure, now))
  {
    hide Truthful, CurrentCredits, EnqueueAck;
    CreditsTruthful(s);
    var (t, credits) := CurrentCredits(s);
    var ack := AckFrame(id, bitmap, credits, failure);
    QueueTruthful(t, ack, AckDeadline(t, now));
    TruthfulTrans(s, t, EnqueueAck(t, ack, AckDeadline(t, now)));
  }

  lemma QueueRxTruthful(s: Engine, i: nat, failure: FailureStatus, now: uint32)
    requires i < 4
    ensures Truthful(s, QueueRxAck(s, i, failure, now))
  {
    hide Truthful, CurrentCredits, EnqueueAck;
    var r := s.rx[i].reassembly;
    QueueTruthful(s, AckFrame(r.datagramId, WithdrawnBitmap(r), 0, failure), AckDeadline(s, now));
    CreditsTruthful(s);
    var (t, credits) := CurrentCredits(s);
    var ack := AckFrame(r.datagramId, r.receivedBitmap, credits, failure);
    QueueTruthful(t, ack, AckDeadline(t, now));
    TruthfulTrans(s, t, EnqueueAck(t, ack, AckDeadline(t, now)));
  }

  lemma FinishTruthful(s: Engine, i: nat, now: uint32)
    requires i < 4
    ensures Truthful(s, FinishDelivery(s, i, now))
  {
    hide Truthful, CurrentCredits, EnqueueAck, Store, Release;
    var r := s.rx[i].reassembly;
    var bitmap := FragmentExpectedBitmap(r.fragmentCount);
    CreditsTruthful(s);
    var (t, stored) := CurrentCredits(s);
    var u := t.(window := Store(t.window, r.datagramId, AckState(bitmap, stored, NONE)));
    TruthfulRefl(t, u);
    CreditsTruthful(u);
    var (v, credits) := CurrentCredits(u);
    var ack := AckFrame(r.datagramId, bitmap, credits, NONE);
    QueueTruthful(v, ack, AckDeadline(v, now));
    var w := EnqueueAck(v, ack, AckDeadline(v, now));
    TruthfulRefl(w, ReleaseRxSlot(w, i));
    TruthfulTrans(s, t, u);
    TruthfulTrans(s, u, v);
    TruthfulTrans(s, v, w);
    TruthfulTrans(s, w, ReleaseRxSlot(w, i));
  }

  lemma CompleteTruthful(s: Engine, i: nat, now: uint32)
    requires i < 4
    ensures Truthful(s, TryCompleteRxSlot(s, i, now).0)
  {
    hide Truthful, Offer, FinishDelivery, ReassemblyIsComplete;
    TruthfulRefl(s, s);
    OfferTruthful(s, i);
    var t := Offer(s, i).0;
    FinishTruthful(t, i, now);
    TruthfulTrans(s, t, FinishDelivery(t, i, now));
  }

  lemma {:induction false} CompletingTruthful(s: Engine, i: nat, now: uint32)
    requires i <= 4
    ensures Truthful(s, TryCompleteRxSlots(s, i, now).0)
    decreases 4 - i
  {
    hide Truthful, TryCompleteRxSlot;
    TruthfulRefl(s, s);
    if i < 4 {
      CompleteTruthful(s, i, now);
      var (t, completed) := TryCompleteRxSlot(s, i, now);
      CompletingTruthful(s, i + 1, now);
      CompletingTruthful(t, i + 1, now);
      TruthfulTrans(s, t, TryCompleteRxSlots(t, i + 1, now).0);
    }
  }

  lemma AfterTruthful(s: Engine, i: nat, h: DataHeader, now: uint32)
    requires i < 4
    ensures Truthful(s, AfterAccept(s, i, h, now))
  {
    hide Truthful, TryCompleteRxSlot, QueueRxAck, ReassemblyIsComplete;
    TruthfulRefl(s, s);
    QueueRxTruthful(s, i, NONE, now);
    CompleteTruthful(s, i, now);
    var (t, completed) := TryCompleteRxSlot(s, i, now);
    var u := SetRx(t, i, t.rx[i].(waiting := true));
    TruthfulRefl(t, u);
    QueueRxTruthful(u, i, CREDIT_WITHDRAWAL, now);
    TruthfulTrans(s, t, u);
    TruthfulTrans(s, u, QueueRxAck(u, i, CREDIT_WITHDRAWAL, now));
  }

  lemma DataTruthful(s: Engine, h: DataHeader, payload: Bytes, now: uint32)
    ensures Truthful(s, HandleData(s, h, payload, now))
  {
    hide Truthful, AfterAccept, QueueFailureAck, AllocateRxSlot, Find, AcceptFragment, CurrentCredits, EnqueueAck;
    var id := h.datagramId;
    match Find(s.window, id)
    case Some(known) =>
      CreditsTruthful(s);
      var (t, credits) := CurrentCredits(s);
      var ack := AckFrame(id, known.fragmentBitmap, credits, known.failure);
      QueueTruthful(t, ack, AckDeadline(t, now));
      TruthfulTrans(s, t, EnqueueAck(t, ack, AckDeadline(t, now)));
    case None =>
      var (t, i) := SlotForData(s, id);
      AllocateLogs(s);
      TruthfulRefl(s, t);
      if i == 4 {
        RefusalTruthful(t, id, {}, ALLOCATION_FAILURE, now);
        TruthfulTrans(s, t, QueueFailureAck(t, id, {}, ALLOCATION_FAILURE, now));
      } else {
        var (u, result) := AcceptInto(t, i, h, payload);
        TruthfulRefl(t, u);
        TruthfulTrans(s, t, u);
        RefusalTruthful(u, id, u.rx[i].reassembly.receivedBitmap, MALFORMED_INPUT, now);
        TruthfulTrans(s, u, QueueFailureAck(u, id, u.rx[i].reassembly.receivedBitmap, MALFORMED_INPUT, now));
        AfterTruthful(u, i, h, now);
        TruthfulTrans(s, u, AfterAccept(u, i, h, now));
      }
  }

  lemma AllocateLogs(s: Engine)
    ensures AllocateRxSlot(s).0.log == s.log && AllocateRxSlot(s).0.callbacks == s.callbacks
  {
    hide Acquire;
  }

  lemma SendPendingTruthful(s: Engine, now: uint32)
    ensures Truthful(s, SendPendingAck(s, now).0)
  {
    hide Truthful, Transmit;
    TruthfulRefl(s, s);
    if |s.acks| > 0 {
      TransmitTruthful(s, Ack(s.acks[0].ack));
      var t := Transmit(s, Ack(s.acks[0].ack)).0;
      if |t.acks| > 0 {
        TruthfulRefl(t, t.(acks := t.acks[1..]));
        TruthfulTrans(s, t, t.(acks := t.acks[1..]));
      }
    }
  }

  // ---- transmitting ----

  lemma SendNextTruthful(s: Engine, i: nat, now: uint32)
    requires i < 4
    ensures Truthful(s, SendNext(s, i, now).0)
  {
    hide Truthful, FragmentFrame, Transmit;
    TruthfulRefl(s, s);
    var k := s.tx[i].nextFragment;
    if FragmentFrame(s, i, k).Some? {
      TransmitTruthful(s, FragmentFrame(s, i, k).value);
    }
    var t := SendDataFragment(s, i, k).0;
    var u := SendNext(s, i, now).0;
    if k < s.tx[i].fragmentCount {
      TruthfulRefl(t, u);
      TruthfulTrans(s, t, u);
    }
  }

  /** An event that records no callback's answer. */
  lemma NoteTruthful(s: Engine, t: Engine, e: Event)
    requires t.callbacks == s.callbacks && t.log == s.log + [e] && !e.Sent? && !e.EgressAsked? && !e.Delivered?
    ensures Truthful(s, t)
  {
    TruthfulOne(s, t, e);
  }

  lemma FailTruthful(s: Engine, i: nat)
    requires i < 4
    ensures Truthful(s, FailTxSlot(s, i)) && Truthful(s, CompleteTxSlot(s, i))
  {
    hide Release;
    NoteTruthful(s, FailTxSlot(s, i), Exhausted(s.tx[i].datagramId));
    NoteTruthful(s, CompleteTxSlot(s, i), Completed(s.tx[i].datagramId));
  }

  lemma {:induction false} RetransmitTruthful(s: Engine, i: nat, now: uint32)
    requires i <= 4
    ensures Truthful(s, TrySendRetransmit(s, i, now).0)
    decreases 4 - i
  {
    hide Truthful, SendNext, FailTxSlot, RetransmitDue, NewRound;
    TruthfulRefl(s, s);
    if i < 4 {
      FailTruthful(s, i);
      RetransmitTruthful(s, i + 1, now);
      if s.tx[i].attempts < 0xFF {
        var u := SetTx(s, i, NewRound(s.tx[i]));
        TruthfulRefl(s, u);
        SendNextTruthful(u, i, now);
        var t := SendNext(u, i, now).0;
        TruthfulTrans(s, u, t);
        RetransmitTruthful(t, i + 1, now);
        TruthfulTrans(s, t, TrySendRetransmit(t, i + 1, now).0);
      }
    }
  }

  lemma {:induction false} OpenDataTruthful(s: Engine, i: nat, now: uint32)
    requires i <= 4
    ensures Truthful(s, TrySendOpenData(s, i, now).0)
    decreases 4 - i
  {
    hide Truthful, SendNext, Scan;
    TruthfulRefl(s, s);
    if i < 4 {
      OpenDataTruthful(s, i + 1, now);
      var slot := s.tx[i].(nextFragment := Scan(s.tx[i], s.tx[i].nextFragment));
      var v := SetTx(s, i, slot.(round := {}, retryDeadline := RetryDeadline(s, now)));
      TruthfulRefl(s, v);
      OpenDataTruthful(v, i + 1, now);
      TruthfulTrans(s, v, TrySendOpenData(v, i + 1, now).0);
      var u := SetTx(s, i, slot);
      TruthfulRefl(s, u);
      SendNextTruthful(u, i, now);
      var t := SendNext(u, i, now).0;
      TruthfulTrans(s, u, t);
      OpenDataTruthful(t, i + 1, now);
      TruthfulTrans(s, t, TrySendOpenData(t, i + 1, now).0);
    }
  }

  lemma OpenQueuedTruthful(s: Engine, now: uint32)
    ensures Truthful(s, TryOpenQueued(s, now).0)
  {
    hide Truthful, TrySendOpenData, CountTx, Reached;
    var v := s.(probeArmed := false);
    TruthfulRefl(s, s);
    TruthfulRefl(s, v);
    TruthfulRefl(s, s.(probeArmed := true, probeDeadline := Wrap32(now + s.config.creditStallTimeout)));
    var i := FirstTx(v.tx, QUEUED, 0);
    if i < 4 {
      var u := OpenSlot(v, i, now);
      NoteTruthful(v, u, Opened(v.tx[i].datagramId, v.credits == 0));
      TruthfulTrans(s, v, u);
      OpenDataTruthful(u, 0, now);
      TruthfulTrans(s, u, TrySendOpenData(u, 0, now).0);
    }
  }

  lemma TxTickTruthful(s: Engine, now: uint32)
    ensures Truthful(s, TxTick(s, now))
  {
    hide Truthful, TrySendRetransmit, TrySendOpenData, TryOpenQueued;
    RetransmitTruthful(s, 0, now);
    var t := TrySendRetransmit(s, 0, now).0;
    OpenDataTruthful(t, 0, now);
    var u := TrySendOpenData(t, 0, now).0;
    TruthfulTrans(s, t, u);
    OpenQueuedTruthful(u, now);
    TruthfulTrans(s, u, TryOpenQueued(u, now).0);
  }

  lemma TickTruthful(s: Engine, now: uint32)
    ensures Truthful(s, OnTick(s, now))
  {
    hide Truthful, TryCompleteRxSlots, SendPendingAck, TxTick;
    CompletingTruthful(s, 0, now);
    var t := TryCompleteRxSlots(s, 0, now).0;
    SendPendingTruthful(t, now);
    var u := SendPendingAck(t, now).0;
    TruthfulTrans(s, t, u);
    TxTickTruthful(u, now);
    TruthfulTrans(s, u, TxTick(u, now));
  }

  lemma AckTruthful(s: Engine, ack: AckFrame, now: uint32)
    ensures Truthful(s, HandleAck(s, ack, now))
  {
    hide Truthful, OpenSlotFor, CompleteTxSlot, FullBitmap, Wrap32;
    var t := NoteAck(s, ack);
    NoteTruthful(s, t, AckSeen(ack));
    var i := OpenSlotFor(t.tx, ack.datagramId, 0);
    if i < 4 {
      var u := AckSlot(t, i, ack, now);
      var v := SetTx(t, i, t.tx[i].(acked := t.tx[i].acked + ack.fragmentBitmap));
      if ack.failure == CREDIT_WITHDRAWAL {
        TruthfulRefl(t, u);
      } else {
        TruthfulRefl(t, v);
        FailTruthful(v, i);
        TruthfulTrans(t, v, CompleteTxSlot(v, i));
      }
      TruthfulTrans(s, t, u);
    }
  }

  lemma SubmitTruthful(s: Engine, data: Option<Bytes>)
    ensures Truthful(s, Submit(s, data).0)
  {
    hide Truthful, Acquire, WriteBuffer, Filled, QueuedSlot;
    var t := Submit(s, data).0;
    if t.log == s.log {
      TruthfulRefl(s, t);
    } else {
      NoteTruthful(s, t, t.log[|s.log|]);
    }
  }

  lemma ApplyTruthful(s: Engine, input: Input)
    ensures Truthful(s, Apply(s, input))
  {
    hide Truthful, Submit, HandleData, HandleAck, Decode, SendPendingAck, OnTick;
    TruthfulRefl(s, s);
    match input
    case SubmitInput(data) => SubmitTruthful(s, data);
    case PacketInput(packet, now) =>
      if Decode(packet).Success? {
        match Decode(packet).value
        case DataFrame(h, payload) => DataTruthful(s, h, payload, now);
        case Ack(ack) => AckTruthful(s, ack, now);
        case _ =>
      }
    case TickInput(now) => TickTruthful(s, now);
    case FlushInput(now) => SendPendingTruthful(s, now);
  }

  lemma {:induction false} TruthfulAt(states: seq<Engine>, inputs: seq<Input>, k: nat)
    requires Trace(states, inputs) && k <= |inputs|
    ensures Truthful(states[0], states[k])
  {
    hide Truthful, Apply;
    TruthfulRefl(states[0], states[0]);
    if k > 0 {
      TruthfulAt(states, inputs, k - 1);
      assert StepAt(states, inputs, k - 1);
      ApplyTruthful(states[k - 1], inputs[k - 1]);
      TruthfulTrans(states[0], states[k - 1], states[k]);
    }
  }

  /** In every reachable state every event of the log is a true record. */
  lemma LogIsTrue(s: Engine, k: nat)
    requires Reachable(s) && k < |s.log|
    ensures TrueAt(s.callbacks, s.log, k)
  {
    hide Reachable, TrueAt, StepAt;
    var states, inputs := ReachableTrace(s);
    TruthfulAt(states, inputs, |inputs|);
    ResetIsSilent(states[0]);
  }

  lemma ResetIsSilent(s: Engine)
    requires IsReset(s)
    ensures s.log == []
  {
    hide FreshPool, EmptyWindow, ClampCredits;
  }
}
