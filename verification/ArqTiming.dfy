/** Deadlines: sleeping until the one the engine reports loses nothing, acting at it does
    something, and work waiting to be sent always has one. */
module ArqTiming {
  import opened Words
  import opened FramingV3
  import opened FragmentV3
  import opened DatagramPool
  import opened DuplicateWindow
  import opened ArqState
  import opened ArqInvariant

  /** d lies ahead of now, by less than half the clock's range. */
  predicate Ahead(now: uint32, d: uint32) {
    0 < Wrap32(d - now) < 0x8000_0000
  }

  /** t is a time from now on and before d. */
  predicate Before(now: uint32, t: uint32, d: uint32) {
    Wrap32(t - now) < Wrap32(d - now)
  }

  lemma NotReachedBefore(now: uint32, t: uint32, d: uint32)
    requires Ahead(now, d) && Before(now, t, d)
    ensures !Reached(t, d)
  {}

  lemma AheadDiffers(now: uint32, d: uint32)
    requires Ahead(now, d)
    ensures d != now
  {}

  lemma ReachedAt(d: uint32)
    ensures Reached(d, d)
  {}

  /** The engine waits: nothing is ready to go at once. */
  predicate Waiting(s: Engine) {
    && |s.acks| == 0
    && (forall i :: 0 <= i < 4 ==> !(s.rx[i].active && s.rx[i].waiting))
    && (forall i :: 0 <= i < 4 && s.tx[i].state == OPEN ==>
          s.tx[i].round == {} && !(FullBitmap(s.tx[i]) <= s.tx[i].acked))
    && !(QueuedCount(s) > 0 && s.credits > 0 && ActiveCount(s) == 0)
  }

  /** The one thing a waiting engine waits for at d: the retry of its OPEN slot, or the probe. */
  predicate WaitsFor(s: Engine, d: uint32) {
    || (exists i :: 0 <= i < 4 && s.tx[i].state == OPEN && s.tx[i].retryDeadline == d)
    || (ActiveCount(s) == 0 && s.probeArmed && s.credits == 0 && QueuedCount(s) > 0 && s.probeDeadline == d)
  }

  lemma {:induction false} RetryDeadlinesIs(s: Engine, now: uint32, i: nat, best: Option<uint32>, d: uint32)
    requires i <= 4 && RetryDeadlines(s, now, i, best) == Some(d) && d != now
    ensures forall j :: i <= j < 4 && s.tx[j].state == OPEN ==> !(FullBitmap(s.tx[j]) <= s.tx[j].acked)
    ensures best == Some(d) || exists j :: i <= j < 4 && s.tx[j].state == OPEN && s.tx[j].retryDeadline == d
    decreases 4 - i
  {
    hide Reached, FullBitmap;
    if i < 4 {
      var slot := s.tx[i];
      if slot.state == OPEN && slot.round == {} && (best.None? || !Reached(slot.retryDeadline, best.value)) {
        RetryDeadlinesIs(s, now, i + 1, Some(slot.retryDeadline), d);
      } else {
        RetryDeadlinesIs(s, now, i + 1, best, d);
      }
    }
  }

  lemma DeadlineMeaning(s: Engine, now: uint32, d: uint32)
    requires |s.acks| == 0 && NextDeadline(s, now) == Some(d) && d != now
    ensures Waiting(s) && WaitsFor(s, d)
  {
    var probe := if s.probeArmed && s.credits == 0 && QueuedCount(s) > 0 && ActiveCount(s) == 0
                 then Some(s.probeDeadline) else None;
    RetryDeadlinesIs(s, now, 0, probe, d);
    hide CountTx, FullBitmap, RetryDeadlines;
  }

  lemma {:induction false} NothingToComplete(s: Engine, i: nat, now: uint32)
    requires i <= 4 && forall j :: i <= j < 4 ==> !(s.rx[j].active && s.rx[j].waiting)
    ensures TryCompleteRxSlots(s, i, now) == (s, false)
    decreases 4 - i
  {
    if i < 4 {
      NothingToComplete(s, i + 1, now);
    }
  }

  lemma {:induction false} NothingToRetransmit(s: Engine, i: nat, now: uint32)
    requires i <= 4 && forall j :: i <= j < 4 ==> !RetransmitDue(s, j, now)
    ensures TrySendRetransmit(s, i, now) == (s, false)
    decreases 4 - i
  {
    hide RetransmitDue;
    if i < 4 {
      NothingToRetransmit(s, i + 1, now);
    }
  }

  lemma {:induction false} NothingOpenToSend(s: Engine, i: nat, now: uint32)
    requires i <= 4 && forall j :: i <= j < 4 ==> !(s.tx[j].state == OPEN && s.tx[j].round != {})
    ensures TrySendOpenData(s, i, now) == (s, false)
    decreases 4 - i
  {
    if i < 4 {
      NothingOpenToSend(s, i + 1, now);
    }
  }

  /** A waiting engine is woken by nothing but what it waits for. */
  lemma WaitingTick(s: Engine, t: uint32)
    requires Waiting(s)
    ensures OnTick(s, t) == TxTick(s, t)
    ensures TrySendOpenData(s, 0, t) == (s, false)
  {
    NothingToComplete(s, 0, t);
    NothingOpenToSend(s, 0, t);
  }

  lemma WaitingTxTick(s: Engine, t: uint32)
    requires Waiting(s) && forall j :: 0 <= j < 4 ==> !RetransmitDue(s, j, t)
    requires ActiveCount(s) == 0 ==> s.probeArmed && s.credits == 0 && QueuedCount(s) > 0 && !Reached(t, s.probeDeadline)
    ensures TxTick(s, t) == s
  {
    NothingToRetransmit(s, 0, t);
    NothingOpenToSend(s, 0, t);
    hide Waiting, RetransmitDue, TrySendRetransmit, TrySendOpenData, OpenNext, Reached, CountTx;
    assert TryOpenQueued(s, t) == (s, false);
  }

  /** With no acknowledgement pending, a tick at any time before the reported deadline sends
      nothing, asks the callbacks nothing and changes nothing. */
  lemma SleepLosesNothing(s: Engine, now: uint32, d: uint32, t: uint32, u: Engine)
    requires Reachable(s) && |s.acks| == 0
    requires NextDeadline(s, now) == Some(d) && Ahead(now, d)
    requires Before(now, t, d) && Leads(s, TickInput(t), u)
    ensures u == s
  {
    hide *;
    ReachableInv(s);
    AheadDiffers(now, d);
    DeadlineMeaning(s, now, d);
    NotReachedBefore(now, t, d);
    WaitingTick(s, t);
    OneDeadline(s, d, t);
    WaitingTxTick(s, t);
    TickLeads(s, t, u);
  }

  lemma TickLeads(s: Engine, now: uint32, t: Engine)
    requires Leads(s, TickInput(now), t)
    ensures t == OnTick(s, now)
  {
    LeadsIs(s, TickInput(now), t);
    hide OnTick;
  }

  /** At most one slot is OPEN, so a waiting engine has one deadline. */
  lemma OneDeadline(s: Engine, d: uint32, t: uint32)
    requires Inv(s) && Waiting(s) && WaitsFor(s, d) && !Reached(t, d)
    ensures forall j :: 0 <= j < 4 ==> !RetransmitDue(s, j, t)
    ensures ActiveCount(s) == 0 ==> s.probeArmed && s.credits == 0 && QueuedCount(s) > 0 && s.probeDeadline == d
  {
    hide RxOk, LedgerOk, TxBuffersOk, TxSlotOk, Reached, FullBitmap;
    if exists i :: 0 <= i < 4 && s.tx[i].state == OPEN && s.tx[i].retryDeadline == d {
      var i :| 0 <= i < 4 && s.tx[i].state == OPEN && s.tx[i].retryDeadline == d;
      assert forall j :: 0 <= j < 4 && j != i ==> s.tx[j].state != OPEN;
    }
  }

  // ---- acting at the deadline ----

  /** Slot i was given up, started another round, or was opened. */
  predicate Acted(s: Engine, t: Engine, i: nat)
    requires i < 4
  {
    || (s.tx[i].state == OPEN && t.tx[i].state == EMPTY)
    || (s.tx[i].state == OPEN && t.tx[i].state == OPEN && t.tx[i].attempts == s.tx[i].attempts + 1)
    || (s.tx[i].state == QUEUED && t.tx[i].state == OPEN && t.tx[i].attempts == 1)
  }

  /** The parts of a slot that sending fragments never touches. */
  predicate SameStage(a: TxSlot, b: TxSlot) {
    b == a.(round := b.round, nextFragment := b.nextFragment, retryDeadline := b.retryDeadline)
  }

  predicate SameStages(a: TxSlots, b: TxSlots) {
    SameStage(a[0], b[0]) && SameStage(a[1], b[1]) && SameStage(a[2], b[2]) && SameStage(a[3], b[3])
  }

  lemma SendNextStages(s: Engine, i: nat, now: uint32)
    requires i < 4
    ensures SameStages(s.tx, SendNext(s, i, now).0.tx)
    ensures var t := SendNext(s, i, now).0;
            t.probeArmed == s.probeArmed && t.credits == s.credits && t.config == s.config
  {
    hide FragmentFrame, Encode;
  }

  lemma {:induction false} OpenDataStages(s: Engine, i: nat, now: uint32)
    requires i <= 4
    ensures SameStages(s.tx, TrySendOpenData(s, i, now).0.tx)
    ensures TrySendOpenData(s, i, now).1 ==> exists j :: i <= j < 4 && s.tx[j].state == OPEN
    ensures var t := TrySendOpenData(s, i, now).0; t.probeArmed == s.probeArmed && t.credits == s.credits
    decreases 4 - i
  {
    hide SendNext, Scan;
    if i < 4 {
      if s.tx[i].state != OPEN || s.tx[i].round == {} {
        OpenDataStages(s, i + 1, now);
      } else {
        var slot := s.tx[i].(nextFragment := Scan(s.tx[i], s.tx[i].nextFragment));
        var u := SetTx(s, i, slot);
        SendNextStages(u, i, now);
        if slot.nextFragment >= slot.fragmentCount {
          OpenDataStages(SetTx(s, i, slot.(round := {}, retryDeadline := RetryDeadline(s, now))), i + 1, now);
        } else if !SendNext(u, i, now).1 {
          OpenDataStages(SendNext(u, i, now).0, i + 1, now);
        }
      }
    }
  }

  lemma StagesCount(a: TxSlots, b: TxSlots, st: TxState)
    requires SameStages(a, b)
    ensures CountTx(a, st, 4) == CountTx(b, st, 4)
    ensures forall i :: 0 <= i < 4 ==> SameStage(a[i], b[i])
  {
    CountFour(a, st);
    CountFour(b, st);
    hide CountTx;
  }

  /** What opening a queued datagram does to each slot's stage. */
  predicate StageAfterOpen(a: TxSlot, b: TxSlot) {
    SameStage(a, b) || (a.state == QUEUED && b.state == OPEN && b.attempts == 1)
  }

  lemma OpenNextStages(s: Engine, now: uint32)
    requires ActiveCount(s) == 0
    ensures var t := OpenNext(s, now).0;
            && (forall i :: 0 <= i < 4 ==> StageAfterOpen(s.tx[i], t.tx[i]))
            && (QueuedCount(s) > 0 ==> exists i :: 0 <= i < 4 && s.tx[i].state == QUEUED && t.tx[i].state == OPEN
                                                    && t.tx[i].attempts == 1)
  {
    var i := FirstTx(s.tx, QUEUED, 0);
    if i < 4 {
      var u := OpenSlot(s, i, now);
      OpenDataStages(u, 0, now);
      var t := TrySendOpenData(u, 0, now).0;
      StagesCount(u.tx, t.tx, OPEN);
      hide TrySendOpenData, CountTx;
      forall j | 0 <= j < 4 ensures StageAfterOpen(s.tx[j], t.tx[j]) {
        assert SameStage(u.tx[j], t.tx[j]);
      }
      assert t.tx[i].state == OPEN && t.tx[i].attempts == 1;
    }
  }

  lemma TryOpenQueuedStages(s: Engine, now: uint32)
    ensures forall i :: 0 <= i < 4 ==> StageAfterOpen(s.tx[i], TryOpenQueued(s, now).0.tx[i])
    ensures ActiveCount(s) != 0 ==> TryOpenQueued(s, now) == (s, false)
  {
    if ActiveCount(s) == 0 {
      OpenNextStages(s.(probeArmed := false), now);
    }
    hide OpenNext, CountTx, Reached;
  }

  /** The transmit side after slot i, the only OPEN one, was due. */
  lemma DueSlotActs(s: Engine, i: nat, d: uint32)
    requires Inv(s) && i < 4 && RetransmitDue(s, i, d)
    requires forall j :: 0 <= j < 4 && j != i ==> s.tx[j].state != OPEN
    ensures Acted(s, TxTick(s, d), i)
  {
    hide Inv, TxTick, Acted, RetransmitDue;
    SkipToDue(s, 0, i, d);
    if s.tx[i].attempts >= s.config.maxAttempts {
      GivingUpActs(s, i, d);
    } else {
      RoundActs(s, i, d);
    }
  }

  lemma GivingUpActs(s: Engine, i: nat, d: uint32)
    requires i < 4 && RetransmitDue(s, i, d) && s.tx[i].attempts >= s.config.maxAttempts
    requires TrySendRetransmit(s, 0, d) == TrySendRetransmit(s, i, d)
    requires forall j :: 0 <= j < 4 && j != i ==> s.tx[j].state != OPEN
    ensures Acted(s, TxTick(s, d), i)
  {
    hide Reached;
    var t := FailTxSlot(s, i);
    assert t.tx == s.tx[i := EMPTY_TX];
    hide ClearTxSlot, FailTxSlot;
    assert TrySendRetransmit(s, i, d) == (t, false);
    NothingOpenToSend(t, 0, d);
    TryOpenQueuedStages(t, d);
    hide TrySendRetransmit, TrySendOpenData, TryOpenQueued;
    assert StageAfterOpen(t.tx[i], TryOpenQueued(t, d).0.tx[i]);
  }

  lemma {:induction false} SkipToDue(s: Engine, j: nat, i: nat, d: uint32)
    requires j <= i < 4 && RetransmitDue(s, i, d)
    requires forall k :: j <= k < i ==> s.tx[k].state != OPEN
    ensures TrySendRetransmit(s, j, d) == TrySendRetransmit(s, i, d)
    decreases i - j
  {
    hide SendNext, FailTxSlot, NewRound;
    if j < i {
      SkipToDue(s, j + 1, i, d);
    }
  }

  lemma RoundActs(s: Engine, i: nat, d: uint32)
    requires i < 4 && RetransmitDue(s, i, d) && s.tx[i].attempts < s.config.maxAttempts
    requires forall j :: 0 <= j < 4 && j != i ==> s.tx[j].state != OPEN
    requires TrySendRetransmit(s, 0, d) == TrySendRetransmit(s, i, d)
    ensures Acted(s, TxTick(s, d), i)
  {
    var u := SetTx(s, i, NewRound(s.tx[i]));
    var (t, sent) := SendNext(u, i, d);
    SendNextStages(u, i, d);
    StagesCount(u.tx, t.tx, OPEN);
    assert u.tx[i].attempts == s.tx[i].attempts + 1 && u.tx[i].state == OPEN;
    hide SendNext, NewRound, CountTx, RetransmitDue;
    assert TrySendRetransmit(s, i, d) == if sent then (t, true) else TrySendRetransmit(t, i + 1, d) by {
      RetransmitStep(s, i, d);
    }
    if !sent {
      forall j | i + 1 <= j < 4 ensures !RetransmitDue(t, j, d) {
        assert SameStage(u.tx[j], t.tx[j]);
        NotOpenNotDue(t, j, d);
      }
      NothingToRetransmit(t, i + 1, d);
      OpenDataStages(t, 0, d);
      var v := TrySendOpenData(t, 0, d).0;
      StagesCount(t.tx, v.tx, OPEN);
      assert ActiveCount(v) != 0;
      TryOpenQueuedStages(v, d);
    }
  }

  lemma NotOpenNotDue(s: Engine, j: nat, d: uint32)
    requires j < 4 && s.tx[j].state != OPEN
    ensures !RetransmitDue(s, j, d)
  {}

  lemma RetransmitStep(s: Engine, i: nat, d: uint32)
    requires i < 4 && RetransmitDue(s, i, d) && s.tx[i].attempts < s.config.maxAttempts
    ensures var (t, sent) := SendNext(SetTx(s, i, NewRound(s.tx[i])), i, d);
            TrySendRetransmit(s, i, d) == if sent then (t, true) else TrySendRetransmit(t, i + 1, d)
  {
    hide SendNext, NewRound, RetransmitDue;
  }

  /** A tick at the reported deadline gives up a datagram, starts a round or opens a datagram. */
  lemma ActsAtDeadline(s: Engine, now: uint32, d: uint32, u: Engine)
    requires Reachable(s) && |s.acks| == 0
    requires NextDeadline(s, now) == Some(d) && Ahead(now, d) && Leads(s, TickInput(d), u)
    ensures exists i :: 0 <= i < 4 && Acted(s, u, i)
  {
    hide *;
    ReachableInv(s);
    AheadDiffers(now, d);
    DeadlineMeaning(s, now, d);
    ReachedAt(d);
    WaitingTick(s, d);
    TickLeads(s, d, u);
    if ActiveCount(s) == 0 {
      NoneOpen(s);
      ProbeActs(s, d);
    } else {
      RetryActs(s, d);
    }
  }

  lemma NoneOpen(s: Engine)
    ensures ActiveCount(s) == 0 <==> forall i :: 0 <= i < 4 ==> s.tx[i].state != OPEN
  {}

  lemma RetryActs(s: Engine, d: uint32)
    requires Inv(s) && Waiting(s) && WaitsFor(s, d) && ActiveCount(s) != 0 && Reached(d, d)
    ensures exists i :: 0 <= i < 4 && Acted(s, TxTick(s, d), i)
  {
    hide RxOk, LedgerOk, TxBuffersOk, TxSlotOk, FullBitmap, TxTick, Acted, CountTx, Reached;
    var i :| 0 <= i < 4 && s.tx[i].state == OPEN && s.tx[i].retryDeadline == d;
    assert RetransmitDue(s, i, d);
    assert forall j :: 0 <= j < 4 && j != i ==> s.tx[j].state != OPEN;
    DueSlotActs(s, i, d);
  }

  lemma ProbeActs(s: Engine, d: uint32)
    requires forall i :: 0 <= i < 4 ==> s.tx[i].state != OPEN
    requires ActiveCount(s) == 0 && WaitsFor(s, d) && Reached(d, d)
    ensures exists i :: 0 <= i < 4 && Acted(s, TxTick(s, d), i)
  {
    NothingToRetransmit(s, 0, d);
    NothingOpenToSend(s, 0, d);
    var t := s.(probeArmed := false);
    assert t.tx == s.tx;
    OpenNextStages(t, d);
    hide TrySendRetransmit, TrySendOpenData, OpenNext, CountTx, Reached;
    assert TryOpenQueued(s, d) == OpenNext(t, d);
    assert TxTick(s, d) == OpenNext(t, d).0;
    var i :| 0 <= i < 4 && t.tx[i].state == QUEUED && OpenNext(t, d).0.tx[i].state == OPEN
             && OpenNext(t, d).0.tx[i].attempts == 1;
    assert Acted(s, TxTick(s, d), i);
  }

  // ---- no silent stall ----

  /** Nothing is lost from sight: an idle transmit side with work but no credit has armed the
      probe. */
  predicate ProbeReady(s: Engine) {
    ActiveCount(s) == 0 && QueuedCount(s) > 0 && s.credits == 0 ==> s.probeArmed
  }

  lemma {:induction false} RetransmitSentOpen(s: Engine, i: nat, now: uint32)
    requires i <= 4 && TrySendRetransmit(s, i, now).1
    ensures ActiveCount(TrySendRetransmit(s, i, now).0) != 0
    decreases 4 - i
  {
    hide CountTx, FailTxSlot;
    if i < 4 {
      if !RetransmitDue(s, i, now) {
        RetransmitSentOpen(s, i + 1, now);
      } else if s.tx[i].attempts < s.config.maxAttempts {
        var u := SetTx(s, i, NewRound(s.tx[i]));
        SendNextStages(u, i, now);
        var (t, sent) := SendNext(u, i, now);
        StagesCount(u.tx, t.tx, OPEN);
        hide SendNext, NewRound;
        if sent {
          assert t.tx[i].state == OPEN;
        } else {
          RetransmitSentOpen(t, i + 1, now);
        }
      }
    }
  }

  lemma TxTickProbeReady(s: Engine, now: uint32)
    ensures ProbeReady(TxTick(s, now))
  {
    var (t, retransmitted) := TrySendRetransmit(s, 0, now);
    if retransmitted {
      RetransmitSentOpen(s, 0, now);
    } else {
      OpenDataStages(t, 0, now);
      var (u, sent) := TrySendOpenData(t, 0, now);
      StagesCount(t.tx, u.tx, OPEN);
      if !sent && ActiveCount(u) == 0 {
        OpenNextStages(u.(probeArmed := false), now);
        ProbeReadyAfterOpen(u, now);
      }
    }
    hide TrySendRetransmit, TrySendOpenData, OpenNext, CountTx, Reached;
  }

  lemma ProbeReadyAfterOpen(u: Engine, now: uint32)
    requires ActiveCount(u) == 0
    ensures ProbeReady(TryOpenQueued(u, now).0)
  {
    var v := u.(probeArmed := false);
    OpenNextStages(v, now);
    OpenNextIdle(v, now);
    hide OpenNext, CountTx, Reached;
  }

  lemma OpenNextIdle(v: Engine, now: uint32)
    requires ActiveCount(v) == 0
    ensures ActiveCount(OpenNext(v, now).0) == 0 ==> OpenNext(v, now) == (v, false) && QueuedCount(v) == 0
  {
    OpenNextStages(v, now);
    hide CountTx, TrySendOpenData;
  }

  /** Anything OPEN shows up in the deadline. */
  lemma {:induction false} OpenHasDeadline(s: Engine, now: uint32, i: nat, best: Option<uint32>)
    requires i <= 4 && (best.Some? || exists j :: i <= j < 4 && s.tx[j].state == OPEN && s.tx[j].round == {})
    ensures RetryDeadlines(s, now, i, best).Some?
    decreases 4 - i
  {
    hide Reached, FullBitmap;
    if i < 4 {
      var slot := s.tx[i];
      if slot.state == OPEN && slot.round == {} && (best.None? || !Reached(slot.retryDeadline, best.value)) {
        OpenHasDeadline(s, now, i + 1, Some(slot.retryDeadline));
      } else {
        OpenHasDeadline(s, now, i + 1, best);
      }
    }
  }

  /** How many datagrams the egress took and acknowledgements the radio took. */
  function Settled(log: Log): nat {
    if |log| == 0 then 0 else Settled(log[..|log| - 1]) + (if Settles(log[|log| - 1]) then 1 else 0)
  }

  predicate Settles(e: Event) {
    (e.Delivered? && e.accepted) || (e.Sent? && e.accepted && e.frame.Ack?)
  }

  lemma SettledAppend(log: Log, e: Event)
    ensures Settled(log + [e]) == Settled(log) + (if Settles(e) then 1 else 0)
  {
    assert (log + [e])[..|log|] == log;
  }

  lemma AskSettles(s: Engine, default: byte)
    ensures Settled(AskEgress(s, default).0.log) == Settled(s.log)
  {
    match s.callbacks.egress
    case None =>
    case Some(f) => SettledAppend(s.log, EgressAsked(f(s.log)));
  }

  lemma CreditsSettle(s: Engine)
    ensures Settled(CurrentCredits(s).0.log) == Settled(s.log)
  {
    AskSettles(s, ARQ_MAX_RX_DATAGRAMS);
    hide Settled;
  }

  lemma OfferSettles(s: Engine, i: nat)
    requires i < 4
    ensures Settled(Offer(s, i).0.log) == Settled(s.log) + (if Offer(s, i).1 then 1 else 0)
  {
    hide Settled, OutputOf;
    AskSettles(s, 1);
    var (t, egress) := AskEgress(s, 1);
    hide AskEgress;
    if egress != 0 && t.callbacks.deliver.Some? {
      var accepted := t.callbacks.deliver.value(t.log, OutputOf(t, i));
      SettledAppend(t.log, Delivered(t.rx[i].reassembly.datagramId, OutputOf(t, i), accepted));
    }
  }

  lemma FinishSettles(s: Engine, i: nat, now: uint32)
    requires i < 4
    ensures Settled(FinishDelivery(s, i, now).log) == Settled(s.log)
  {
    hide Settled, CurrentCredits;
    CreditsSettle(s);
    var r := s.rx[i].reassembly;
    var (t, stored) := CurrentCredits(s);
    CreditsSettle(t.(window := Store(t.window, r.datagramId,
                                     AckState(FragmentExpectedBitmap(r.fragmentCount), stored, NONE))));
    hide Store;
  }

  lemma {:induction false} CompletingSettles(s: Engine, i: nat, now: uint32)
    requires i <= 4
    ensures var (t, completed) := TryCompleteRxSlots(s, i, now);
            Settled(t.log) == Settled(s.log) + (if completed then 1 else 0)
    decreases 4 - i
  {
    hide Settled, Offer, FinishDelivery, ReassemblyIsComplete;
    if i < 4 {
      OfferSettles(s, i);
      FinishSettles(Offer(s, i).0, i, now);
      CompletingSettles(s, i + 1, now);
      var (t, completed) := TryCompleteRxSlot(s, i, now);
      if !completed {
        CompletingSettles(t, i + 1, now);
      }
    }
  }

  lemma SendingSettles(s: Engine, now: uint32)
    ensures var (t, sent) := SendPendingAck(s, now);
            Settled(t.log) == Settled(s.log) + (if sent then 1 else 0)
  {
    hide Settled, Encode;
    var t := SendPendingAck(s, now).0;
    if t.log != s.log {
      SettledAppend(s.log, t.log[|s.log|]);
    }
  }

  /** After any tick that neither delivered a datagram nor sent an acknowledgement, an engine with a
      QUEUED or OPEN slot reports a deadline, whatever time it is asked at. */
  lemma NoSilentStall(s: Engine, now: uint32, u: Engine, later: uint32)
    requires Leads(s, TickInput(now), u) && Settled(u.log) == Settled(s.log)
    requires exists i :: 0 <= i < 4 && u.tx[i].state != EMPTY
    ensures NextDeadline(u, later).Some?
  {
    hide TxTick, TryCompleteRxSlots, SendPendingAck, Settled, ProbeReady, NextDeadline, Leads;
    TickLeads(s, now, u);
    CompletingSettles(s, 0, now);
    var (t, completed) := TryCompleteRxSlots(s, 0, now);
    SendingSettles(t, now);
    var (v, acknowledged) := SendPendingAck(t, now);
    assert !completed && !acknowledged;
    TxTickProbeReady(v, now);
    WorkHasDeadline(u, later);
  }

  lemma WorkHasDeadline(u: Engine, later: uint32)
    requires ProbeReady(u) && exists i :: 0 <= i < 4 && u.tx[i].state != EMPTY
    ensures NextDeadline(u, later).Some?
  {
    hide CountTx, RetryDeadlines;
    var probe := if u.probeArmed && u.credits == 0 && QueuedCount(u) > 0 && ActiveCount(u) == 0
                 then Some(u.probeDeadline) else None;
    if ActiveCount(u) != 0 {
      var j :| 0 <= j < 4 && u.tx[j].state == OPEN;
      if u.tx[j].round == {} {
        OpenHasDeadline(u, later, 0, probe);
      }
    } else {
      var j :| 0 <= j < 4 && u.tx[j].state != EMPTY;
      assert u.tx[j].state == QUEUED;
      if u.credits == 0 {
        OpenHasDeadline(u, later, 0, probe);
      }
    }
  }

  // ---- how long the engine waits ----

  lemma {:induction false} OnlyRetry(s: Engine, i: nat, now: uint32, j: nat, best: Option<uint32>)
    requires i < 4 && j <= 4 && s.tx[i].state == OPEN && s.tx[i].round == {} && !(FullBitmap(s.tx[i]) <= s.tx[i].acked)
    requires forall k :: 0 <= k < 4 && k != i ==> s.tx[k].state != OPEN
    requires best == if j <= i then None else Some(s.tx[i].retryDeadline)
    ensures RetryDeadlines(s, now, j, best) == Some(s.tx[i].retryDeadline)
    decreases 4 - j
  {
    hide FullBitmap, Reached;
    if j < 4 {
      OnlyRetry(s, i, now, j + 1, if j == i then Some(s.tx[i].retryDeadline) else best);
    }
  }

  /** Between two rounds of the OPEN slot, with nothing to acknowledge or deliver, the engine waits
      for exactly that slot's retry deadline. */
  lemma OpenWaitsForRetry(s: Engine, i: nat, now: uint32)
    requires TxInv(s) && |s.acks| == 0 && !SomeWaiting(s.rx)
    requires i < 4 && s.tx[i].state == OPEN && s.tx[i].round == {} && !(FullBitmap(s.tx[i]) <= s.tx[i].acked)
    ensures NextDeadline(s, now) == Some(s.tx[i].retryDeadline)
  {
    assert forall k :: 0 <= k < 4 && k != i ==> s.tx[k].state != OPEN by { hide LedgerOk, TxBuffersOk, TxSlotOk; }
    NoneOpen(s);
    hide TxInv, FullBitmap, RetryDeadlines, CountTx;
    OnlyRetry(s, i, now, 0, None);
  }

  /** A credit withdrawal ends the round of the datagram it names, takes back what it does not list, puts
      the next round off by the stall timeout and counts the attempts from one again. */
  lemma WithdrawalBacksOff(s: Engine, i: nat, ack: AckFrame, now: uint32)
    requires TxInv(s) && i < 4 && s.tx[i].state == OPEN && s.tx[i].datagramId == ack.datagramId
    requires ack.failure == CREDIT_WITHDRAWAL
    ensures var slot := HandleAck(s, ack, now).tx[i];
            && slot.state == OPEN && slot.datagramId == ack.datagramId && slot.fragmentCount == s.tx[i].fragmentCount
            && slot.acked == s.tx[i].acked * ack.fragmentBitmap && slot.round == {} && slot.attempts == 1
            && slot.retryDeadline == Wrap32(now + s.config.creditStallTimeout)
  {
    hide TxInv, Wrap32, ClampCredits, OpenSlotFor;
    FoundOpen(s, i);
    assert HandleAck(s, ack, now) == AckSlot(NoteAck(s, ack), i, ack, now);
    hide HandleAck;
  }

  lemma FoundOpen(s: Engine, i: nat)
    requires TxInv(s) && i < 4 && s.tx[i].state == OPEN
    ensures OpenSlotFor(s.tx, s.tx[i].datagramId, 0) == i
  {
    hide LedgerOk, TxBuffersOk, TxSlotOk;
  }

  /** So with nothing to acknowledge or deliver, the engine then waits for exactly that long. */
  lemma WaitsAfterWithdrawal(s: Engine, i: nat, ack: AckFrame, now: uint32, later: uint32)
    requires TxInv(s) && |s.acks| == 0 && !SomeWaiting(s.rx)
    requires i < 4 && s.tx[i].state == OPEN && s.tx[i].datagramId == ack.datagramId
    requires ack.failure == CREDIT_WITHDRAWAL && !(FullBitmap(s.tx[i]) <= ack.fragmentBitmap)
    ensures NextDeadline(HandleAck(s, ack, now), later) == Some(Wrap32(now + s.config.creditStallTimeout))
  {
    var t := HandleAck(s, ack, now);
    HandleAckKeeps(s, ack, now);
    WithdrawalBacksOff(s, i, ack, now);
    hide TxInv, Wrap32, NextDeadline, HandleAck;
    WithdrawnNotFull(s.tx[i], t.tx[i], ack.fragmentBitmap);
    hide FullBitmap;
    OpenWaitsForRetry(t, i, later);
  }

  lemma WithdrawnNotFull(a: TxSlot, b: TxSlot, bits: Bitmap)
    requires b.fragmentCount == a.fragmentCount && b.acked == a.acked * bits && !(FullBitmap(a) <= bits)
    ensures !(FullBitmap(b) <= b.acked)
  {}

  /** A deadline set a timeout ahead is reached after that time and not before. */
  lemma TimeoutRunsOut(now: uint32, e: nat, timeout: uint32)
    requires e <= timeout < 0x8000_0000
    ensures Reached(Wrap32(now + e), Wrap32(now + timeout)) <==> e == timeout
  {}

  // ---- opening needs a credit, or a stall ----

  /** Slots waiting to be opened, the credits and the probe are as they were. */
  ghost predicate QueueSame(s: Engine, t: Engine) {
    && t.credits == s.credits && t.probeArmed == s.probeArmed && t.probeDeadline == s.probeDeadline
    && t.config == s.config
    && forall j :: 0 <= j < 4 && s.tx[j].state == QUEUED ==> t.tx[j] == s.tx[j]
  }

  lemma SendNextKeepsQueue(s: Engine, i: nat, now: uint32)
    requires i < 4 && s.tx[i].state == OPEN
    ensures QueueSame(s, SendNext(s, i, now).0) && SendNext(s, i, now).0.tx[i].state == OPEN
  {
    hide FragmentFrame, Encode;
  }

  lemma {:induction false} RetransmitKeepsQueue(s: Engine, i: nat, now: uint32)
    requires i <= 4
    ensures QueueSame(s, TrySendRetransmit(s, i, now).0)
    decreases 4 - i
  {
    hide SendNext, Release, Scan;
    if i < 4 {
      if !RetransmitDue(s, i, now) {
        RetransmitKeepsQueue(s, i + 1, now);
      } else if s.tx[i].attempts < s.config.maxAttempts {
        var u := SetTx(s, i, NewRound(s.tx[i]));
        assert QueueSame(s, u) && u.tx[i].state == OPEN;
        hide NewRound;
        SendNextKeepsQueue(u, i, now);
        if !SendNext(u, i, now).1 {
          RetransmitKeepsQueue(SendNext(u, i, now).0, i + 1, now);
        }
      }
    }
  }

  lemma {:induction false} OpenDataKeepsQueue(s: Engine, i: nat, now: uint32)
    requires i <= 4
    ensures QueueSame(s, TrySendOpenData(s, i, now).0)
    decreases 4 - i
  {
    hide SendNext, Scan, Wrap32;
    if i < 4 {
      if s.tx[i].state != OPEN || s.tx[i].round == {} {
        OpenDataKeepsQueue(s, i + 1, now);
      } else {
        var slot := s.tx[i].(nextFragment := Scan(s.tx[i], s.tx[i].nextFragment));
        var u := SetTx(s, i, slot);
        if slot.nextFragment >= slot.fragmentCount {
          OpenDataKeepsQueue(SetTx(s, i, slot.(round := {}, retryDeadline := RetryDeadline(s, now))), i + 1, now);
        } else {
          SendNextKeepsQueue(u, i, now);
          if !SendNext(u, i, now).1 {
            OpenDataKeepsQueue(SendNext(u, i, now).0, i + 1, now);
          }
        }
      }
    }
  }

  /** What opening costs: a credit, or with none left a stall probe that has run out. Arming the probe
      sets it a stall timeout ahead. */
  ghost predicate OpensFairly(s: Engine, now: uint32, t: Engine) {
    && (forall j :: 0 <= j < 4 && s.tx[j].state == QUEUED && t.tx[j].state == OPEN ==>
          || (s.credits > 0 && t.credits == s.credits - 1)
          || (s.credits == 0 && s.probeArmed && Reached(now, s.probeDeadline)))
    && (!s.probeArmed && t.probeArmed ==>
          s.credits == 0 && t.probeDeadline == Wrap32(now + s.config.creditStallTimeout))
  }

  lemma OpenQueuedFairly(s: Engine, now: uint32)
    ensures OpensFairly(s, now, TryOpenQueued(s, now).0)
  {
    var v := s.(probeArmed := false);
    var i := FirstTx(v.tx, QUEUED, 0);
    if i < 4 {
      OpenDataKeepsQueue(OpenSlot(v, i, now), 0, now);
    }
    hide TrySendOpenData, CountTx, Reached, Wrap32, FullBitmap;
  }

  lemma FairlyFrom(s: Engine, u: Engine, now: uint32, t: Engine)
    requires QueueSame(s, u) && OpensFairly(u, now, t)
    ensures OpensFairly(s, now, t)
  {
    hide Reached, Wrap32;
  }

  lemma QueueSameTrans(s: Engine, t: Engine, u: Engine)
    requires QueueSame(s, t) && QueueSame(t, u)
    ensures QueueSame(s, u)
  {}

  lemma UnopenedFairly(s: Engine, now: uint32, t: Engine)
    requires QueueSame(s, t)
    ensures OpensFairly(s, now, t)
  {}

  lemma TransmitFairly(s: Engine, now: uint32)
    ensures OpensFairly(s, now, TxTick(s, now))
  {
    hide OpensFairly, QueueSame, TrySendRetransmit, TrySendOpenData, TryOpenQueued;
    RetransmitKeepsQueue(s, 0, now);
    var (t, retransmitted) := TrySendRetransmit(s, 0, now);
    UnopenedFairly(s, now, t);
    OpenDataKeepsQueue(t, 0, now);
    var (u, sent) := TrySendOpenData(t, 0, now);
    QueueSameTrans(s, t, u);
    UnopenedFairly(s, now, u);
    OpenQueuedFairly(u, now);
    FairlyFrom(s, u, now, TryOpenQueued(u, now).0);
  }

  /** A tick opens a queued datagram only for a credit, which it spends, or after the stall probe ran
      out with no credits left; and it arms the probe only then, a stall timeout ahead. */
  lemma OpeningNeedsCredit(s: Engine, now: uint32, t: Engine)
    requires Reachable(s) && Leads(s, TickInput(now), t)
    ensures OpensFairly(s, now, t)
  {
    hide *;
    ReachableInv(s);
    TickLeads(s, now, t);
    var u := SendPendingAck(TryCompleteRxSlots(s, 0, now).0, now).0;
    ReceiveHalf(s, now);
    UnopenedFairly(s, now, u);
    TransmitFairly(u, now);
    FairlyFrom(s, u, now, TxTick(u, now));
  }

  lemma ReceiveHalf(s: Engine, now: uint32)
    requires Inv(s)
    ensures var u := SendPendingAck(TryCompleteRxSlots(s, 0, now).0, now).0;
            QueueSame(s, u) && (OnTick(s, now) == u || OnTick(s, now) == TxTick(u, now))
  {
    hide Inv, TryCompleteRxSlots, SendPendingAck, TxTick, RxOk, TxInv, AcksOk;
    InvParts(s);
    TryCompleteAllKeeps(s, 0, now);
    var t := TryCompleteRxSlots(s, 0, now).0;
    assert AcksOk(t.acks) by { AcksPart(t); }
    SendPendingAckKeeps(t, now);
  }

  lemma AcksPart(s: Engine)
    requires RxOk(s)
    ensures AcksOk(s.acks)
  {
    hide AcksOk, RxPoolOk, IdsOk;
  }

  // ---- credits ----

  /** What the egress callback would answer, or what stands for it when there is none. */
  function EgressAnswer(s: Engine): byte {
    match s.callbacks.egress case None => ARQ_MAX_RX_DATAGRAMS case Some(f) => f(s.log)
  }

  lemma {:induction false} CountInactiveIs(rx: RxSlots, n: nat)
    requires n <= 4
    ensures CountInactive(rx, n) == |set i | 0 <= i < n && !rx[i].active|
  {
    if n > 0 {
      CountInactiveIs(rx, n - 1);
      var before, all := set i | 0 <= i < n - 1 && !rx[i].active, set i | 0 <= i < n && !rx[i].active;
      if rx[n - 1].active {
        assert all == before;
      } else {
        assert all == before + {n - 1};
      }
    }
  }

  /** The credits offered to the peer are the most that slots, buffers, egress and the limit of four
      all allow. */
  lemma CreditsAreTheMostAllowed(s: Engine)
    ensures var credits, slots := CurrentCredits(s).1, |set i | 0 <= i < 4 && !s.rx[i].active|;
            && credits <= slots && credits <= |s.rxPool.free| && credits <= EgressAnswer(s)
            && credits <= ARQ_MAX_OUTSTANDING
            && (credits == slots || credits == |s.rxPool.free| || credits == EgressAnswer(s)
                || credits == ARQ_MAX_OUTSTANDING)
  {
    CountInactiveIs(s.rx, 4);
    hide CountInactive;
  }

  /** An acknowledgement takes the place of a pending one for its id, else the end of the queue, else
      it is dropped because sixteen others are pending; the others keep their places. */
  lemma EnqueueAckExactly(s: Engine, ack: AckFrame, ready: uint32)
    requires AcksOk(s.acks)
    ensures var t := EnqueueAck(s, ack, ready).acks;
            && (forall j :: 0 <= j < |s.acks| && s.acks[j].ack.datagramId != ack.datagramId ==>
                  j < |t| && t[j] == s.acks[j])
            && (forall j :: 0 <= j < |t| && t[j].ack.datagramId == ack.datagramId ==> t[j] == PendingAck(ack, ready))
            && |t| - |s.acks| ==
               (if |s.acks| == ARQ_PENDING_ACK_CAPACITY || HasPending(s.acks, ack.datagramId) then 0 else 1)
            && (HasPending(t, ack.datagramId) <==>
                  |s.acks| < ARQ_PENDING_ACK_CAPACITY || HasPending(s.acks, ack.datagramId))
  {
    var k := PendingAckFor(s.acks, ack.datagramId, 0);
    var t := EnqueueAck(s, ack, ready).acks;
    if k < |s.acks| {
      assert t[k].ack.datagramId == ack.datagramId;
    } else if |s.acks| < ARQ_PENDING_ACK_CAPACITY {
      assert t[|s.acks|].ack.datagramId == ack.datagramId;
    }
  }

  predicate HasPending(acks: seq<PendingAck>, id: uint16) {
    exists j :: 0 <= j < |acks| && acks[j].ack.datagramId == id
  }
}
