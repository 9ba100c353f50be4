/** Bounded retries: how often a fragment can go on the air before its datagram is given up. */
module ArqRetries {
  import opened Words
  import opened FramingV3
  import opened FragmentV3
  import opened DatagramPool
  import opened ArqState
  import opened ArqInvariant
  import opened ArqSender
  import ArqLink
  import ArqRounds

  /** How many times the radio took fragment k of datagram id. */
  function Sends(log: Log, id: uint16, k: nat): nat {
    if |log| == 0 then 0 else Sends(log[..|log| - 1], id, k) + (if IsSend(log[|log| - 1], id, k) then 1 else 0)
  }

  predicate IsSend(e: Event, id: uint16, k: nat) {
    && e.Sent? && e.accepted && e.frame.DataFrame?
    && e.frame.header.datagramId == id && e.frame.header.fragmentIndex == k
  }

  /** How many credit withdrawals for datagram id were received. */
  function Withdrawals(log: Log, id: uint16): nat {
    if |log| == 0 then 0 else Withdrawals(log[..|log| - 1], id) + (if IsWithdrawal(log[|log| - 1], id) then 1 else 0)
  }

  predicate IsWithdrawal(e: Event, id: uint16) {
    e.AckSeen? && e.ack.datagramId == id && e.ack.failure == CREDIT_WITHDRAWAL
  }

  /** n times the rounds allowed without a credit withdrawal. */
  function Budget(c: Config, n: nat): nat {
    if n == 0 then 0 else Budget(c, n - 1) + MaxRounds(c)
  }

  predicate SlotInBudget(c: Config, slot: TxSlot, log: Log, k: nat) {
    Sends(log, slot.datagramId, k) + (if k in slot.round then 1 else 0)
    <= slot.attempts + Budget(c, Withdrawals(log, slot.datagramId))
  }

  ghost predicate SlotRetries(c: Config, slot: TxSlot, log: Log) {
    && (slot.state == QUEUED ==> forall k: nat :: Sends(log, slot.datagramId, k) == 0)
    && (slot.state == OPEN ==> forall k: nat :: SlotInBudget(c, slot, log, k))
  }

  ghost predicate SlotsRetry(c: Config, tx: TxSlots, log: Log) {
    && (forall i :: 0 <= i < 4 ==> SlotRetries(c, tx[i], log))
    && (forall i, j :: 0 <= i < j < 4 && tx[i].state != EMPTY && tx[j].state != EMPTY ==>
          tx[i].datagramId != tx[j].datagramId)
  }

  /** Datagram id has been submitted. */
  predicate Issued(first: uint16, n: nat, id: uint16) {
    Position(first, id) < n
  }

  ghost predicate IdsIssued(s: Engine) {
    && (forall i :: 0 <= i < 4 && s.tx[i].state != EMPTY ==>
          Issued(s.config.initialDatagramId, |s.submitted|, s.tx[i].datagramId))
    && (forall id: uint16, k: nat :: Sends(s.log, id, k) > 0 ==> Issued(s.config.initialDatagramId, |s.submitted|, id))
  }

  ghost predicate AllInBudget(c: Config, log: Log) {
    forall id: uint16, k: nat :: Sends(log, id, k) <= Budget(c, 1 + Withdrawals(log, id))
  }

  ghost predicate RetryInv(s: Engine) {
    SlotsRetry(s.config, s.tx, s.log) && IdsIssued(s) && AllInBudget(s.config, s.log)
  }

  lemma LogAppend(log: Log, e: Event, id: uint16, k: nat)
    ensures Sends(log + [e], id, k) == Sends(log, id, k) + (if IsSend(e, id, k) then 1 else 0)
    ensures Withdrawals(log + [e], id) == Withdrawals(log, id) + (if IsWithdrawal(e, id) then 1 else 0)
  {
    assert (log + [e])[..|log|] == log;
  }

  lemma BudgetStep(c: Config, n: nat)
    ensures Budget(c, n + 1) == Budget(c, n) + MaxRounds(c)
  {}

  /** An event that is neither an accepted fragment nor a withdrawal. */
  predicate Neutral(e: Event) {
    !(e.Sent? && e.accepted && e.frame.DataFrame?) && !(e.AckSeen? && e.ack.failure == CREDIT_WITHDRAWAL)
  }

  ghost predicate SameCounts(a: Log, b: Log) {
    && (forall id: uint16, k: nat :: Sends(b, id, k) == Sends(a, id, k))
    && (forall id: uint16 :: Withdrawals(b, id) == Withdrawals(a, id))
  }

  lemma NeutralCounts(log: Log, e: Event)
    requires Neutral(e)
    ensures SameCounts(log, log + [e])
  {
    hide Sends, Withdrawals;
    forall id: uint16, k: nat ensures Sends(log + [e], id, k) == Sends(log, id, k) {
      LogAppend(log, e, id, k);
    }
    forall id: uint16 ensures Withdrawals(log + [e], id) == Withdrawals(log, id) {
      LogAppend(log, e, id, 0);
    }
  }

  lemma {:induction false} RxCounts(a: Log, b: Log)
    requires Grew(a, b, true)
    ensures SameCounts(a, b)
    decreases |b|
  {
    if |a| < |b| {
      var c := b[..|b| - 1];
      assert IsRxEvent(b[|b| - 1]);
      assert forall k :: |a| <= k < |c| ==> c[k] == b[k];
      assert c[..|a|] == b[..|a|] == a;
      RxCounts(a, c);
      assert b == c + [b[|b| - 1]];
      NeutralCounts(c, b[|b| - 1]);
      hide Sends, Withdrawals;
    } else {
      assert a == b;
    }
  }

  /** Slots the same, or emptied, or less left to send. */
  predicate NoMoreToSend(a: TxSlot, b: TxSlot) {
    || b.state == EMPTY
    || (b.state == a.state && b.datagramId == a.datagramId && b.round <= a.round && b.attempts == a.attempts)
  }

  lemma SlotRetriesLess(c: Config, a: TxSlot, b: TxSlot, log: Log, more: Log)
    requires SlotRetries(c, a, log) && NoMoreToSend(a, b) && SameCounts(log, more)
    ensures SlotRetries(c, b, more)
  {
    hide Sends, Withdrawals, Budget;
    forall k: nat | b.state == OPEN ensures SlotInBudget(c, b, more, k) {
      assert SlotInBudget(c, a, log, k);
    }
  }

  lemma LessKeeps(s: Engine, t: Engine)
    requires RetryInv(s) && t.config == s.config && t.submitted == s.submitted && SameCounts(s.log, t.log)
    requires forall i :: 0 <= i < 4 ==> NoMoreToSend(s.tx[i], t.tx[i])
    ensures RetryInv(t)
  {
    hide Sends, Withdrawals, Budget, Issued, SlotRetries;
    forall i | 0 <= i < 4 ensures SlotRetries(t.config, t.tx[i], t.log) {
      SlotRetriesLess(s.config, s.tx[i], t.tx[i], s.log, t.log);
    }
  }

  // ---- a fragment goes out ----

  lemma SentCounts(log: Log, f: Frame)
    requires f.DataFrame?
    ensures forall id: uint16, k: nat :: Sends(log + [Sent(f, true)], id, k) ==
              Sends(log, id, k) + (if f.header.datagramId == id && f.header.fragmentIndex == k then 1 else 0)
    ensures forall id: uint16 :: Withdrawals(log + [Sent(f, true)], id) == Withdrawals(log, id)
  {
    hide Sends, Withdrawals;
    forall id: uint16, k: nat ensures Sends(log + [Sent(f, true)], id, k) ==
              Sends(log, id, k) + (if f.header.datagramId == id && f.header.fragmentIndex == k then 1 else 0)
    {
      LogAppend(log, Sent(f, true), id, k);
    }
    forall id: uint16 ensures Withdrawals(log + [Sent(f, true)], id) == Withdrawals(log, id) {
      LogAppend(log, Sent(f, true), id, 0);
    }
  }

  /** Sending fragment k of slot i moves one unit from the round to the count. */
  lemma SendSlots(c: Config, tx: TxSlots, log: Log, i: nat, slot: TxSlot, f: Frame)
    requires SlotsRetry(c, tx, log) && i < 4 && tx[i].state == OPEN && slot.state == OPEN
    requires f.DataFrame? && f.header.datagramId == tx[i].datagramId && f.header.fragmentIndex in tx[i].round
    requires slot.datagramId == tx[i].datagramId && slot.attempts == tx[i].attempts
    requires slot.round == tx[i].round - {f.header.fragmentIndex}
    ensures SlotsRetry(c, tx[i := slot], log + [Sent(f, true)])
  {
    SentCounts(log, f);
    var more, tx' := log + [Sent(f, true)], tx[i := slot];
    hide Sends, Withdrawals, Budget;
    forall j | 0 <= j < 4 ensures SlotRetries(c, tx'[j], more) {
      assert SlotRetries(c, tx[j], log);
      forall k: nat | tx'[j].state == OPEN ensures SlotInBudget(c, tx'[j], more, k) {
        assert SlotInBudget(c, tx[j], log, k);
      }
    }
  }

  lemma SendWithinAll(c: Config, slot: TxSlot, log: Log, f: Frame)
    requires AllInBudget(c, log) && SlotRetries(c, slot, log) && slot.state == OPEN && slot.attempts <= MaxRounds(c)
    requires f.DataFrame? && f.header.datagramId == slot.datagramId && f.header.fragmentIndex in slot.round
    ensures AllInBudget(c, log + [Sent(f, true)])
  {
    SentCounts(log, f);
    BudgetStep(c, Withdrawals(log, slot.datagramId));
    hide Sends, Withdrawals, Budget;
    assert SlotInBudget(c, slot, log, f.header.fragmentIndex);
  }

  lemma SendKeepsRetry(s: Engine, i: nat, slot: TxSlot, f: Frame)
    requires RetryInv(s) && TxInv(s) && i < 4 && s.tx[i].state == OPEN && slot.state == OPEN
    requires f.DataFrame? && f.header.datagramId == s.tx[i].datagramId && f.header.fragmentIndex in s.tx[i].round
    requires slot.datagramId == s.tx[i].datagramId && slot.attempts == s.tx[i].attempts
    requires slot.round == s.tx[i].round - {f.header.fragmentIndex}
    ensures RetryInv(SetTx(Note(s, Sent(f, true)), i, slot))
  {
    ArqRounds.InvSlotOk(s, i);
    hide TxInv;
    SendSlots(s.config, s.tx, s.log, i, slot, f);
    SendWithinAll(s.config, s.tx[i], s.log, f);
    SentCounts(s.log, f);
    hide Sends, Withdrawals, Budget, Issued, SlotRetries, AllInBudget;
  }

  lemma SendNextKeepsRetry(s: Engine, i: nat, now: uint32)
    requires RetryInv(s) && TxInv(s) && i < 4 && s.tx[i].state == OPEN
    requires s.tx[i].nextFragment < s.tx[i].fragmentCount ==> s.tx[i].nextFragment in s.tx[i].round
    ensures RetryInv(SendNext(s, i, now).0)
  {
    hide RetryInv, TxInv, FragmentFrame, Encode, Decode, SendNext;
    var k := s.tx[i].nextFragment;
    if k < s.tx[i].fragmentCount {
      ArqRounds.EveryFragmentBuilds(s, i, k);
      var f := FragmentFrame(s, i, k).value;
      SendNextOutcomes(s, i, now, f);
      SendKeepsRetry(s, i, AfterFragment(s.tx[i], k, RetryDeadline(s, now)), f);
      NeutralCounts(s.log, Sent(f, false));
      LessKeeps(s, Note(s, Sent(f, false)));
    } else {
      SendNextIdle(s, i, now);
    }
  }

  lemma SendNextIdle(s: Engine, i: nat, now: uint32)
    requires i < 4 && s.tx[i].nextFragment >= s.tx[i].fragmentCount
    ensures SendNext(s, i, now) == (s, false)
  {
    hide SendDataFragment;
  }

  lemma SendNextOutcomes(s: Engine, i: nat, now: uint32, f: Frame)
    requires i < 4 && s.tx[i].nextFragment < s.tx[i].fragmentCount
    requires FragmentFrame(s, i, s.tx[i].nextFragment) == Some(f)
    ensures var t := SendNext(s, i, now).0;
            || t == s || t == Note(s, Sent(f, false))
            || t == SetTx(Note(s, Sent(f, true)), i, AfterFragment(s.tx[i], s.tx[i].nextFragment, RetryDeadline(s, now)))
  {
    hide FragmentFrame, Encode, AfterFragment;
  }

  // ---- rounds begin ----

  /** Another round costs one attempt, and puts at most one more send of each fragment in sight. */
  lemma NewRoundKeepsRetry(s: Engine, i: nat, slot: TxSlot)
    requires RetryInv(s) && i < 4 && s.tx[i].state == OPEN && s.tx[i].round == {}
    requires slot.state == OPEN && slot.datagramId == s.tx[i].datagramId && slot.attempts == s.tx[i].attempts + 1
    ensures RetryInv(SetTx(s, i, slot))
  {
    hide Sends, Withdrawals, Budget, Issued, AllInBudget;
    var t := SetTx(s, i, slot);
    forall j | 0 <= j < 4 ensures SlotRetries(t.config, t.tx[j], t.log) {
      assert SlotRetries(s.config, s.tx[j], s.log);
      forall k: nat | t.tx[j].state == OPEN ensures SlotInBudget(t.config, t.tx[j], t.log, k) {
        assert SlotInBudget(s.config, s.tx[j], s.log, k);
      }
    }
  }

  lemma OpeningKeepsRetry(s: Engine, i: nat, now: uint32)
    requires RetryInv(s) && i < 4 && s.tx[i].state == QUEUED
    ensures RetryInv(OpenSlot(s, i, now))
  {
    var t, e := OpenSlot(s, i, now), Opened(s.tx[i].datagramId, s.credits == 0);
    NeutralCounts(s.log, e);
    assert t.log == s.log + [e];
    hide Sends, Withdrawals, Budget, Issued, FullBitmap, Wrap32;
    forall j | 0 <= j < 4 ensures SlotRetries(t.config, t.tx[j], t.log) {
      assert SlotRetries(s.config, s.tx[j], s.log);
      if j != i {
        SlotRetriesLess(s.config, s.tx[j], t.tx[j], s.log, t.log);
      }
    }
  }

  // ---- transmit ticks ----

  lemma {:induction false} RetransmitKeepsRetry(s: Engine, i: nat, now: uint32)
    requires i <= 4 && TxInv(s) && RetryInv(s)
    ensures RetryInv(TrySendRetransmit(s, i, now).0)
    decreases 4 - i
  {
    hide TxInv, RetryInv, TxSlotOk, SendNext, NewRound, FailTxSlot, RxSame, Reached;
    if i < 4 {
      if !RetransmitDue(s, i, now) {
        RetransmitKeepsRetry(s, i + 1, now);
      } else if s.tx[i].attempts >= s.config.maxAttempts {
        RetiringKeepsRetry(s, i, Exhausted(s.tx[i].datagramId));
        FailIs(s, i);
      } else {
        TxInvSlot(s, i);
        NewRoundOk(s.config, s.tx[i]);
        NewRoundFields(s.tx[i]);
        ProgressKeeps(s, i, NewRound(s.tx[i]));
        NewRoundKeepsRetry(s, i, NewRound(s.tx[i]));
        var u := SetTx(s, i, NewRound(s.tx[i]));
        assert u.tx[i] == NewRound(s.tx[i]);
        SendNextKeeps(u, i, now);
        SendNextKeepsRetry(u, i, now);
        var (t, sent) := SendNext(u, i, now);
        if !sent {
          RetransmitKeepsRetry(t, i + 1, now);
        }
      }
    }
  }

  lemma NewRoundFields(slot: TxSlot)
    requires slot.attempts < 0xFF
    ensures NewRound(slot).datagramId == slot.datagramId && NewRound(slot).attempts == slot.attempts + 1
  {}

  lemma FailIs(s: Engine, i: nat)
    requires i < 4
    ensures FailTxSlot(s, i) == ClearTxSlot(Note(s, Exhausted(s.tx[i].datagramId)), i)
  {}

  /** A slot that is given up or completed has no more claims. */
  lemma RetiringKeepsRetry(s: Engine, i: nat, e: Event)
    requires i < 4 && RetryInv(s) && (e.Exhausted? || e.Completed?)
    ensures RetryInv(ClearTxSlot(Note(s, e), i))
  {
    NeutralCounts(s.log, e);
    hide RetryInv, SameCounts, Release;
    LessKeeps(s, ClearTxSlot(Note(s, e), i));
  }

  lemma {:induction false} OpenDataKeepsRetry(s: Engine, i: nat, now: uint32)
    requires i <= 4 && TxInv(s) && RetryInv(s)
    ensures RetryInv(TrySendOpenData(s, i, now).0)
    decreases 4 - i
  {
    hide TxInv, RetryInv, TxSlotOk, SendNext, RxSame, Scan, SameCounts;
    if i < 4 {
      if s.tx[i].state != OPEN || s.tx[i].round == {} {
        OpenDataKeepsRetry(s, i + 1, now);
      } else {
        TxInvSlot(s, i);
        ScannedOk(s.config, s.tx[i]);
        var slot := s.tx[i].(nextFragment := Scan(s.tx[i], s.tx[i].nextFragment));
        var u := SetTx(s, i, slot);
        ProgressKeeps(s, i, slot);
        SameCountsRefl(s.log);
        LessKeeps(s, u);
        SendNextKeeps(u, i, now);
        SendNextKeepsRetry(u, i, now);
        var (t, sent) := SendNext(u, i, now);
        if !sent {
          OpenDataKeepsRetry(t, i + 1, now);
        }
      }
    }
  }

  lemma SameCountsRefl(log: Log)
    ensures SameCounts(log, log)
  {}

  lemma OpenNextKeepsRetry(s: Engine, now: uint32)
    requires TxInv(s) && RetryInv(s) && ActiveCount(s) == 0
    ensures RetryInv(OpenNext(s, now).0)
  {
    hide TxInv, RetryInv, OpenSlot, TrySendOpenData, RxSame;
    var i := FirstTx(s.tx, QUEUED, 0);
    if i < 4 {
      OpenSlotKeeps(s, i, now);
      OpeningKeepsRetry(s, i, now);
      OpenDataKeepsRetry(OpenSlot(s, i, now), 0, now);
    }
  }

  lemma OpenQueuedKeepsRetry(s: Engine, now: uint32)
    requires TxInv(s) && RetryInv(s)
    ensures RetryInv(TryOpenQueued(s, now).0)
  {
    hide TxInv, RetryInv, OpenNext, CountTx, Reached, SameCounts, RxSame;
    var t := TryOpenQueued(s, now).0;
    SameCountsRefl(s.log);
    var v := s.(probeArmed := false);
    ProbeKeeps(s, v);
    LessKeeps(s, v);
    if ActiveCount(s) == 0 {
      OpenNextKeepsRetry(v, now);
    }
    if t.log == s.log && t.tx == s.tx {
      LessKeeps(s, s.(probeArmed := true, probeDeadline := Wrap32(now + s.config.creditStallTimeout)));
    }
  }

  lemma TickKeepsRetry(s: Engine, now: uint32)
    requires TxInv(s) && RetryInv(s)
    ensures RetryInv(TxTick(s, now))
  {
    hide TxInv, RetryInv, TrySendRetransmit, TrySendOpenData, TryOpenQueued, RxSame;
    TrySendRetransmitKeeps(s, 0, now);
    RetransmitKeepsRetry(s, 0, now);
    var (t, _) := TrySendRetransmit(s, 0, now);
    TrySendOpenDataKeeps(t, 0, now);
    OpenDataKeepsRetry(t, 0, now);
    var (u, _) := TrySendOpenData(t, 0, now);
    OpenQueuedKeepsRetry(u, now);
  }

  // ---- acknowledgements, submissions, the receive half ----

  lemma WithdrawalCounts(log: Log, ack: AckFrame)
    requires ack.failure == CREDIT_WITHDRAWAL
    ensures forall id: uint16, k: nat :: Sends(log + [AckSeen(ack)], id, k) == Sends(log, id, k)
    ensures forall id: uint16 :: Withdrawals(log + [AckSeen(ack)], id) ==
              Withdrawals(log, id) + (if id == ack.datagramId then 1 else 0)
  {
    hide Sends, Withdrawals;
    forall id: uint16, k: nat ensures Sends(log + [AckSeen(ack)], id, k) == Sends(log, id, k) {
      LogAppend(log, AckSeen(ack), id, k);
    }
    forall id: uint16 ensures Withdrawals(log + [AckSeen(ack)], id) ==
              Withdrawals(log, id) + (if id == ack.datagramId then 1 else 0)
    {
      LogAppend(log, AckSeen(ack), id, 0);
    }
  }

  /** A credit withdrawal starts a fresh budget for the datagram it names, and only for that one. */
  lemma WithdrawalKeepsRetry(s: Engine, t: Engine, ack: AckFrame)
    requires RetryInv(s) && ack.failure == CREDIT_WITHDRAWAL && t.config == s.config && t.submitted == s.submitted
    requires t.log == s.log + [AckSeen(ack)]
    requires forall i :: 0 <= i < 4 ==> t.tx[i].state == s.tx[i].state && t.tx[i].datagramId == s.tx[i].datagramId
    requires forall i :: 0 <= i < 4 ==>
               t.tx[i] == s.tx[i] || (s.tx[i].datagramId == ack.datagramId && t.tx[i].round == {})
    ensures RetryInv(t)
    ensures forall id: uint16 ::
              Budget(t.config, 1 + Withdrawals(t.log, id))
              == Budget(s.config, 1 + Withdrawals(s.log, id))
                 + (if id == ack.datagramId then MaxRounds(s.config) else 0)
  {
    WithdrawalCounts(s.log, ack);
    BudgetStep(s.config, Withdrawals(s.log, ack.datagramId));
    BudgetStep(s.config, 1 + Withdrawals(s.log, ack.datagramId));
    hide Sends, Withdrawals, Budget, Issued;
    forall j | 0 <= j < 4 ensures SlotRetries(t.config, t.tx[j], t.log) {
      assert SlotRetries(s.config, s.tx[j], s.log);
      forall k: nat | t.tx[j].state == OPEN ensures SlotInBudget(t.config, t.tx[j], t.log, k) {
        assert SlotInBudget(s.config, s.tx[j], s.log, k);
        assert Sends(s.log, t.tx[j].datagramId, k) <= Budget(s.config, 1 + Withdrawals(s.log, t.tx[j].datagramId));
      }
    }
    forall id: uint16, k: nat ensures Sends(t.log, id, k) <= Budget(t.config, 1 + Withdrawals(t.log, id)) {
      assert Sends(s.log, id, k) <= Budget(s.config, 1 + Withdrawals(s.log, id));
    }
  }

  lemma AckKeepsRetry(s: Engine, ack: AckFrame, now: uint32)
    requires RetryInv(s)
    ensures RetryInv(HandleAck(s, ack, now))
  {
    var t := NoteAck(s, ack);
    var i := OpenSlotFor(t.tx, ack.datagramId, 0);
    hide RetryInv, ClampCredits, Wrap32, FullBitmap, ClearTxSlot;
    if ack.failure == CREDIT_WITHDRAWAL {
      WithdrawalKeepsRetry(s, HandleAck(s, ack, now), ack);
    } else {
      NeutralCounts(s.log, AckSeen(ack));
      hide SameCounts;
      LessKeeps(s, t);
      if i < 4 {
        var u := SetTx(t, i, t.tx[i].(acked := t.tx[i].acked + ack.fragmentBitmap));
        SameCountsRefl(t.log);
        LessKeeps(t, u);
        RetiringKeepsRetry(u, i, Completed(u.tx[i].datagramId));
      }
    }
  }

  lemma PlaceKeepsRetry(s: Engine, i: nat, pool: Pool, h: nat, d: Bytes)
    requires RetryInv(s) && LedgerOk(s) && i < 4 && |d| <= V3_MAX_DATAGRAM && |s.submitted| < 0x1_0000
    ensures RetryInv(Place(s, i, pool, h, d))
  {
    var t := Place(s, i, pool, h, d);
    NeutralCounts(s.log, Submitted(s.nextId, d));
    NewIdUnissued(s);
    hide Sends, Withdrawals, Budget, WriteBuffer, Filled, Position, LedgerOk, ExpectedFragmentCount;
    forall j | 0 <= j < 4 ensures SlotRetries(t.config, t.tx[j], t.log) {
      if j != i {
        SlotRetriesLess(s.config, s.tx[j], t.tx[j], s.log, t.log);
      }
    }
  }

  lemma NewIdUnissued(s: Engine)
    requires LedgerOk(s) && |s.submitted| < 0x1_0000
    ensures Position(s.config.initialDatagramId, s.nextId) == |s.submitted|
  {
    PositionOf(s.config.initialDatagramId, |s.submitted|, s.nextId);
    hide Position, InUse, Ledger, Finished;
  }

  lemma SubmitKeepsRetry(s: Engine, data: Option<Bytes>)
    requires RetryInv(s) && TxInv(s) && |Submit(s, data).0.submitted| <= 0x1_0000
    ensures RetryInv(Submit(s, data).0)
  {
    SubmitKeeps(s, data);
    InvLedger(s);
    var i := FirstTx(s.tx, EMPTY, 0);
    if Submit(s, data).1 == ARQ_OK {
      var (pool, handle) := Acquire(s.txPool);
      hide RetryInv, TxInv, Acquire, Place;
      PlaceKeepsRetry(s, i, pool, handle.value, data.value);
    }
    hide RetryInv, TxInv, Acquire, Place;
  }

  lemma RxKeepsRetry(s: Engine, t: Engine)
    requires RetryInv(s) && TxSame(s, t)
    ensures RetryInv(t)
  {
    RxCounts(s.log, t.log);
    hide RetryInv, SameCounts, Grew;
    LessKeeps(s, t);
  }

  lemma FrameKeepsRetry(s: Engine, f: Frame, now: uint32)
    requires Inv(s) && RetryInv(s) && Buildable(f)
    ensures RetryInv(OnFrame(s, f, now))
  {
    hide Inv, RetryInv, HandleData, HandleAck, RxOk, TxInv, ValidateDataHeader, TxSame;
    InvParts(s);
    match f
    case DataFrame(h, payload) =>
      HandleDataKeeps(s, h, payload, now);
      RxKeepsRetry(s, HandleData(s, h, payload, now));
    case Ack(ack) => AckKeepsRetry(s, ack, now);
    case ControlFrame(_) =>
    case MgmtFrame(_) =>
  }

  lemma ApplyKeepsRetry(s: Engine, input: Input)
    requires Inv(s) && RetryInv(s) && |Apply(s, input).submitted| <= 0x1_0000
    ensures RetryInv(Apply(s, input))
  {
    hide Inv, RetryInv, OnTick, OnFrame, Decode, Buildable, SendPendingAck, Submit, TxSame, RxSame, TxInv, RxOk;
    hide TryCompleteRxSlots, TxTick;
    InvParts(s);
    match input
    case SubmitInput(data) => SubmitKeepsRetry(s, data);
    case PacketInput(packet, now) =>
      if Decode(packet).Success? {
        DecodedIsBuildable(packet);
        FrameKeepsRetry(s, Decode(packet).value, now);
      }
    case TickInput(now) =>
      ArqLink.TickHalves(s, now);
      var u := SendPendingAck(TryCompleteRxSlots(s, 0, now).0, now).0;
      RxKeepsRetry(s, u);
      InvParts(u);
      TickKeepsRetry(u, now);
    case FlushInput(now) =>
      ArqLink.FlushSame(s, now);
      RxKeepsRetry(s, SendPendingAck(s, now).0);
  }

  lemma FreshRetry(s: Engine)
    requires s.log == [] && forall i :: 0 <= i < 4 ==> s.tx[i].state == EMPTY
    ensures RetryInv(s)
  {
    forall id: uint16, k: nat ensures Sends(s.log, id, k) == 0 {}
    hide Sends, Withdrawals, Budget, Issued;
  }

  lemma ResetShape(s: Engine)
    requires IsReset(s)
    ensures s.log == [] && forall i :: 0 <= i < 4 ==> s.tx[i].state == EMPTY
  {
    hide FreshPool, ClampCredits;
  }

  lemma {:induction false} RetryAt(states: seq<Engine>, inputs: seq<Input>, k: nat)
    requires Trace(states, inputs) && k <= |inputs| && Inv(states[0]) && RetryInv(states[0])
    requires |states[k].submitted| <= 0x1_0000
    ensures RetryInv(states[k])
  {
    hide RetryInv, Inv, Apply;
    if k > 0 {
      InvAt(states, inputs, k - 1);
      assert StepAt(states, inputs, k - 1);
      ArqLink.ApplyGrows(states[k - 1], inputs[k - 1]);
      RetryAt(states, inputs, k - 1);
      ApplyKeepsRetry(states[k - 1], inputs[k - 1]);
    }
  }

  lemma ReachableRetry(s: Engine)
    requires Reachable(s) && |s.submitted| <= 0x1_0000
    ensures RetryInv(s)
  {
    hide RetryInv, Inv, StepAt, IsReset, Reachable;
    var states, inputs := ReachableTrace(s);
    IsResetInv(states[0]);
    ResetShape(states[0]);
    FreshRetry(states[0]);
    RetryAt(states, inputs, |inputs|);
  }

  lemma {:induction false} BudgetIsProduct(c: Config, n: nat)
    ensures Budget(c, n) == n * MaxRounds(c)
  {
    if n > 0 {
      BudgetIsProduct(c, n - 1);
    }
  }

  /** Bounded retries: in every reachable state with no id used twice, whatever arrived and whatever
      the radio answered, no fragment of a datagram was sent more often than the configured number of
      attempts times one more than the credit withdrawals received for it; a limit of 0 acts as 1. */
  lemma RetriesAreBounded(s: Engine, id: uint16, k: nat)
    requires Reachable(s) && |s.submitted| <= 0x1_0000
    ensures Sends(s.log, id, k) <= (1 + Withdrawals(s.log, id)) * MaxRounds(s.config)
  {
    hide *;
    ReachableRetry(s);
    WithinBudget(s, id, k);
    BudgetIsProduct(s.config, 1 + Withdrawals(s.log, id));
  }

  lemma WithinBudget(s: Engine, id: uint16, k: nat)
    requires RetryInv(s)
    ensures Sends(s.log, id, k) <= Budget(s.config, 1 + Withdrawals(s.log, id))
  {
    hide Sends, Withdrawals, Budget, SlotsRetry, IdsIssued;
  }
}
