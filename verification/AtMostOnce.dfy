/** At most once within the window: the duplicate window is a function of the ids delivered so far,
    and no id it still remembers is ever delivered again. */
module AtMostOnce {
  import opened Words
  import opened FramingV3
  import opened FragmentV3
  import opened DatagramPool
  import opened DuplicateWindow
  import opened ArqState
  import opened ArqInvariant

  /** What the window amounts to: the newest id and the set of ids remembered. */
  datatype Memory = Memory(any: bool, newest: uint16, live: set<uint16>)

  /** The 64 ids up to the newest. */
  function WindowIds(newest: uint16): set<uint16> {
    set a | 0 <= a < DUPLICATE_WINDOW_CAPACITY :: Behind(newest, a)
  }

  function Behind(newest: uint16, a: nat): uint16 {
    (newest - a) % 0x1_0000
  }

  function MemoryOf(w: Window): Memory {
    Memory(w.hasNewest, w.newestId, set i | 0 <= i < |w.entries| && w.entries[i].valid :: w.entries[i].datagramId)
  }

  /** A delivery is remembered unless its id lies behind the window; whatever is more than 63 behind
      the newest id is forgotten. A delivery behind the window costs a full window its last id. */
  function Remember(m: Memory, id: uint16): Memory {
    var newest := if !m.any || SerialAfter(id, m.newest) then id else m.newest;
    if SerialWithinWindow(newest, id)
    then Memory(true, newest, set x | x in m.live + {id} && SerialWithinWindow(newest, x))
    else if m.live == WindowIds(newest) then m.(live := m.live - {Behind(newest, DUPLICATE_WINDOW_CAPACITY - 1)})
    else m
  }

  lemma KnownIsLive(w: Window, x: uint16)
    ensures x in MemoryOf(w).live <==> Find(w, x).Some?
  {
    FindNone(w, x);
  }

  lemma BehindAge(newest: uint16, a: nat, x: uint16)
    requires a < DUPLICATE_WINDOW_CAPACITY
    ensures x == Behind(newest, a) <==> Age(newest, x) == a
    ensures SerialWithinWindow(newest, Behind(newest, a))
  {}

  /** The window is full exactly when all of the 64 ids up to the newest are remembered. */
  lemma FullExactly(w: Window)
    requires WindowOk(w) && w.hasNewest
    ensures FullWindow(w) <==> MemoryOf(w).live == WindowIds(w.newestId)
  {
    if FullWindow(w) {
      FullRemembersAll(w);
    } else if MemoryOf(w).live == WindowIds(w.newestId) {
      AllRememberedIsFull(w);
    }
  }

  lemma FullRemembersAll(w: Window)
    requires WindowOk(w) && w.hasNewest && FullWindow(w)
    ensures MemoryOf(w).live == WindowIds(w.newestId)
  {
    hide Age, SerialWithinWindow, Find, Behind;
    forall x | x in WindowIds(w.newestId) ensures x in MemoryOf(w).live {
      var a :| 0 <= a < DUPLICATE_WINDOW_CAPACITY && x == Behind(w.newestId, a);
      BehindAge(w.newestId, a, x);
      KnownIsLive(w, x);
      if Find(w, x).None? {
        RoomInsideWindow(w, x);
      }
    }
    forall x | x in MemoryOf(w).live ensures x in WindowIds(w.newestId) {
      assert SerialWithinWindow(w.newestId, x);
      AgeWithin(w.newestId, x);
      BehindAge(w.newestId, Age(w.newestId, x), x);
    }
  }

  function Slots(w: Window, n: nat): (s: seq<nat>)
    requires n <= DUPLICATE_WINDOW_CAPACITY
    ensures |s| == n
    ensures forall a :: 0 <= a < n ==> s[a] == IndexOf(w.entries, Behind(w.newestId, a), 0)
  {
    seq(n, a requires 0 <= a < n => IndexOf(w.entries, Behind(w.newestId, a), 0))
  }

  lemma AllRememberedIsFull(w: Window)
    requires WindowOk(w) && w.hasNewest && MemoryOf(w).live == WindowIds(w.newestId)
    ensures FullWindow(w)
  {
    hide Behind, WindowOk;
    var s := Slots(w, DUPLICATE_WINDOW_CAPACITY);
    forall a | 0 <= a < DUPLICATE_WINDOW_CAPACITY
      ensures s[a] < 64 && w.entries[s[a]].datagramId == Behind(w.newestId, a)
    {
      assert Behind(w.newestId, a) in WindowIds(w.newestId);
      KnownIsLive(w, Behind(w.newestId, a));
    }
    forall a, b | 0 <= a < b < DUPLICATE_WINDOW_CAPACITY ensures s[a] != s[b] {
      BehindAge(w.newestId, a, Behind(w.newestId, a));
      BehindAge(w.newestId, b, Behind(w.newestId, a));
      hide Age;
    }
    forall k | 0 <= k < |w.entries| ensures w.entries[k].valid {
      if !w.entries[k].valid {
        hide MemoryOf, Slots;
        assert forall a :: 0 <= a < |s| ==> w.entries[s[a]].valid;
        Pigeonhole(s + [k], DUPLICATE_WINDOW_CAPACITY);
      }
    }
  }

  lemma StoreRemembers(w: Window, id: uint16, ack: AckState)
    requires WindowOk(w)
    ensures WindowOk(Store(w, id, ack))
    ensures MemoryOf(Store(w, id, ack)) == Remember(MemoryOf(w), id)
  {
    var t := Store(w, id, ack);
    hide Store, Find, WindowOk, SerialAfter, SerialWithinWindow, Age, FullWindow, WindowIds, Behind, MemoryOf;
    StoreRefinesMap(w, id, ack, id);
    MemoryFields(w);
    MemoryFields(t);
    var m := Remember(MemoryOf(w), id);
    if !NotBehind(w, id) {
      SelfWithin(id);
      FullExactly(w);
    }
    forall x: uint16 ensures x in MemoryOf(t).live <==> x in m.live {
      StoreRefinesMap(w, id, ack, x);
      KnownIsLive(t, x);
      KnownIsLive(w, x);
      BehindAge(w.newestId, DUPLICATE_WINDOW_CAPACITY - 1, x);
    }
    assert MemoryOf(t).live == m.live;
  }

  lemma MemoryFields(w: Window)
    ensures MemoryOf(w).any == w.hasNewest && MemoryOf(w).newest == w.newestId
  {}

  // ---- histories of deliveries ----

  function MemoryAfter(ids: seq<uint16>): Memory {
    if |ids| == 0 then Memory(false, 0, {}) else Remember(MemoryAfter(ids[..|ids| - 1]), ids[|ids| - 1])
  }

  predicate OnceInMemory(ids: seq<uint16>) {
    forall n :: 0 <= n < |ids| ==> FreshAt(ids, n)
  }

  predicate FreshAt(ids: seq<uint16>, n: nat)
    requires n < |ids|
  {
    ids[n] !in MemoryAfter(ids[..n]).live
  }

  /** The ids whose datagrams the egress took, in order. */
  function AcceptedIds(log: Log): seq<uint16> {
    if |log| == 0 then [] else AcceptedIds(log[..|log| - 1]) + AcceptedId(log[|log| - 1])
  }

  function AcceptedId(e: Event): seq<uint16> {
    if e.Delivered? && e.accepted then [e.id] else []
  }

  predicate MemoryInv(s: Engine) {
    MemoryOf(s.window) == MemoryAfter(AcceptedIds(s.log)) && OnceInMemory(AcceptedIds(s.log))
  }

  lemma OnceAppend(ids: seq<uint16>, id: uint16)
    requires OnceInMemory(ids) && id !in MemoryAfter(ids).live
    ensures OnceInMemory(ids + [id]) && MemoryAfter(ids + [id]) == Remember(MemoryAfter(ids), id)
  {
    hide MemoryAfter, Remember;
    var more := ids + [id];
    assert more[..|ids|] == ids;
    forall n | 0 <= n < |more| ensures FreshAt(more, n) {
      if n < |ids| {
        assert more[..n] == ids[..n] && FreshAt(ids, n);
      }
    }
    LastRemembered(more);
  }

  lemma LastRemembered(ids: seq<uint16>)
    requires |ids| > 0
    ensures MemoryAfter(ids) == Remember(MemoryAfter(ids[..|ids| - 1]), ids[|ids| - 1])
  {}

  lemma AcceptedAppend(log: Log, e: Event)
    ensures AcceptedIds(log + [e]) == AcceptedIds(log) + AcceptedId(e)
  {
    assert (log + [e])[..|log|] == log;
  }

  lemma {:induction false} TxAcceptsNothing(a: Log, b: Log)
    requires Grew(a, b, false)
    ensures AcceptedIds(b) == AcceptedIds(a)
    decreases |b|
  {
    if |a| < |b| {
      var c := b[..|b| - 1];
      assert !IsRxEvent(b[|b| - 1]);
      assert forall k :: |a| <= k < |c| ==> c[k] == b[k];
      assert c[..|a|] == b[..|a|] == a;
      TxAcceptsNothing(a, c);
    } else {
      assert a == b;
    }
  }

  // ---- the engine's steps ----

  /** Neither the window nor the deliveries moved. */
  ghost predicate Quiet(s: Engine, t: Engine) {
    t.window == s.window && AcceptedIds(t.log) == AcceptedIds(s.log)
  }

  lemma AskAcceptsNothing(s: Engine, default: byte)
    ensures Quiet(s, AskEgress(s, default).0)
  {
    match s.callbacks.egress
    case None =>
    case Some(f) => AcceptedAppend(s.log, EgressAsked(f(s.log)));
  }

  lemma CreditsQuiet(s: Engine)
    ensures Quiet(s, CurrentCredits(s).0)
  {
    AskAcceptsNothing(s, ARQ_MAX_RX_DATAGRAMS);
    hide AcceptedIds;
  }

  lemma SendingQuiet(s: Engine, now: uint32)
    ensures Quiet(s, SendPendingAck(s, now).0)
  {
    var t := SendPendingAck(s, now).0;
    if t != s {
      AcceptedAppend(s.log, t.log[|s.log|]);
    }
    hide AcceptedIds, Encode;
  }

  lemma QueueQuiet(s: Engine, i: nat, failure: FailureStatus, now: uint32)
    requires i < 4
    ensures Quiet(s, QueueRxAck(s, i, failure, now))
  {
    CreditsQuiet(s);
    hide AcceptedIds, CurrentCredits;
  }

  lemma RefusalQuiet(s: Engine, id: uint16, bitmap: Bitmap, failure: FailureStatus, now: uint32)
    ensures Quiet(s, QueueFailureAck(s, id, bitmap, failure, now))
  {
    CreditsQuiet(s);
    hide AcceptedIds, CurrentCredits;
  }

  lemma AgainQuiet(s: Engine, id: uint16, known: AckState, now: uint32)
    ensures Quiet(s, AckAgain(s, id, known, now))
  {
    CreditsQuiet(s);
    hide AcceptedIds, CurrentCredits;
  }

  lemma OfferAccepts(s: Engine, i: nat)
    requires i < 4
    ensures var (t, accepted) := Offer(s, i);
            && t == s.(log := t.log)
            && AcceptedIds(t.log) == AcceptedIds(s.log) + (if accepted then [s.rx[i].reassembly.datagramId] else [])
  {
    hide AcceptedIds, OutputOf;
    AskAcceptsNothing(s, 1);
    var (t, egress) := AskEgress(s, 1);
    assert t == s.(log := t.log);
    hide AskEgress;
    if egress != 0 && t.callbacks.deliver.Some? {
      var accepted := t.callbacks.deliver.value(t.log, OutputOf(t, i));
      AcceptedAppend(t.log, Delivered(t.rx[i].reassembly.datagramId, OutputOf(t, i), accepted));
    }
  }

  lemma FinishAccepts(s: Engine, i: nat, now: uint32)
    requires i < 4 && AcksOk(s.acks)
    ensures var t := FinishDelivery(s, i, now);
            && AcceptedIds(t.log) == AcceptedIds(s.log)
            && exists ack :: t.window == Store(s.window, s.rx[i].reassembly.datagramId, ack)
  {
    hide AcceptedIds, CurrentCredits, AcksOk, Store;
    CreditsQuiet(s);
    var r := s.rx[i].reassembly;
    var (t, stored) := CurrentCredits(s);
    CreditsQuiet(t.(window := Store(t.window, r.datagramId,
                                    AckState(FragmentExpectedBitmap(r.fragmentCount), stored, NONE))));
    FinishDeliveryShape(s, i, now, FinishDelivery(s, i, now));
  }

  /** A slot never completes with an id the window still knows, so a delivery is always new. */
  lemma CompletingRemembers(s: Engine, i: nat, now: uint32)
    requires MidData(s, i) && MemoryInv(s)
    ensures MemoryInv(TryCompleteRxSlot(s, i, now).0)
  {
    hide AcceptedIds, MemoryOf, MemoryAfter, OnceInMemory, FinishDelivery, Offer, MidData, Store, Remember;
    hide AcksOk, WindowOk;
    MidParts(s, i);
    OfferAccepts(s, i);
    var (t, accepted) := Offer(s, i);
    assert !accepted ==> AcceptedIds(t.log) == AcceptedIds(s.log);
    if accepted && ReassemblyIsComplete(s.rx[i].reassembly) {
      var id := s.rx[i].reassembly.datagramId;
      KnownIsLive(s.window, id);
      OnceAppend(AcceptedIds(s.log), id);
      FinishAccepts(t, i, now);
      var ack :| FinishDelivery(t, i, now).window == Store(s.window, id, ack);
      StoreRemembers(s.window, id, ack);
    }
  }

  lemma MidParts(s: Engine, i: nat)
    requires MidData(s, i)
    ensures i < 4 && WindowOk(s.window) && AcksOk(s.acks) && Find(s.window, s.rx[i].reassembly.datagramId).None?
  {
    hide WindowOk, RxPoolOk, AcksOk, Find, Settled;
  }

  lemma QuietKeeps(s: Engine, t: Engine)
    requires MemoryInv(s) && Quiet(s, t)
    ensures MemoryInv(t)
  {
    hide AcceptedIds, MemoryOf, MemoryAfter, OnceInMemory;
  }

  lemma {:induction false} CompletingAllRemembers(s: Engine, i: nat, now: uint32)
    requires RxOk(s) && MemoryInv(s) && i <= 4
    ensures MemoryInv(TryCompleteRxSlots(s, i, now).0)
    decreases 4 - i
  {
    hide RxOk, MidData, TryCompleteRxSlot, MemoryInv, TxSame;
    if i < 4 {
      if s.rx[i].active && s.rx[i].waiting {
        MidDataOfOk(s, i);
        CompletingRemembers(s, i, now);
        TryCompleteKeeps(s, i, now);
        var (t, completed) := TryCompleteRxSlot(s, i, now);
        if !completed {
          LogOnlyRxOk(s, t);
          CompletingAllRemembers(t, i + 1, now);
        }
      } else {
        CompletingAllRemembers(s, i + 1, now);
      }
    }
  }

  lemma AfterAcceptRemembers(s: Engine, i: nat, h: DataHeader, now: uint32)
    requires i < 4 && MidData(s, i) && MemoryInv(s)
    ensures MemoryInv(AfterAccept(s, i, h, now))
  {
    hide MidData, MemoryInv, TryCompleteRxSlot, QueueRxAck, ReassemblyIsComplete, AcceptedIds;
    if ReassemblyIsComplete(s.rx[i].reassembly) {
      CompletingRemembers(s, i, now);
      var (t, completed) := TryCompleteRxSlot(s, i, now);
      if !completed {
        var u := SetRx(t, i, t.rx[i].(waiting := true));
        QueueQuiet(u, i, CREDIT_WITHDRAWAL, now);
        QuietKeeps(t, QueueRxAck(u, i, CREDIT_WITHDRAWAL, now));
      }
    } else {
      QueueQuiet(s, i, NONE, now);
      QuietKeeps(s, QueueRxAck(s, i, NONE, now));
    }
  }

  lemma DataRemembers(s: Engine, h: DataHeader, payload: Bytes, now: uint32)
    requires RxOk(s) && MemoryInv(s) && ValidateDataHeader(h) && |payload| == h.payloadLen
    ensures MemoryInv(HandleData(s, h, payload, now))
  {
    hide RxOk, MemoryInv, AckAgain, SlotForData, AcceptInto, AfterAccept, ReadyFor, MidData, Find, QueueFailureAck;
    hide ValidateDataHeader, AcceptedIds;
    var id := h.datagramId;
    match Find(s.window, id)
    case Some(known) =>
      AgainQuiet(s, id, known, now);
      QuietKeeps(s, AckAgain(s, id, known, now));
    case None =>
      SlotForDataReady(s, id);
      var (t, i) := SlotForData(s, id);
      if i == 4 {
        RefusalQuiet(s, id, {}, ALLOCATION_FAILURE, now);
        QuietKeeps(s, QueueFailureAck(s, id, {}, ALLOCATION_FAILURE, now));
      } else {
        var (u, result) := AcceptInto(t, i, h, payload);
        AcceptIntoKeeps(t, i, h, payload, u, result);
        QuietKeeps(s, u);
        RefusalQuiet(u, id, u.rx[i].reassembly.receivedBitmap, MALFORMED_INPUT, now);
        QuietKeeps(u, QueueFailureAck(u, id, u.rx[i].reassembly.receivedBitmap, MALFORMED_INPUT, now));
        AfterAcceptRemembers(u, i, h, now);
      }
  }

  lemma TransmittingRemembers(s: Engine, t: Engine)
    requires RxSame(s, t) && MemoryInv(s)
    ensures MemoryInv(t)
  {
    TxAcceptsNothing(s.log, t.log);
    hide MemoryInv, AcceptedIds, Grew;
    QuietKeeps(s, t);
  }

  lemma FlushRemembers(s: Engine, now: uint32)
    requires MemoryInv(s)
    ensures MemoryInv(SendPendingAck(s, now).0)
  {
    hide MemoryInv, SendPendingAck, AcceptedIds;
    SendingQuiet(s, now);
    QuietKeeps(s, SendPendingAck(s, now).0);
  }

  lemma TickRemembers(s: Engine, now: uint32)
    requires Inv(s) && MemoryInv(s)
    ensures MemoryInv(OnTick(s, now))
  {
    hide Inv, MemoryInv, TryCompleteRxSlots, SendPendingAck, TxTick, RxOk, TxInv, TxSame, RxSame;
    InvParts(s);
    CompletingAllRemembers(s, 0, now);
    TryCompleteAllKeeps(s, 0, now);
    var t := TryCompleteRxSlots(s, 0, now).0;
    RxSideStep(s, t);
    FlushRemembers(t, now);
    SendPendingAckStep(t, now);
    var u := SendPendingAck(t, now).0;
    InvParts(u);
    TxTickKeeps(u, now);
    TransmittingRemembers(u, TxTick(u, now));
  }

  lemma FrameRemembers(s: Engine, f: Frame, now: uint32)
    requires Inv(s) && MemoryInv(s) && Buildable(f)
    ensures MemoryInv(OnFrame(s, f, now))
  {
    hide Inv, MemoryInv, HandleData, HandleAck, RxOk, TxInv, TxSame, RxSame, ValidateDataHeader;
    InvParts(s);
    match f
    case DataFrame(h, payload) => DataRemembers(s, h, payload, now);
    case Ack(ack) =>
      HandleAckKeeps(s, ack, now);
      TransmittingRemembers(s, HandleAck(s, ack, now));
    case ControlFrame(_) =>
    case MgmtFrame(_) =>
  }

  lemma ApplyRemembers(s: Engine, input: Input)
    requires Inv(s) && MemoryInv(s)
    ensures MemoryInv(Apply(s, input))
  {
    hide Inv, MemoryInv, OnTick, OnFrame, Decode, Buildable, SendPendingAck, Submit, RxSame, TxInv, RxOk;
    match input
    case SubmitInput(data) =>
      InvParts(s);
      SubmitKeeps(s, data);
      TransmittingRemembers(s, Submit(s, data).0);
    case PacketInput(packet, now) =>
      if Decode(packet).Success? {
        DecodedIsBuildable(packet);
        FrameRemembers(s, Decode(packet).value, now);
      }
    case TickInput(now) => TickRemembers(s, now);
    case FlushInput(now) => FlushRemembers(s, now);
  }

  lemma {:induction false} MemoryAt(states: seq<Engine>, inputs: seq<Input>, k: nat)
    requires Trace(states, inputs) && k <= |inputs| && Inv(states[0]) && MemoryInv(states[0])
    ensures MemoryInv(states[k])
  {
    hide Inv, MemoryInv, Apply;
    if k > 0 {
      MemoryAt(states, inputs, k - 1);
      InvAt(states, inputs, k - 1);
      assert StepAt(states, inputs, k - 1);
      ApplyRemembers(states[k - 1], inputs[k - 1]);
    }
  }

  lemma FreshMemory(s: Engine)
    requires IsReset(s)
    ensures MemoryInv(s)
  {
    assert MemoryOf(EmptyWindow()).live == {};
    assert AcceptedIds([]) == [];
  }

  lemma ReachableMemory(s: Engine)
    requires Reachable(s)
    ensures MemoryInv(s)
  {
    hide MemoryInv, Inv, StepAt, IsReset, Reachable;
    var states, inputs := ReachableTrace(s);
    IsResetInv(states[0]);
    FreshMemory(states[0]);
    MemoryAt(states, inputs, |inputs|);
  }

  /** In every reachable state, whatever arrived and whatever the callbacks answered, the window
      remembers exactly what its rule makes of the deliveries so far. */
  lemma WindowIsItsHistory(s: Engine)
    requires Reachable(s)
    ensures MemoryOf(s.window) == MemoryAfter(AcceptedIds(s.log))
  {
    hide MemoryOf, MemoryAfter, OnceInMemory, AcceptedIds, Reachable;
    ReachableMemory(s);
  }

  /** No delivery was ever of an id remembered at the time. */
  lemma DeliveredOnceWhileRemembered(s: Engine)
    requires Reachable(s)
    ensures OnceInMemory(AcceptedIds(s.log))
  {
    hide MemoryOf, MemoryAfter, OnceInMemory, AcceptedIds, Reachable;
    ReachableMemory(s);
  }

  // ---- when an id can be delivered again ----

  /** Delivery p made the window forget id, or left it unremembered: the newest id is now more than
      63 ahead of it, or id was the last of a full window and ids[p] lay behind the window. */
  predicate ForgottenAt(ids: seq<uint16>, p: nat, id: uint16)
    requires p < |ids|
  {
    var before, after := MemoryAfter(ids[..p]), MemoryAfter(ids[..p + 1]);
    || !SerialWithinWindow(after.newest, id)
    || (&& !SerialWithinWindow(after.newest, ids[p]) && before.live == WindowIds(before.newest)
        && id == Behind(before.newest, DUPLICATE_WINDOW_CAPACITY - 1))
  }

  /** One delivery keeps an id remembered exactly when it does not make the window forget it. */
  lemma RememberedAfter(ids: seq<uint16>, p: nat, id: uint16)
    requires p < |ids| && (ids[p] == id || id in MemoryAfter(ids[..p]).live)
    ensures id in MemoryAfter(ids[..p + 1]).live <==> !ForgottenAt(ids, p, id)
  {
    assert ids[..p + 1][..p] == ids[..p];
    LastRemembered(ids[..p + 1]);
    var before, after := MemoryAfter(ids[..p]), MemoryAfter(ids[..p + 1]);
    hide MemoryAfter, SerialAfter, WindowIds;
    assert after == Remember(before, ids[p]);
    SelfWithin(ids[p]);
    if id in before.live {
      LiveWithin(ids[..p], id);
    }
    hide SerialWithinWindow, Behind;
  }

  /** Everything remembered lies in the window. */
  lemma {:induction false} LiveWithin(ids: seq<uint16>, x: uint16)
    requires x in MemoryAfter(ids).live
    ensures MemoryAfter(ids).any && SerialWithinWindow(MemoryAfter(ids).newest, x)
  {
    if |ids| > 0 {
      SelfWithin(ids[|ids| - 1]);
      hide SerialWithinWindow, SerialAfter;
      var m := MemoryAfter(ids[..|ids| - 1]);
      if x in m.live {
        LiveWithin(ids[..|ids| - 1], x);
      }
    }
  }

  lemma {:induction false} RememberedUntil(ids: seq<uint16>, n: nat, m: nat, id: uint16)
    requires n < m <= |ids| && ids[n] == id
    requires forall p :: n <= p < m ==> !ForgottenAt(ids, p, id)
    ensures id in MemoryAfter(ids[..m]).live
    decreases m
  {
    hide MemoryAfter, ForgottenAt;
    if n < m - 1 {
      RememberedUntil(ids, n, m - 1, id);
    }
    RememberedAfter(ids, m - 1, id);
  }

  /** Between two deliveries of one id in a run, some delivery made the window forget it: it was
      overtaken by an id more than 63 ahead, or lost the last place of a full window to an id behind
      it. In particular an id is delivered at most once while neither happens. */
  lemma RedeliveryNeedsForgetting(s: Engine, ids: seq<uint16>, n: nat, m: nat)
    requires Reachable(s) && ids == AcceptedIds(s.log)
    requires n < m < |ids| && ids[n] == ids[m]
    ensures exists p :: n <= p < m && ForgottenAt(ids, p, ids[n])
  {
    hide Reachable, AcceptedIds, ForgottenAt, MemoryAfter, MemoryOf;
    DeliveredOnceWhileRemembered(s);
    assert FreshAt(ids, m);
    if forall p :: n <= p < m ==> !ForgottenAt(ids, p, ids[n]) {
      RememberedUntil(ids, n, m, ids[n]);
      assert false;
    }
  }

  lemma {:induction false} ForgottenStays(ids: seq<uint16>, n: nat, m: nat, id: uint16)
    requires n <= m <= |ids| && id !in MemoryAfter(ids[..n]).live && forall p :: n <= p < m ==> ids[p] != id
    ensures id !in MemoryAfter(ids[..m]).live
    decreases m
  {
    if n < m {
      ForgottenStays(ids, n, m - 1, id);
      assert ids[..m][..m - 1] == ids[..m - 1];
      LastRemembered(ids[..m]);
      hide MemoryAfter, SerialAfter, SerialWithinWindow, WindowIds, Behind;
    }
  }

  /** An id delivered last as ids[n] is forgotten by now if and only if some delivery since, its own
      included, made the window forget it. */
  lemma ForgottenExactly(ids: seq<uint16>, n: nat, id: uint16)
    requires n < |ids| && ids[n] == id && forall q :: n < q < |ids| ==> ids[q] != id
    ensures id !in MemoryAfter(ids).live <==> exists p :: n <= p < |ids| && ForgottenAt(ids, p, id)
  {
    hide MemoryAfter, ForgottenAt;
    assert ids[..|ids|] == ids;
    if exists p :: n <= p < |ids| && ForgottenAt(ids, p, id) {
      var p :| n <= p < |ids| && ForgottenAt(ids, p, id);
      if ids[p] == id || id in MemoryAfter(ids[..p]).live {
        RememberedAfter(ids, p, id);
      } else {
        ForgottenStays(ids, p, p + 1, id);
      }
      ForgottenStays(ids, p + 1, |ids|, id);
    } else {
      RememberedUntil(ids, n, |ids|, id);
    }
  }

  /** An id overtaken by one 64 ahead is forgotten as soon as it is delivered. */
  lemma OvertakenIsForgotten()
    ensures MemoryAfter([64, 0]).live == {64}
    ensures OnceInMemory([64, 0, 0])
  {
    assert [64, 0][..1] == [64];
    assert [64][..0] == [];
    LastRemembered([64, 0]);
    LastRemembered([64]);
    assert MemoryAfter([]).live == {};
    assert !SerialWithinWindow(64, 0);
    assert SerialWithinWindow(64, 64);
    assert MemoryAfter([64]) == Memory(true, 64, {64});
    assert Behind(64, 1) == 63 && 63 in WindowIds(64);
    forall n | 0 <= n < 3 ensures FreshAt([64, 0, 0], n) {
      assert [64, 0, 0][..0] == [] && [64, 0, 0][..1] == [64] && [64, 0, 0][..2] == [64, 0];
    }
  }
}
