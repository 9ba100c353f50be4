/** What the engine's invariant says about whole runs: datagrams, credits and buffers are conserved. */
module ArqConservation {
  import opened Words
  import opened FramingV3
  import opened DatagramPool
  import FragmentV3
  import opened ArqState
  import opened ArqInvariant

  /** The credits granted by the last acknowledgement, or the initial ones, clamped. */
  function Granted(log: Log, initial: byte): byte {
    if |log| == 0 then ClampCredits(initial)
    else if log[|log| - 1].AckSeen? then ClampCredits(log[|log| - 1].ack.receiverCredits)
    else Granted(log[..|log| - 1], initial)
  }

  /** Openings since the last acknowledgement that were not stall probes. */
  function OpensSince(log: Log): nat {
    if |log| == 0 || log[|log| - 1].AckSeen? then 0
    else OpensSince(log[..|log| - 1]) + (if log[|log| - 1].Opened? && !log[|log| - 1].probe then 1 else 0)
  }

  /** Datagrams completed, and datagrams given up. */
  function CompletedCount(log: Log): nat {
    if |log| == 0 then 0 else CompletedCount(log[..|log| - 1]) + (if log[|log| - 1].Completed? then 1 else 0)
  }

  function ExhaustedCount(log: Log): nat {
    if |log| == 0 then 0 else ExhaustedCount(log[..|log| - 1]) + (if log[|log| - 1].Exhausted? then 1 else 0)
  }

  lemma {:induction false} LedgerSplits(log: Log, initial: byte)
    ensures Ledger(log, initial) == Granted(log, initial) - OpensSince(log)
    ensures Finished(log) == CompletedCount(log) + ExhaustedCount(log)
  {
    hide ClampCredits;
    if |log| > 0 {
      LedgerSplits(log[..|log| - 1], initial);
    }
  }

  // ---- buffers in use ----

  /** The buffer a slot holds, if it holds one. */
  function Taken(holds: bool, handle: nat): (s: set<nat>)
    ensures |s| == if holds then 1 else 0
  {
    if holds then {handle} else {}
  }

  function TxTaken(slot: TxSlot): set<nat> {
    Taken(slot.state != EMPTY, slot.handle)
  }

  function RxTaken(slot: RxSlot): set<nat> {
    Taken(slot.active, slot.handle)
  }

  function ActiveRx(rx: RxSlots): nat {
    4 - CountInactive(rx, 4)
  }

  lemma DisjointUnion(a: set<nat>, b: set<nat>)
    requires a !! b
    ensures |a + b| == |a| + |b|
  {}

  lemma DisjointFour(a: set<nat>, b: set<nat>, c: set<nat>, d: set<nat>)
    requires a !! b && a !! c && a !! d && b !! c && b !! d && c !! d
    ensures |a + b + (c + d)| == |a| + |b| + |c| + |d|
  {
    DisjointUnion(a, b);
    DisjointUnion(c, d);
    DisjointUnion(a + b, c + d);
  }

  /** Handles that four slots hold without sharing, and that are free when no slot holds them, leave the
      rest of the eight buffers free. */
  lemma FreeIsTheRest(a: set<nat>, b: set<nat>, c: set<nat>, d: set<nat>, free: set<nat>)
    requires a !! b && a !! c && a !! d && b !! c && b !! d && c !! d
    requires forall h: nat :: h in a + b + (c + d) + free <==> h < DATAGRAM_POOL_CAPACITY
    requires a + b + (c + d) !! free
    ensures |a| + |b| + |c| + |d| + |free| == DATAGRAM_POOL_CAPACITY
  {
    DisjointFour(a, b, c, d);
    PartitionSize(a + b + (c + d), free);
  }

  lemma PartitionSize(a: set<nat>, b: set<nat>)
    requires a !! b && forall h: nat :: h in a + b <==> h < DATAGRAM_POOL_CAPACITY
    ensures |a| + |b| == DATAGRAM_POOL_CAPACITY
  {
    assert a + b == DatagramPool.Indexes(DATAGRAM_POOL_CAPACITY);
    DisjointUnion(a, b);
  }

  lemma RxCountFour(rx: RxSlots)
    ensures ActiveRx(rx) == (if rx[0].active then 1 else 0) + (if rx[1].active then 1 else 0)
                            + (if rx[2].active then 1 else 0) + (if rx[3].active then 1 else 0)
  {
    assert CountInactive(rx, 1) == if !rx[0].active then 1 else 0;
    assert CountInactive(rx, 3) == CountInactive(rx, 2) + (if !rx[2].active then 1 else 0);
  }

  lemma TxTakenApart(tx: TxSlots, pool: Pool)
    requires TxBuffersOk(tx, pool)
    ensures forall i, j :: 0 <= i < j < 4 ==> TxTaken(tx[i]) !! TxTaken(tx[j])
    ensures forall h: nat :: h in TxTaken(tx[0]) + TxTaken(tx[1]) + (TxTaken(tx[2]) + TxTaken(tx[3]))
                             <==> h < DATAGRAM_POOL_CAPACITY && h !in pool.free
  {
    hide PoolOk;
  }

  lemma RxTakenApart(rx: RxSlots, pool: Pool)
    requires RxPoolOk(rx, pool)
    ensures forall i, j :: 0 <= i < j < 4 ==> RxTaken(rx[i]) !! RxTaken(rx[j])
    ensures forall h: nat :: h in RxTaken(rx[0]) + RxTaken(rx[1]) + (RxTaken(rx[2]) + RxTaken(rx[3]))
                             <==> h < DATAGRAM_POOL_CAPACITY && h !in pool.free
  {
    hide PoolOk, FragmentV3.Consistent, FragmentV3.ReassemblyIsComplete;
  }

  /** As many buffers are taken as slots hold a datagram, so the pool of eight never runs short. */
  lemma BuffersCounted(tx: TxSlots, pool: Pool)
    requires TxBuffersOk(tx, pool)
    ensures pool.used == InUse(tx) && |pool.free| == DATAGRAM_POOL_CAPACITY - InUse(tx)
  {
    TxTakenApart(tx, pool);
    CountFour(tx, EMPTY);
    hide TxOwns, CountTx, TxTaken;
    FreeIsTheRest(TxTaken(tx[0]), TxTaken(tx[1]), TxTaken(tx[2]), TxTaken(tx[3]), pool.free);
    TxTakenSizes(tx);
  }

  lemma TxTakenSizes(tx: TxSlots)
    ensures forall i :: 0 <= i < 4 ==> |TxTaken(tx[i])| == if tx[i].state != EMPTY then 1 else 0
  {}

  /** On the receive side too: as many buffers are taken as slots are reassembling or waiting. */
  lemma RxBuffersCounted(rx: RxSlots, pool: Pool)
    requires RxPoolOk(rx, pool)
    ensures pool.used == ActiveRx(rx) && |pool.free| == DATAGRAM_POOL_CAPACITY - ActiveRx(rx)
  {
    RxTakenApart(rx, pool);
    RxCountFour(rx);
    hide RxOwns, RxSlotOk, ActiveRx, RxTaken;
    FreeIsTheRest(RxTaken(rx[0]), RxTaken(rx[1]), RxTaken(rx[2]), RxTaken(rx[3]), pool.free);
    RxTakenSizes(rx);
  }

  lemma RxTakenSizes(rx: RxSlots)
    ensures forall i :: 0 <= i < 4 ==> |RxTaken(rx[i])| == if rx[i].active then 1 else 0
  {}

  /** No buffer is ever released twice, or released under a handle that is not one: not one of the releases of
      any run was refused, and the next release of a slot will not be either. */
  lemma ReleasesSucceed(s: Engine, i: nat)
    requires Reachable(s) && i < 4
    ensures s.txPool.invalidReleases == 0 && s.rxPool.invalidReleases == 0
    ensures s.tx[i].state != EMPTY ==> Release(s.txPool, s.tx[i].handle).1 == POOL_OK
    ensures s.rx[i].active ==> Release(s.rxPool, s.rx[i].handle).1 == POOL_OK
  {
    hide Reachable, TxSlotsOk, TxOk, LedgerOk, RxPoolOk, IdsOk, AcksOk, Release, TxBuffersOk;
    ReachableInv(s);
    InvParts(s);
    assert TxBuffersOk(s.tx, s.txPool) by { TxOkParts(s.config, s.tx, s.txPool); }
    NoRefusals(s.tx, s.txPool, s.rx, s.rxPool);
    if s.tx[i].state != EMPTY {
      ReleaseBuffers(s.tx, s.txPool, i);
    }
    if s.rx[i].active {
      ReleaseRxKeeps(s, i);
    }
  }

  lemma TxOkParts(c: Config, tx: TxSlots, pool: Pool)
    requires TxOk(c, tx, pool)
    ensures TxBuffersOk(tx, pool)
  {
    hide TxSlotsOk, TxBuffersOk;
  }

  lemma NoRefusals(tx: TxSlots, txPool: Pool, rx: RxSlots, rxPool: Pool)
    requires TxBuffersOk(tx, txPool) && RxPoolOk(rx, rxPool)
    ensures txPool.invalidReleases == 0 && rxPool.invalidReleases == 0
  {
    hide PoolOk, RxSlotOk, TxOwns, RxOwns;
  }

  // ---- every run ----

  /** Conservation: in every run the datagrams accepted are those completed, those given up and
      those in slots; credits and ordinary openings since the last acknowledgement add up to what it
      granted; and each datagram in a slot, on either side, has exactly one buffer. */
  lemma Conservation(s: Engine)
    requires Reachable(s)
    ensures |s.submitted| == CompletedCount(s.log) + ExhaustedCount(s.log) + InUse(s.tx)
    ensures s.credits + OpensSince(s.log) == Granted(s.log, s.config.initialRemoteCredits)
    ensures s.txPool.used == InUse(s.tx) && |s.txPool.free| == DATAGRAM_POOL_CAPACITY - InUse(s.tx)
    ensures s.rxPool.used == ActiveRx(s.rx) && |s.rxPool.free| == DATAGRAM_POOL_CAPACITY - ActiveRx(s.rx)
  {
    hide Reachable, Ledger, Finished, Granted, OpensSince, CompletedCount, ExhaustedCount, InUse, RxPoolOk, IdsOk,
         AcksOk, ActiveRx;
    ReachableInv(s);
    LedgerSplits(s.log, s.config.initialRemoteCredits);
    InvParts(s);
    BuffersCounted(s.tx, s.txPool) by { hide LedgerOk, TxBuffersOk, TxSlotsOk; }
    RxBuffersCounted(s.rx, s.rxPool);
  }
}
