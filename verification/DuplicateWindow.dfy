/** The 64-entry history of delivered datagram ids under 16-bit serial-number arithmetic. */
module DuplicateWindow {
  import opened Words
  import opened FramingV3

  const DUPLICATE_WINDOW_CAPACITY: nat := 64

  datatype AckState = AckState(fragmentBitmap: Bitmap, receiverCredits: byte, failure: FailureStatus)

  datatype Entry = Entry(datagramId: uint16, ack: AckState, valid: bool)

  type Entries = s: seq<Entry> | |s| == 64 witness EmptyEntries()

  datatype Window = Window(entries: Entries, newestId: uint16, hasNewest: bool, count: nat)

  const EMPTY_ENTRY: Entry := Entry(0, AckState({}, 0, NONE), false)

  function EmptyEntries(): (s: seq<Entry>)
    ensures |s| == DUPLICATE_WINDOW_CAPACITY
    ensures forall i :: 0 <= i < |s| ==> !s[i].valid
  {
    seq(DUPLICATE_WINDOW_CAPACITY, _ => EMPTY_ENTRY)
  }

  function EmptyWindow(): Window {
    Window(EmptyEntries(), 0, false, 0)
  }

  // ---- serial numbers ----

  /** How far `older` lies behind `newer` on the circle of 16-bit ids. */
  function Age(newer: uint16, older: uint16): uint16 {
    (newer - older) % 0x1_0000
  }

  /** `static_cast<int16_t>(newer - older)`. */
  function SerialDistance(newer: uint16, older: uint16): int {
    var age := Age(newer, older);
    if age < 0x8000 then age else age - 0x1_0000
  }

  predicate SerialAfter(lhs: uint16, rhs: uint16) {
    SerialDistance(lhs, rhs) > 0
  }

  predicate SerialWithinWindow(newest: uint16, candidate: uint16) {
    0 <= SerialDistance(newest, candidate) < DUPLICATE_WINDOW_CAPACITY
  }

  // ---- operations ----

  /** The first valid entry for the id at or above i, or the capacity. */
  function IndexOf(entries: seq<Entry>, id: uint16, i: nat): (k: nat)
    requires i <= |entries|
    ensures i <= k <= |entries|
    ensures k < |entries| ==> entries[k].valid && entries[k].datagramId == id
    ensures forall j :: i <= j < k ==> !(entries[j].valid && entries[j].datagramId == id)
    decreases |entries| - i
  {
    if i == |entries| || (entries[i].valid && entries[i].datagramId == id) then i else IndexOf(entries, id, i + 1)
  }

  function Find(w: Window, id: uint16): Option<AckState> {
    var k := IndexOf(w.entries, id, 0);
    if k < |w.entries| then Some(w.entries[k].ack) else None
  }

  function PrunedEntry(newest: uint16, e: Entry): Entry {
    if e.valid && !SerialWithinWindow(newest, e.datagramId) then e.(valid := false) else e
  }

  function CountValid(entries: seq<Entry>): (n: nat)
    ensures n <= |entries|
  {
    if |entries| == 0 then 0
    else CountValid(entries[..|entries| - 1]) + (if entries[|entries| - 1].valid then 1 else 0)
  }

  function PrunedEntries(newest: uint16, entries: seq<Entry>): (s: seq<Entry>)
    ensures |s| == |entries|
    ensures forall i :: 0 <= i < |s| ==> s[i] == PrunedEntry(newest, entries[i])
  {
    seq(|entries|, i requires 0 <= i < |entries| => PrunedEntry(newest, entries[i]))
  }

  function Prune(w: Window): Window {
    if !w.hasNewest then w
    else
      var entries := PrunedEntries(w.newestId, w.entries);
      w.(entries := entries, count := CountValid(entries))
  }

  function FirstInvalid(entries: seq<Entry>, i: nat): (k: nat)
    requires i <= |entries|
    ensures i <= k <= |entries|
    ensures k < |entries| ==> !entries[k].valid
    ensures forall j :: i <= j < k ==> entries[j].valid
    decreases |entries| - i
  {
    if i == |entries| || !entries[i].valid then i else FirstInvalid(entries, i + 1)
  }

  /** The entry the eviction loop settles on among the first n: the last one of greatest age. */
  function Oldest(newest: uint16, entries: seq<Entry>, n: nat): (k: nat)
    requires n <= |entries|
    ensures n > 0 ==> k < n
    ensures forall j :: 0 <= j < n ==> Age(newest, entries[j].datagramId) <= Age(newest, entries[k].datagramId)
    ensures n == 0 ==> k == 0
  {
    if n == 0 then 0
    else
      var k := Oldest(newest, entries, n - 1);
      if n == 1 || Age(newest, entries[n - 1].datagramId) >= Age(newest, entries[k].datagramId) then n - 1 else k
  }

  function Advance(w: Window, id: uint16): Window {
    if !w.hasNewest || SerialAfter(id, w.newestId) then w.(newestId := id, hasNewest := true) else w
  }

  function Store(w: Window, id: uint16, ack: AckState): Window
  {
    var a := Advance(w, id);
    var i := IndexOf(a.entries, id, 0);
    if i < |a.entries| then Prune(a.(entries := a.entries[i := a.entries[i].(ack := ack)]))
    else
      var p := Prune(a);
      var free := FirstInvalid(p.entries, 0);
      var slot := if free < |p.entries| then free else Oldest(p.newestId, p.entries, |p.entries|);
      Prune(p.(entries := p.entries[slot := Entry(id, ack, true)]))
  }

  // ---- the window as a map ----

  predicate WindowOk(w: Window) {
    && (forall i, j :: 0 <= i < j < |w.entries| && w.entries[i].valid && w.entries[j].valid ==>
          w.entries[i].datagramId != w.entries[j].datagramId)
    && (forall i :: 0 <= i < |w.entries| && w.entries[i].valid ==>
          w.hasNewest && SerialWithinWindow(w.newestId, w.entries[i].datagramId))
    && w.count == CountValid(w.entries)
  }

  /** An id not behind the window of 64 that ends at the newest id, itself included. */
  predicate NotBehind(w: Window, id: uint16) {
    SerialWithinWindow(Advance(w, id).newestId, id)
  }

  predicate FullWindow(w: Window) {
    forall i :: 0 <= i < |w.entries| ==> w.entries[i].valid
  }

  lemma FindIs(w: Window, k: nat, id: uint16)
    requires WindowOk(w) && k < |w.entries| && w.entries[k].valid && w.entries[k].datagramId == id
    ensures Find(w, id) == Some(w.entries[k].ack)
  {}

  lemma FindNone(w: Window, id: uint16)
    ensures Find(w, id).None? <==>
            forall j :: 0 <= j < |w.entries| ==> !(w.entries[j].valid && w.entries[j].datagramId == id)
  {}

  /** Pruning keeps an entry exactly when its id lies in the window. */
  lemma PruneRestricts(w: Window, x: uint16)
    requires w.hasNewest
    requires forall i, j :: 0 <= i < j < |w.entries| && w.entries[i].valid && w.entries[j].valid ==>
               w.entries[i].datagramId != w.entries[j].datagramId
    ensures WindowOk(Prune(w))
    ensures Find(Prune(w), x) == if SerialWithinWindow(w.newestId, x) then Find(w, x) else None
  {
    hide SerialWithinWindow;
    var p := Prune(w);
    var k := IndexOf(w.entries, x, 0);
    if k < |w.entries| && SerialWithinWindow(w.newestId, x) {
      assert p.entries[k] == w.entries[k];
      FindIs(p, k, x);
    }
  }

  // ---- pigeonhole ----

  lemma {:induction false} Pigeonhole(s: seq<nat>, m: nat)
    requires forall i :: 0 <= i < |s| ==> s[i] < m
    requires forall i, j :: 0 <= i < j < |s| ==> s[i] != s[j]
    ensures |s| <= m
  {
    if |s| > 0 {
      assert s[0] < m;
      if m - 1 in s {
        var i :| 0 <= i < |s| && s[i] == m - 1;
        var t := s[..i] + s[i + 1..];
        assert forall j :: 0 <= j < |t| ==> t[j] == s[if j < i then j else j + 1];
        Pigeonhole(t, m - 1);
      } else {
        Pigeonhole(s, m - 1);
      }
    }
  }

  function Ages(newest: uint16, entries: seq<Entry>): (s: seq<nat>)
    ensures |s| == |entries|
    ensures forall i :: 0 <= i < |s| ==> s[i] == Age(newest, entries[i].datagramId)
  {
    seq(|entries|, i requires 0 <= i < |entries| => Age(newest, entries[i].datagramId))
  }

  lemma AgeInjective(newest: uint16, a: uint16, b: uint16)
    requires Age(newest, a) == Age(newest, b)
    ensures a == b
  {}

  lemma AgeWithin(newest: uint16, id: uint16)
    ensures SerialWithinWindow(newest, id) <==> Age(newest, id) < DUPLICATE_WINDOW_CAPACITY
  {}

  lemma AgesDistinct(w: Window)
    requires WindowOk(w) && FullWindow(w)
    ensures forall i :: 0 <= i < |w.entries| ==> Age(w.newestId, w.entries[i].datagramId) < DUPLICATE_WINDOW_CAPACITY
    ensures forall i, j :: 0 <= i < j < |w.entries| ==>
              Age(w.newestId, w.entries[i].datagramId) != Age(w.newestId, w.entries[j].datagramId)
  {
    hide Age, SerialWithinWindow;
    forall i | 0 <= i < |w.entries| ensures Age(w.newestId, w.entries[i].datagramId) < DUPLICATE_WINDOW_CAPACITY {
      AgeWithin(w.newestId, w.entries[i].datagramId);
    }
    forall i, j | 0 <= i < j < |w.entries|
      ensures Age(w.newestId, w.entries[i].datagramId) != Age(w.newestId, w.entries[j].datagramId)
    {
      if Age(w.newestId, w.entries[i].datagramId) == Age(w.newestId, w.entries[j].datagramId) {
        AgeInjective(w.newestId, w.entries[i].datagramId, w.entries[j].datagramId);
      }
    }
  }

  /** A window that is full has no room for another id of its 64: the eviction branch is never
      reached for an id that is not behind the window. */
  lemma RoomInsideWindow(w: Window, id: uint16)
    requires WindowOk(w) && Find(w, id).None? && w.hasNewest && SerialWithinWindow(w.newestId, id)
    ensures FirstInvalid(w.entries, 0) < |w.entries|
  {
    if FirstInvalid(w.entries, 0) == |w.entries| {
      AgesDistinct(w);
      AgeWithin(w.newestId, id);
      var s := Ages(w.newestId, w.entries) + [Age(w.newestId, id)];
      FindNone(w, id);
      hide Age, Find;
      forall i | 0 <= i < |w.entries| ensures s[i] != s[|w.entries|] {
        if s[i] == s[|w.entries|] {
          AgeInjective(w.newestId, w.entries[i].datagramId, id);
        }
      }
      Pigeonhole(s, DUPLICATE_WINDOW_CAPACITY);
    }
  }

  /** In a full window the oldest entry is the one 63 behind the newest id. */
  lemma OldestIsLast(w: Window)
    requires WindowOk(w) && FullWindow(w)
    ensures Age(w.newestId, w.entries[Oldest(w.newestId, w.entries, |w.entries|)].datagramId)
            == DUPLICATE_WINDOW_CAPACITY - 1
  {
    AgesDistinct(w);
    var k := Oldest(w.newestId, w.entries, |w.entries|);
    hide Age;
    if Age(w.newestId, w.entries[k].datagramId) < DUPLICATE_WINDOW_CAPACITY - 1 {
      Pigeonhole(Ages(w.newestId, w.entries), DUPLICATE_WINDOW_CAPACITY - 1);
    }
  }

  // ---- what storing does ----

  lemma StoreKnown(w: Window, id: uint16, ack: AckState, x: uint16)
    requires WindowOk(w) && IndexOf(w.entries, id, 0) < |w.entries|
    ensures var n := Store(w, id, ack);
            && WindowOk(n) && n.newestId == w.newestId && NotBehind(w, id)
            && Find(n, x) == if x == id then Some(ack) else Find(w, x)
  {
    var k := IndexOf(w.entries, id, 0);
    assert w.hasNewest && SerialWithinWindow(w.newestId, id);
    assert Advance(w, id) == w;
    var u := w.(entries := w.entries[k := w.entries[k].(ack := ack)]);
    assert Store(w, id, ack) == Prune(u);
    hide SerialWithinWindow, Store, Advance;
    PruneRestricts(u, x);
    UpdatedFind(w, u, k, id, ack, x);
    if Find(w, x).Some? {
      assert SerialWithinWindow(w.newestId, x);
    }
  }

  lemma UpdatedFind(w: Window, u: Window, k: nat, id: uint16, ack: AckState, x: uint16)
    requires WindowOk(w) && k == IndexOf(w.entries, id, 0) < |w.entries|
    requires u == w.(entries := w.entries[k := w.entries[k].(ack := ack)])
    ensures Find(u, x) == if x == id then Some(ack) else Find(w, x)
  {
    assert forall m :: 0 <= m < |u.entries| ==>
             u.entries[m].valid == w.entries[m].valid && u.entries[m].datagramId == w.entries[m].datagramId;
    var i, j := IndexOf(w.entries, x, 0), IndexOf(u.entries, x, 0);
    assert i == j;
  }

  /** A new id goes into an invalid slot and the window is pruned again. */
  lemma FillSlot(p: Window, slot: nat, id: uint16, ack: AckState, x: uint16)
    requires WindowOk(p) && p.hasNewest && Find(p, id).None?
    requires slot < |p.entries|
    ensures var n := Prune(p.(entries := p.entries[slot := Entry(id, ack, true)]));
            && WindowOk(n)
            && Find(n, x) ==
               (if x == id then if SerialWithinWindow(p.newestId, id) then Some(ack) else None
                else if p.entries[slot].valid && p.entries[slot].datagramId == x then None
                else Find(p, x))
  {
    hide SerialWithinWindow;
    FindNone(p, id);
    var u := p.(entries := p.entries[slot := Entry(id, ack, true)]);
    PruneRestricts(u, x);
    var i, j := IndexOf(p.entries, x, 0), IndexOf(u.entries, x, 0);
    if x == id {
      assert u.entries[slot].valid && u.entries[slot].datagramId == x;
      assert j == slot;
    } else if i < |p.entries| {
      if i != slot {
        assert u.entries[i] == p.entries[i];
        assert j == i;
      }
    }
  }

  lemma StoreUnknown(w: Window, id: uint16, ack: AckState, p: Window, slot: nat)
    requires WindowOk(w) && IndexOf(w.entries, id, 0) == |w.entries|
    requires p == Prune(Advance(w, id))
    requires slot == if FirstInvalid(p.entries, 0) < |p.entries| then FirstInvalid(p.entries, 0)
                     else Oldest(p.newestId, p.entries, |p.entries|)
    ensures Store(w, id, ack) == Prune(p.(entries := p.entries[slot := Entry(id, ack, true)]))
  {
    hide Prune, SerialAfter;
  }

  lemma PrunedBeforeStore(w: Window, id: uint16, p: Window)
    requires WindowOk(w) && Find(w, id).None? && p == Prune(Advance(w, id))
    ensures WindowOk(p) && p.hasNewest && p.newestId == Advance(w, id).newestId && Find(p, id).None?
    ensures forall x :: Find(p, x) == if SerialWithinWindow(p.newestId, x) then Find(w, x) else None
  {
    hide SerialWithinWindow, SerialAfter;
    var a := Advance(w, id);
    assert a.entries == w.entries && a.hasNewest;
    hide Prune, Advance;
    forall x ensures Find(p, x) == if SerialWithinWindow(p.newestId, x) then Find(w, x) else None {
      PruneRestricts(a, x);
    }
  }

  /** What a look-up finds after a store, for every id. An id that is not behind the window is
      added to the old contents and whatever fell out of the 64 ids up to the newest is dropped.
      An id behind the window is not remembered, and it costs the entry 63 behind the newest id
      exactly when the window was full. */
  function MapAfterStore(w: Window, id: uint16, ack: AckState, x: uint16): Option<AckState> {
    if NotBehind(w, id) then
      if !SerialWithinWindow(Advance(w, id).newestId, x) then None
      else if x == id then Some(ack) else Find(w, x)
    else if FullWindow(w) && Age(w.newestId, x) == DUPLICATE_WINDOW_CAPACITY - 1 then None
    else Find(w, x)
  }

  lemma StoreRefinesMap(w: Window, id: uint16, ack: AckState, x: uint16)
    requires WindowOk(w)
    ensures WindowOk(Store(w, id, ack))
    ensures Store(w, id, ack).newestId == Advance(w, id).newestId && Store(w, id, ack).hasNewest
    ensures Find(Store(w, id, ack), x) == MapAfterStore(w, id, ack, x)
  {
    if IndexOf(w.entries, id, 0) < |w.entries| {
      StoreKnown(w, id, ack, x);
      assert Find(w, x).Some? ==> SerialWithinWindow(w.newestId, x);
      assert SerialWithinWindow(w.newestId, id) && Advance(w, id) == w;
    } else {
      var p := Prune(Advance(w, id));
      var free := FirstInvalid(p.entries, 0);
      var slot := if free < |p.entries| then free else Oldest(p.newestId, p.entries, |p.entries|);
      StoreUnknown(w, id, ack, p, slot);
      PrunedBeforeStore(w, id, p);
      FillSlot(p, slot, id, ack, x);
      if NotBehind(w, id) {
        StoreInside(w, id, ack, x, p, slot);
      } else {
        StoreBehind(w, id, x, p, slot);
      }
    }
  }

  lemma StoreInside(w: Window, id: uint16, ack: AckState, x: uint16, p: Window, slot: nat)
    requires WindowOk(p) && Find(p, id).None? && p.hasNewest && p.newestId == Advance(w, id).newestId
    requires NotBehind(w, id) && slot < |p.entries|
    requires slot == if FirstInvalid(p.entries, 0) < |p.entries| then FirstInvalid(p.entries, 0)
                     else Oldest(p.newestId, p.entries, |p.entries|)
    ensures !p.entries[slot].valid
  {
    RoomInsideWindow(p, id);
  }

  lemma StoreBehind(w: Window, id: uint16, x: uint16, p: Window, slot: nat)
    requires WindowOk(w) && WindowOk(p) && p == Prune(Advance(w, id)) && !NotBehind(w, id) && slot < |p.entries|
    requires slot == if FirstInvalid(p.entries, 0) < |p.entries| then FirstInvalid(p.entries, 0)
                     else Oldest(p.newestId, p.entries, |p.entries|)
    requires Find(w, id).None?
    ensures p.newestId == w.newestId && p.entries == w.entries && Find(p, x) == Find(w, x)
    ensures p.entries[slot].valid <==> FullWindow(w)
    ensures FullWindow(w) && x != id ==>
              (p.entries[slot].datagramId == x <==> Age(w.newestId, x) == DUPLICATE_WINDOW_CAPACITY - 1)
    ensures Age(w.newestId, id) >= DUPLICATE_WINDOW_CAPACITY
  {
    assert Advance(w, id) == w by {
      SelfWithin(id);
    }
    AgeWithin(w.newestId, id);
    assert p.entries == w.entries;
    if FullWindow(w) {
      OldestIsLast(p);
      if Age(w.newestId, x) == DUPLICATE_WINDOW_CAPACITY - 1 {
        AgeInjective(w.newestId, x, p.entries[slot].datagramId);
      }
    }
  }

  lemma SelfWithin(id: uint16)
    ensures SerialWithinWindow(id, id)
  {}

  // ---- the window updated in place ----

  class WindowObject {
    const entries: array<Entry>
    var newestId: uint16
    var hasNewest: bool
    var count: nat

    ghost predicate Valid() {
      entries.Length == DUPLICATE_WINDOW_CAPACITY
    }

    ghost function State(): Window
      requires Valid()
      reads this, entries
    {
      Window(entries[..], newestId, hasNewest, count)
    }

    constructor ()
      ensures Valid() && fresh(entries) && State() == EmptyWindow()
    {
      entries := new Entry[DUPLICATE_WINDOW_CAPACITY](_ => EMPTY_ENTRY);
      newestId, hasNewest, count := 0, false, 0;
      new;
      assert entries[..] == EmptyEntries();
    }

    method Reset()
      requires Valid()
      modifies this, entries
      ensures State() == EmptyWindow()
    {
      forall i | 0 <= i < entries.Length {
        entries[i] := EMPTY_ENTRY;
      }
      newestId, hasNewest, count := 0, false, 0;
      assert entries[..] == EmptyEntries();
    }

    method Index(id: uint16) returns (k: nat)
      requires Valid()
      ensures k == IndexOf(entries[..], id, 0)
    {
      k := 0;
      while k < entries.Length
        invariant k <= entries.Length && IndexOf(entries[..], id, 0) == IndexOf(entries[..], id, k)
      {
        if entries[k].valid && entries[k].datagramId == id {
          return;
        }
        k := k + 1;
      }
    }

    method Lookup(id: uint16) returns (ack: Option<AckState>)
      requires Valid()
      ensures ack == Find(State(), id)
    {
      var k := Index(id);
      ack := if k < entries.Length then Some(entries[k].ack) else None;
    }

    method PruneInPlace()
      requires Valid()
      modifies this, entries
      ensures State() == Prune(old(State()))
    {
      hide SerialWithinWindow;
      if !hasNewest {
        return;
      }
      ghost var was := entries[..];
      ghost var pruned := PrunedEntries(newestId, was);
      var n := 0;
      for i := 0 to entries.Length
        invariant newestId == old(newestId) && hasNewest
        invariant forall j :: 0 <= j < i ==> entries[j] == pruned[j]
        invariant forall j :: i <= j < entries.Length ==> entries[j] == was[j]
        invariant n == CountValid(pruned[..i])
      {
        if entries[i].valid && !SerialWithinWindow(newestId, entries[i].datagramId) {
          entries[i] := entries[i].(valid := false);
        }
        assert pruned[..i + 1][..i] == pruned[..i];
        if entries[i].valid {
          n := n + 1;
        }
      }
      count := n;
      assert entries[..] == pruned == pruned[..entries.Length];
    }

    method OldestIndex() returns (slot: nat)
      requires Valid()
      ensures slot < entries.Length && slot == Oldest(newestId, entries[..], entries.Length)
    {
      hide Age;
      var oldest := 0;
      slot := 0;
      for i := 0 to entries.Length
        invariant slot == Oldest(newestId, entries[..], i) && slot < entries.Length
        invariant i > 0 ==> oldest == Age(newestId, entries[slot].datagramId)
        invariant i == 0 ==> oldest == 0
      {
        var age := Age(newestId, entries[i].datagramId);
        if age >= oldest {
          oldest, slot := age, i;
        }
      }
    }

    method StoreInPlace(id: uint16, ack: AckState)
      requires Valid()
      modifies this, entries
      ensures State() == Store(old(State()), id, ack)
    {
      hide SerialAfter, Prune;
      if !hasNewest || SerialAfter(id, newestId) {
        newestId, hasNewest := id, true;
      }
      assert State() == Advance(old(State()), id);
      var k := Index(id);
      if k < entries.Length {
        entries[k] := entries[k].(ack := ack);
        PruneInPlace();
        return;
      }
      PruneInPlace();
      ghost var p := State();
      var slot := 0;
      while slot < entries.Length && entries[slot].valid
        invariant slot <= entries.Length && FirstInvalid(entries[..], 0) == FirstInvalid(entries[..], slot)
      {
        slot := slot + 1;
      }
      if slot == entries.Length {
        slot := OldestIndex();
      }
      entries[slot] := Entry(id, ack, true);
      assert State() == p.(entries := p.entries[slot := Entry(id, ack, true)]);
      PruneInPlace();
    }
  }
}
