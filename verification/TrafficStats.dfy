/**
 The per-device traffic window: five 20-slot columns written in place, deltas of
 unsigned counters, and a shift that moves one byte short of a full slot too many,
 leaving the last slot unspecified.
 */
module TrafficStats {
  import opened Text
  import opened Arithmetic

  type U32 = x: int | 0 <= x < 0x1_0000_0000
  type U64 = x: int | 0 <= x < 0x1_0000_0000_0000_0000

  function Trunc32(x: int): U32 { x % 0x1_0000_0000 }

  /** A 32-bit counter minus a 64-bit base: the subtraction is done in 64 bits. */
  function Sub64(a: int, b: int): U64 { (a - b) % 0x1_0000_0000_0000_0000 }

  /** One call of AddValue. */
  datatype Sample = Sample(ts: U64, extTx: U32, extRx: U32, intTx: U32, intRx: U32)

  /** One visible line: a time stamp and the four deltas to the sample before. */
  datatype Row = Row(ts: U64, extTx: U64, extRx: U64, intTx: U64, intRx: U64)

  // ---------------------------------------------------------------- the window of a history

  function Delta(s: Sample, before: Sample): Row {
    Row(s.ts, Sub64(s.extTx, before.extTx), Sub64(s.extRx, before.extRx),
        Sub64(s.intTx, before.intTx), Sub64(s.intRx, before.intRx))
  }

  /** The first sample is only a base; at most nineteen rows stay visible. */
  function Visible(n: nat): nat {
    if n == 0 then 0 else if n - 1 < 19 then n - 1 else 19
  }

  /** The last min(n-1, 19) samples in arrival order, as deltas. */
  function Window(h: seq<Sample>): seq<Row> {
    seq(Visible(|h|), k requires 0 <= k < Visible(|h|) =>
      Delta(h[|h| - Visible(|h|) + k], h[|h| - Visible(|h|) + k - 1]))
  }

  class StatsBlock {
    var modified: int
    var external: seq<(U64, U64, U64)>
    var internal: seq<(U64, U64, U64)>
  }

  /** `memmove` of 159 bytes down by one slot: slots 0..18 are exact, slot 19 is not specified. */
  method ShiftDown(a: array<U64>)
    requires a.Length == 20
    modifies a
    ensures forall i :: 0 <= i < 19 ==> a[i] == old(a[i + 1])
  {
    for i := 0 to 19
      invariant forall k :: 0 <= k < i ==> a[k] == old(a[k + 1])
      invariant forall k :: i <= k < 20 ==> a[k] == old(a[k])
    {
      a[i] := a[i + 1];
    }
    var unspecified: U64 := *;
    a[19] := unspecified;
  }

  class DeviceStats {
    var lastUpdate: int
    const timestamps: array<U64>
    const extTxs: array<U64>
    const extRxs: array<U64>
    const intTxs: array<U64>
    const intRxs: array<U64>
    var baseIntTx: U64
    var baseIntRx: U64
    var baseExtTx: U64
    var baseExtRx: U64
    var index: int
    var noBase: bool
    /** Every sample ever added. */
    ghost var history: seq<Sample>

    function Columns(): set<object> {
      {timestamps, extTxs, extRxs, intTxs, intRxs}
    }

    function Repr(): set<object> {
      {this} + Columns()
    }

    ghost predicate Separate() {
      && timestamps.Length == extTxs.Length == extRxs.Length == intTxs.Length == intRxs.Length == 20
      && timestamps != extTxs && timestamps != extRxs && timestamps != intTxs && timestamps != intRxs
      && extTxs != extRxs && extTxs != intTxs && extTxs != intRxs
      && extRxs != intTxs && extRxs != intRxs && intTxs != intRxs
    }

    ghost function RowAt(k: int): Row
      requires Separate() && 0 <= k < 20
      reads Columns()
    {
      Row(timestamps[k], extTxs[k], extRxs[k], intTxs[k], intRxs[k])
    }

    ghost predicate Valid()
      reads Repr()
    {
      && Separate()
      && (noBase <==> history == [])
      && index == Visible(|history|)
      && (!noBase ==>
            var last := history[|history| - 1];
            baseIntTx == last.intTx && baseIntRx == last.intRx && baseExtTx == last.extTx && baseExtRx == last.extRx)
      && (forall k :: 0 <= k < index ==> RowAt(k) == Window(history)[k])
    }

    constructor ()
      ensures Valid() && fresh(Repr()) && history == [] && lastUpdate == 0
    {
      timestamps, extTxs, extRxs := new U64[20], new U64[20], new U64[20];
      intTxs, intRxs := new U64[20], new U64[20];
      baseIntTx, baseIntRx, baseExtTx, baseExtRx := 0, 0, 0, 0;
      lastUpdate, index, noBase := 0, 0, true;
      history := [];
    }

    method AddValue(ts: U64, extTx: U32, extRx: U32, intTx: U32, intRx: U32, now: int)
      requires Valid()
      modifies Repr()
      ensures Valid() && history == old(history) + [Sample(ts, extTx, extRx, intTx, intRx)]
      ensures lastUpdate == if old(history) == [] then old(lastUpdate) else now
    {
      if noBase {
        baseIntRx, baseIntTx, baseExtRx, baseExtTx := intRx, intTx, extRx, extTx;
        noBase := false;
        history := [Sample(ts, extTx, extRx, intTx, intRx)];
        return;
      }
      AddDelta(ts, extTx, extRx, intTx, intRx);
      lastUpdate := now;
    }

    method AddDelta(ts: U64, extTx: U32, extRx: U32, intTx: U32, intRx: U32)
      requires Valid() && !noBase
      modifies Repr()
      ensures Valid() && history == old(history) + [Sample(ts, extTx, extRx, intTx, intRx)]
    {
      ghost var s := Sample(ts, extTx, extRx, intTx, intRx);
      ghost var h := history;
      PushDelta(ts, extTx, extRx, intTx, intRx, h[|h| - 1]);
      baseIntTx, baseIntRx, baseExtTx, baseExtRx := intTx, intRx, extTx, extRx;
      history := h + [s];
      WindowGrows(h, s);
      forall k | 0 <= k < index ensures RowAt(k) == Window(history)[k] {
        assert k < index - 1 ==> RowAt(k) == if old(index) == 19 then old(RowAt(k + 1)) else old(RowAt(k));
      }
    }

    /** The row of a sample, measured against the one before. */
    method PushDelta(ts: U64, extTx: U32, extRx: U32, intTx: U32, intRx: U32, ghost last: Sample)
      requires Separate() && 0 <= index < 20
      requires baseIntTx == last.intTx && baseIntRx == last.intRx && baseExtTx == last.extTx && baseExtRx == last.extRx
      modifies this`index, Columns()
      ensures index == if old(index) == 19 then 19 else old(index) + 1
      ensures RowAt(index - 1) == Delta(Sample(ts, extTx, extRx, intTx, intRx), last)
      ensures forall k :: 0 <= k < index - 1 ==>
                RowAt(k) == if old(index) == 19 then old(RowAt(k + 1)) else old(RowAt(k))
    {
      PushRow(ts, Sub64(extTx, baseExtTx), Sub64(extRx, baseExtRx), Sub64(intTx, baseIntTx), Sub64(intRx, baseIntRx));
    }

    /** Appends a row; the twentieth pushes the oldest one out. */
    method PushRow(ts: U64, extTx: U64, extRx: U64, intTx: U64, intRx: U64)
      requires Separate() && 0 <= index < 20
      modifies this`index, Columns()
      ensures index == if old(index) == 19 then 19 else old(index) + 1
      ensures RowAt(index - 1) == Row(ts, extTx, extRx, intTx, intRx)
      ensures forall k :: 0 <= k < index - 1 ==>
                RowAt(k) == if old(index) == 19 then old(RowAt(k + 1)) else old(RowAt(k))
    {
      WriteRow(ts, extTx, extRx, intTx, intRx);
      index := index + 1;
      if index == 20 {
        ShiftColumns();
        index := index - 1;
      }
    }

    /** The five column writes at the current index. */
    method WriteRow(ts: U64, extTx: U64, extRx: U64, intTx: U64, intRx: U64)
      requires Separate() && 0 <= index < 20
      modifies Columns()
      ensures RowAt(index) == Row(ts, extTx, extRx, intTx, intRx)
      ensures forall k :: 0 <= k < 20 && k != index ==> RowAt(k) == old(RowAt(k))
    {
      timestamps[index] := ts;
      intTxs[index] := intTx;
      intRxs[index] := intRx;
      extTxs[index] := extTx;
      extRxs[index] := extRx;
    }

    /** All five columns move down together. */
    method ShiftColumns()
      requires Separate()
      modifies Columns()
      ensures forall k :: 0 <= k < 19 ==> RowAt(k) == old(RowAt(k + 1))
    {
      ShiftDown(timestamps);
      ShiftDown(extTxs);
      ShiftDown(extRxs);
      ShiftDown(intTxs);
      ShiftDown(intRxs);
    }

    /** Appends the visible rows to the block, external and internal columns side by side. */
    method Get(stats: StatsBlock)
      requires Valid()
      modifies stats
      ensures stats.modified == lastUpdate
      ensures stats.external == old(stats.external) + ExternalPart(Window(history))
      ensures stats.internal == old(stats.internal) + InternalPart(Window(history))
      ensures ExternalRows(stats.external[|old(stats.external)|..], history)
      ensures InternalRows(stats.internal[|old(stats.internal)|..], history)
    {
      ghost var w := Window(history);
      stats.modified := lastUpdate;
      for i := 0 to index
        invariant stats.modified == lastUpdate
        invariant stats.external == old(stats.external) + ExternalPart(w[..i])
        invariant stats.internal == old(stats.internal) + InternalPart(w[..i])
      {
        assert RowAt(i) == w[i];
        assert w[..i + 1] == w[..i] + [w[i]];
        stats.external := stats.external + [(timestamps[i], extTxs[i], extRxs[i])];
        stats.internal := stats.internal + [(timestamps[i], intTxs[i], intRxs[i])];
      }
      assert w[..index] == w;
      assert stats.external[|old(stats.external)|..] == ExternalPart(w);
      assert stats.internal[|old(stats.internal)|..] == InternalPart(w);
      PartsAreRows(history);
    }
  }

  /** Time stamp, bytes sent and bytes received on the external side between two samples. */
  function ExternalRow(s: Sample, before: Sample): (U64, U64, U64) {
    (s.ts, (s.extTx - before.extTx) % 0x1_0000_0000_0000_0000, (s.extRx - before.extRx) % 0x1_0000_0000_0000_0000)
  }

  function InternalRow(s: Sample, before: Sample): (U64, U64, U64) {
    (s.ts, (s.intTx - before.intTx) % 0x1_0000_0000_0000_0000, (s.intRx - before.intRx) % 0x1_0000_0000_0000_0000)
  }

  /** The rows of the last samples, each against the sample before it. */
  predicate ExternalRows(rows: seq<(U64, U64, U64)>, h: seq<Sample>) {
    && |rows| == Visible(|h|)
    && forall k :: 0 <= k < |rows| ==> rows[k] == ExternalRow(h[|h| - |rows| + k], h[|h| - |rows| + k - 1])
  }

  predicate InternalRows(rows: seq<(U64, U64, U64)>, h: seq<Sample>) {
    && |rows| == Visible(|h|)
    && forall k :: 0 <= k < |rows| ==> rows[k] == InternalRow(h[|h| - |rows| + k], h[|h| - |rows| + k - 1])
  }

  lemma PartsAreRows(h: seq<Sample>)
    ensures ExternalRows(ExternalPart(Window(h)), h) && InternalRows(InternalPart(Window(h)), h)
  {
    var w := Window(h);
    var n := |h| - Visible(|h|);
    forall k | 0 <= k < |w|
      ensures ExternalPart(w)[k] == ExternalRow(h[n + k], h[n + k - 1])
      ensures InternalPart(w)[k] == InternalRow(h[n + k], h[n + k - 1])
    {
      assert w[k] == Delta(h[n + k], h[n + k - 1]);
    }
  }

  function ExternalPart(rows: seq<Row>): seq<(U64, U64, U64)> {
    seq(|rows|, k requires 0 <= k < |rows| => (rows[k].ts, rows[k].extTx, rows[k].extRx))
  }

  function InternalPart(rows: seq<Row>): seq<(U64, U64, U64)> {
    seq(|rows|, k requires 0 <= k < |rows| => (rows[k].ts, rows[k].intTx, rows[k].intRx))
  }

  /** One more sample: a row is appended, and the oldest dropped once nineteen are visible. */
  lemma WindowGrows(h: seq<Sample>, s: Sample)
    requires h != []
    ensures var n := Visible(|h|);
            var w, w' := Window(h), Window(h + [s]);
            && Visible(|h| + 1) == (if n == 19 then 19 else n + 1)
            && w'[|w'| - 1] == Delta(s, h[|h| - 1])
            && forall k :: 0 <= k < |w'| - 1 ==> w'[k] == if n == 19 then w[k + 1] else w[k]
  {
    var h' := h + [s];
    assert h'[|h|] == s;
  }

  // ---------------------------------------------------------------- counters are conserved

  datatype Counter = ExtTx | ExtRx | IntTx | IntRx

  function Reading(c: Counter, s: Sample): int {
    match c case ExtTx => s.extTx case ExtRx => s.extRx case IntTx => s.intTx case IntRx => s.intRx
  }

  function Moved(c: Counter, r: Row): int {
    match c case ExtTx => r.extTx case ExtRx => r.extRx case IntTx => r.intTx case IntRx => r.intRx
  }

  function Total(c: Counter, rows: seq<Row>): int {
    if rows == [] then 0 else Total(c, rows[..|rows| - 1]) + Moved(c, rows[|rows| - 1])
  }

  /** A stored delta agrees with the true counter movement modulo 2^32, and exactly unless the counter fell. */
  lemma DeltaIsFaithful(now: U64, before: U64)
    ensures var stored := Sub64(Trunc32(now), Trunc32(before));
            && stored % 0x1_0000_0000 == (now - before) % 0x1_0000_0000
            && (Trunc32(now) >= Trunc32(before) ==> stored == Trunc32(now) - Trunc32(before))
            && (Trunc32(now) < Trunc32(before) ==>
                  stored == Trunc32(now) - Trunc32(before) + 0x1_0000_0000_0000_0000)
  {
    var m := 0x1_0000_0000;
    var diff: int := Trunc32(now) as int - Trunc32(before) as int;
    var r := (now - before) % m;
    assert now - before == m * (now / m - before / m) + diff;
    DivModUnique(diff, m, (now - before) / m - (now / m - before / m), r);
    if diff < 0 {
      var stored := diff + 0x1_0000_0000_0000_0000;
      DivModUnique(diff, 0x1_0000_0000_0000_0000, -1, stored);
      DivModUnique(stored, m, diff / m + m, r);
    }
  }

  lemma Sub64Congruent(a: int, b: int)
    ensures exists k: int :: Sub64(a, b) == a - b + 0x1_0000_0000_0000_0000 * k
  {
    assert Sub64(a, b) == a - b + 0x1_0000_0000_0000_0000 * (-((a - b) / 0x1_0000_0000_0000_0000));
  }

  lemma {:induction false} TotalTelescopes(c: Counter, h: seq<Sample>, k: nat)
    requires h != [] && k <= Visible(|h|)
    ensures var first := |h| - Visible(|h|) - 1;
            exists q: int :: Total(c, Window(h)[..k])
                             == Reading(c, h[first + k]) - Reading(c, h[first]) + 0x1_0000_0000_0000_0000 * q
  {
    var first := |h| - Visible(|h|) - 1;
    if k == 0 {
      assert Total(c, Window(h)[..0]) == Reading(c, h[first]) - Reading(c, h[first]) + 0x1_0000_0000_0000_0000 * 0;
    } else {
      TotalTelescopes(c, h, k - 1);
      var q: int :| Total(c, Window(h)[..k - 1])
                    == Reading(c, h[first + k - 1]) - Reading(c, h[first]) + 0x1_0000_0000_0000_0000 * q;
      var row := Window(h)[k - 1];
      assert row == Delta(h[first + k], h[first + k - 1]);
      Sub64Congruent(Reading(c, h[first + k]), Reading(c, h[first + k - 1]));
      var p: int :| Sub64(Reading(c, h[first + k]), Reading(c, h[first + k - 1]))
                    == Reading(c, h[first + k]) - Reading(c, h[first + k - 1]) + 0x1_0000_0000_0000_0000 * p;
      assert Window(h)[..k] == Window(h)[..k - 1] + [row];
      assert Moved(c, row) == Sub64(Reading(c, h[first + k]), Reading(c, h[first + k - 1]));
      assert Total(c, Window(h)[..k])
             == Reading(c, h[first + k]) - Reading(c, h[first]) + 0x1_0000_0000_0000_0000 * (p + q);
    }
  }

  /** The visible deltas of each counter add up, modulo 2^64, to its movement over the visible span. */
  lemma WindowConserves(c: Counter, h: seq<Sample>)
    requires h != []
    ensures Total(c, Window(h)) % 0x1_0000_0000_0000_0000
            == Sub64(Reading(c, h[|h| - 1]), Reading(c, h[|h| - 1 - Visible(|h|)]))
  {
    var m := 0x1_0000_0000_0000_0000;
    TotalTelescopes(c, h, Visible(|h|));
    assert Window(h)[..Visible(|h|)] == Window(h);
    var x := Reading(c, h[|h| - 1]) - Reading(c, h[|h| - 1 - Visible(|h|)]);
    var q: int :| Total(c, Window(h)) == x + 0x1_0000_0000_0000_0000 * q;
    DivModUnique(Total(c, Window(h)), m, x / m + q, x % m);
  }

  // ---------------------------------------------------------------- routing samples to devices

  /** One interface of a state message: where it is and, if both present, its byte counters. */
  datatype Interface = Interface(location: Option<string>, counters: Option<Counters>)
  datatype Counters = Counters(rx: U64, tx: U64)

  /** External unless the location has three parts and the last is not "0". */
  predicate IsExternal(i: Interface) {
    match i.location
    case None => true
    case Some(location) =>
      var parts := Split(location, '/');
      |parts| == 3 ==> parts[2] == "0"
  }

  /** The counters of the last interface on one side that reports any; zero if none does. */
  function LastCounters(ifaces: seq<Interface>, external: bool): Counters {
    if ifaces == [] then Counters(0, 0)
    else
      var last := ifaces[|ifaces| - 1];
      if last.counters.Some? && IsExternal(last) == external then last.counters.value
      else LastCounters(ifaces[..|ifaces| - 1], external)
  }

  lemma OneOrTwoParts(a: string, b: string)
    requires '/' !in a && '/' !in b
    ensures |Split(a, '/')| < 3 && |Split(a + "/" + b, '/')| == 2
  {
    SplitHead(a, b, '/');
    SplitHead(b, b, '/');
  }

  lemma TwoParts(a: string, b: string, rest: string, tail: string)
    requires '/' !in a && '/' !in b && tail == b + "/" + rest
    ensures Split(a + "/" + tail, '/') == [a] + ([b] + SplitFrom(rest, '/'))
  {
    SplitHead(b, rest, '/');
    SplitHead(a, tail, '/');
  }

  /** A location of three parts is external exactly when the last is "0"; any other location, or none, is external. */
  lemma Sides(a: string, b: string, c: string, d: string, counters: Option<Counters>)
    requires '/' !in a && '/' !in b && '/' !in c
    ensures IsExternal(Interface(None, counters))
    ensures IsExternal(Interface(Some(a + "/" + (b + "/" + c)), counters)) <==> c == "0"
    ensures IsExternal(Interface(Some(a), counters)) && IsExternal(Interface(Some(a + "/" + b), counters))
    ensures IsExternal(Interface(Some(a + "/" + (b + "/" + (c + "/" + d))), counters))
  {
    OneOrTwoParts(a, b);
    SplitHead(c, d, '/');
    TwoParts(a, b, c, b + "/" + c);
    TwoParts(a, b, c + "/" + d, b + "/" + (c + "/" + d));
  }

  method ReadCounters(interfaces: seq<Interface>) returns (extTx: U64, extRx: U64, intTx: U64, intRx: U64)
    ensures LastCounters(interfaces, true) == Counters(extRx, extTx)
    ensures LastCounters(interfaces, false) == Counters(intRx, intTx)
  {
    intRx, intTx, extRx, extTx := 0, 0, 0, 0;
    for i := 0 to |interfaces|
      invariant LastCounters(interfaces[..i], true) == Counters(extRx, extTx)
      invariant LastCounters(interfaces[..i], false) == Counters(intRx, intTx)
    {
      var cur := interfaces[i];
      assert interfaces[..i + 1][..i] == interfaces[..i];
      var externalStats := true;
      if cur.location.Some? {
        var parts := Split(cur.location.value, '/');
        if |parts| == 3 {
          externalStats := parts[2] == "0";
        }
      }
      if cur.counters.Some? {
        if externalStats {
          extRx, extTx := cur.counters.value.rx, cur.counters.value.tx;
        } else {
          intRx, intTx := cur.counters.value.rx, cur.counters.value.tx;
        }
      }
    }
    assert interfaces[..|interfaces|] == interfaces;
  }

  /** The sample a state message contributes: last counters per side, cut to 32 bits. */
  function SampleOf(ts: U64, ifaces: seq<Interface>): Sample {
    var ext, int_ := LastCounters(ifaces, true), LastCounters(ifaces, false);
    Sample(ts, Trunc32(ext.tx), Trunc32(ext.rx), Trunc32(int_.tx), Trunc32(int_.rx))
  }

  lemma LastCountersSnoc(ifaces: seq<Interface>, i: Interface, external: bool)
    ensures LastCounters(ifaces + [i], external)
            == if i.counters.Some? && IsExternal(i) == external then i.counters.value else LastCounters(ifaces, external)
  {
    assert (ifaces + [i])[..|ifaces|] == ifaces;
  }

  /** The sample of a message whose last reporting interfaces, in either order, are one external and one internal. */
  lemma SampleOfBothSides(ts: U64, before: seq<Interface>, e: Interface, i: Interface)
    requires e.counters.Some? && i.counters.Some? && IsExternal(e) && !IsExternal(i)
    ensures var sample := Sample(ts, e.counters.value.tx % 0x1_0000_0000, e.counters.value.rx % 0x1_0000_0000,
                                 i.counters.value.tx % 0x1_0000_0000, i.counters.value.rx % 0x1_0000_0000);
            SampleOf(ts, before + [e] + [i]) == sample && SampleOf(ts, before + [i] + [e]) == sample
  {
    LastCountersSnoc(before + [e], i, true);
    LastCountersSnoc(before + [e], i, false);
    LastCountersSnoc(before, e, true);
    LastCountersSnoc(before + [i], e, true);
    LastCountersSnoc(before + [i], e, false);
    LastCountersSnoc(before, i, false);
  }

  /** A device's samples in arrival order, and when it last gained a row. */
  datatype DeviceState = DeviceState(history: seq<Sample>, lastUpdate: int)

  function After(d: DeviceState, s: Sample, now: int): DeviceState {
    DeviceState(d.history + [s], if d.history == [] then d.lastUpdate else now)
  }

  class StatsServer {
    var devices: map<nat, DeviceStats>

    ghost function Footprint(): set<object>
      reads this
    {
      set k, o | k in devices && o in devices[k].Repr() :: o
    }

    /** Each device is intact and no storage is shared. */
    ghost predicate Valid()
      reads this, Footprint()
    {
      && (forall k :: k in devices ==> devices[k].Valid())
      && Unshared()
    }

    ghost predicate Unshared()
      reads this
    {
      forall j, k :: j in devices && k in devices && j != k ==> devices[j].Repr() !! devices[k].Repr()
    }

    /** What the server knows of a device; nothing of one never heard of. */
    ghost function StateOf(serial: nat): DeviceState
      reads this, set k | k in devices :: devices[k]
    {
      if serial in devices then DeviceState(devices[serial].history, devices[serial].lastUpdate) else DeviceState([], 0)
    }

    constructor ()
      ensures Valid() && forall k :: StateOf(k) == DeviceState([], 0)
    {
      devices := map[];
    }

    /** A well-formed state message: its sample goes to its own device and to no other. */
    method Receive(serial: nat, ts: U64, interfaces: seq<Interface>, now: int)
      requires Valid()
      modifies this, Footprint()
      ensures Valid()
      ensures StateOf(serial) == After(old(StateOf(serial)), SampleOf(ts, interfaces), now)
      ensures forall k :: k != serial ==> StateOf(k) == old(StateOf(k))
    {
      var extTx, extRx, intTx, intRx := ReadCounters(interfaces);
      assert SampleOf(ts, interfaces) == Sample(ts, Trunc32(extTx), Trunc32(extRx), Trunc32(intTx), Trunc32(intRx));
      if serial !in devices {
        AddDevice(serial, ts, Trunc32(extTx), Trunc32(extRx), Trunc32(intTx), Trunc32(intRx), now);
      } else {
        AddToDevice(serial, ts, Trunc32(extTx), Trunc32(extRx), Trunc32(intTx), Trunc32(intRx), now);
      }
    }

    method AddToDevice(serial: nat, ts: U64, extTx: U32, extRx: U32, intTx: U32, intRx: U32, now: int)
      requires Valid() && serial in devices
      modifies devices[serial].Repr()
      ensures devices == old(devices) && Valid()
      ensures StateOf(serial) == After(old(StateOf(serial)), Sample(ts, extTx, extRx, intTx, intRx), now)
      ensures forall k :: k != serial ==> StateOf(k) == old(StateOf(k))
    {
      devices[serial].AddValue(ts, extTx, extRx, intTx, intRx, now);
      forall k | k in devices && k != serial
        ensures devices[k].Valid() && devices[k].history == old(devices[k].history)
        ensures devices[k].lastUpdate == old(devices[k].lastUpdate)
      {
        assert devices[k].Repr() !! devices[serial].Repr();
      }
    }

    method AddDevice(serial: nat, ts: U64, extTx: U32, extRx: U32, intTx: U32, intRx: U32, now: int)
      requires Valid() && serial !in devices
      modifies this`devices
      ensures Valid()
      ensures StateOf(serial) == After(old(StateOf(serial)), Sample(ts, extTx, extRx, intTx, intRx), now)
      ensures forall k :: k != serial ==> StateOf(k) == old(StateOf(k))
    {
      var d := NewDevice(ts, extTx, extRx, intTx, intRx, now);
      forall k | k in devices ensures devices[k].Repr() !! d.Repr() && devices[k].Valid() {
        assert forall o :: o in devices[k].Repr() ==> old(allocated(o));
      }
      Insert(serial, d);
    }

    method Insert(serial: nat, d: DeviceStats)
      requires Valid() && serial !in devices && d.Valid()
      requires forall k :: k in devices ==> devices[k].Repr() !! d.Repr()
      modifies this`devices
      ensures devices == old(devices)[serial := d] && Valid()
      ensures StateOf(serial) == DeviceState(d.history, d.lastUpdate)
      ensures forall k :: k != serial ==> StateOf(k) == old(StateOf(k))
    {
      devices := devices[serial := d];
    }

    method NewDevice(ts: U64, extTx: U32, extRx: U32, intTx: U32, intRx: U32, now: int) returns (d: DeviceStats)
      ensures d.Valid() && fresh(d.Repr()) && d.history == [Sample(ts, extTx, extRx, intTx, intRx)]
      ensures d.lastUpdate == 0
    {
      d := new DeviceStats();
      d.AddValue(ts, extTx, extRx, intTx, intRx, now);
    }

    /** An unknown device leaves the block alone; a known one appends the window of its own history. */
    method Get(serial: nat, stats: StatsBlock)
      requires Valid()
      modifies stats
      ensures serial !in devices ==> unchanged(stats)
      ensures serial in devices ==> stats.modified == StateOf(serial).lastUpdate
      ensures stats.external == old(stats.external) + ExternalPart(Window(StateOf(serial).history))
      ensures stats.internal == old(stats.internal) + InternalPart(Window(StateOf(serial).history))
    {
      if serial !in devices {
        return;
      }
      devices[serial].Get(stats);
    }
  }
}
