/**
 * `get_metrics`: per-CPU usage copied, memory and swap counters rendered by
 * `format_memory_size`, and four network counters summed over all interfaces.
 */
module Metrics {
  import opened Uint
  import opened Format

  /** One interface's counters: since the previous sample, and since boot. */
  datatype NetworkData = NetworkData(received: U64, totalReceived: U64, transmitted: U64, totalTransmitted: U64)

  datatype Counter = Received | TotalReceived | Transmitted | TotalTransmitted

  function Count(n: NetworkData, c: Counter): U64
  {
    match c
    case Received => n.received
    case TotalReceived => n.totalReceived
    case Transmitted => n.transmitted
    case TotalTransmitted => n.totalTransmitted
  }

  /** The exact total of one counter over a list of interfaces. */
  function Sum(ns: seq<NetworkData>, c: Counter): nat
  {
    if ns == [] then 0 else Count(ns[0], c) + Sum(ns[1..], c)
  }

  lemma {:induction false} SumAppend(a: seq<NetworkData>, b: seq<NetworkData>, c: Counter)
    ensures Sum(a + b, c) == Sum(a, c) + Sum(b, c)
  {
    if a == [] {
      assert a + b == b;
    } else {
      SumAppend(a[1..], b, c);
      assert (a + b)[1..] == a[1..] + b;
    }
  }

  /** Taking one interface out of the list takes its count out of the total. */
  lemma SumRemove(ms: seq<NetworkData>, i: nat, c: Counter)
    requires i < |ms|
    ensures Sum(ms, c) == Count(ms[i], c) + Sum(ms[..i] + ms[i + 1..], c)
  {
    assert ms == ms[..i] + [ms[i]] + ms[i + 1..];
    SumAppend(ms[..i] + [ms[i]], ms[i + 1..], c);
    SumAppend(ms[..i], [ms[i]], c);
    SumAppend(ms[..i], ms[i + 1..], c);
  }

  lemma MultisetRemove(ns: seq<NetworkData>, ms: seq<NetworkData>, i: nat)
    requires ns != [] && i < |ms| && ms[i] == ns[0] && multiset(ns) == multiset(ms)
    ensures multiset(ns[1..]) == multiset(ms[..i] + ms[i + 1..])
  {
    assert ns == [ns[0]] + ns[1..];
    assert ms == ms[..i] + [ms[i]] + ms[i + 1..];
    var rest := ms[..i] + ms[i + 1..];
    assert multiset(ms) == multiset(rest) + multiset{ms[i]};
    assert multiset(ns) == multiset(ns[1..]) + multiset{ns[0]};
    assert multiset(ns[1..]) == multiset(ns) - multiset{ns[0]};
    assert multiset(rest) == multiset(ms) - multiset{ms[i]};
  }

  /** The interfaces' enumeration order does not change a total. */
  lemma {:induction false} SumPermutation(ns: seq<NetworkData>, ms: seq<NetworkData>, c: Counter)
    requires multiset(ns) == multiset(ms)
    ensures Sum(ns, c) == Sum(ms, c)
    decreases |ns|
  {
    if ns == [] {
      assert |ms| == |multiset(ms)| == 0;
    } else {
      assert ns[0] in multiset(ms);
      var i :| 0 <= i < |ms| && ms[i] == ns[0];
      SumRemove(ms, i, c);
      MultisetRemove(ns, ms, i);
      SumPermutation(ns[1..], ms[..i] + ms[i + 1..], c);
    }
  }

  /** Reducing the running total first does not change the result modulo 2^64. */
  lemma ModAddLeft(a: nat, b: nat)
    ensures (a % U64_MODULUS + b) % U64_MODULUS == (a + b) % U64_MODULUS
  {
    var q := a / U64_MODULUS;
    assert a + b == q * U64_MODULUS + (a % U64_MODULUS + b);
    ModMultiple(a % U64_MODULUS + b, q);
  }

  lemma {:induction false} ModMultiple(x: nat, q: nat)
    ensures (q * U64_MODULUS + x) % U64_MODULUS == x % U64_MODULUS
  {
    if q > 0 {
      ModMultiple(x, q - 1);
      assert q * U64_MODULUS + x == ((q - 1) * U64_MODULUS + x) + U64_MODULUS;
    }
  }

  /**
   * `network.iter().map(..).sum()` over u64: a left fold of additions that wrap modulo 2^64
   * (overflow checks are off in a release build).
   */
  function Total(ns: seq<NetworkData>, c: Counter): (r: U64)
    ensures r == Sum(ns, c) % U64_MODULUS
    ensures Sum(ns, c) < U64_MODULUS ==> r == Sum(ns, c)
  {
    if ns == [] then 0
    else
      var init := ns[..|ns| - 1];
      assert ns == init + [ns[|ns| - 1]];
      SumAppend(init, [ns[|ns| - 1]], c);
      ModAddLeft(Sum(init, c), Count(ns[|ns| - 1], c));
      WrappingAdd(Total(init, c), Count(ns[|ns| - 1], c))
  }

  /** The counters one refresh of the system and of the network list reports. */
  datatype Snapshot = Snapshot(
    cpus: seq<real>,
    usedMemory: U64, totalMemory: U64, freeMemory: U64,
    usedSwap: U64, totalSwap: U64, freeSwap: U64,
    networks: seq<NetworkData>)

  /** The record `get_metrics` returns (`SysMetrics`). */
  datatype SysMetrics = SysMetrics(
    cpus: seq<real>,
    usedMemory: string, totalMemory: string, freeMemory: string,
    usedSwap: string, totalSwap: string, freeSwap: string,
    received: U64, totalReceived: U64, transmitted: U64, totalTransmitted: U64)

  /** `get_metrics` as written: `total_swap` is rendered from the used swap counter. */
  function GetMetricsAsWritten(s: Snapshot, fixed2: real -> string): (m: SysMetrics)
    ensures m.cpus == s.cpus
    ensures m.usedMemory == FormatMemorySize(s.usedMemory, fixed2)
    ensures m.totalMemory == FormatMemorySize(s.totalMemory, fixed2)
    ensures m.freeMemory == FormatMemorySize(s.freeMemory, fixed2)
    ensures m.usedSwap == FormatMemorySize(s.usedSwap, fixed2)
    ensures m.totalSwap == FormatMemorySize(s.usedSwap, fixed2)
    ensures m.freeSwap == FormatMemorySize(s.freeSwap, fixed2)
    ensures m.received == Sum(s.networks, Received) % U64_MODULUS
    ensures m.totalReceived == Sum(s.networks, TotalReceived) % U64_MODULUS
    ensures m.transmitted == Sum(s.networks, Transmitted) % U64_MODULUS
    ensures m.totalTransmitted == Sum(s.networks, TotalTransmitted) % U64_MODULUS
  {
    SysMetrics(
      s.cpus,
      FormatMemorySize(s.usedMemory, fixed2),
      FormatMemorySize(s.totalMemory, fixed2),
      FormatMemorySize(s.freeMemory, fixed2),
      FormatMemorySize(s.usedSwap, fixed2),
      FormatMemorySize(s.usedSwap, fixed2),
      FormatMemorySize(s.freeSwap, fixed2),
      Total(s.networks, Received),
      Total(s.networks, TotalReceived),
      Total(s.networks, Transmitted),
      Total(s.networks, TotalTransmitted))
  }

  /** With 2 GiB of swap of which none is used, `total_swap` reads in bytes, not in GB. */
  lemma TotalSwapShowsUsedSwap(fixed2: real -> string)
    ensures var s := Snapshot([], 0, 0, 0, 0, 2 * Scale(GB), 2 * Scale(GB), []);
      && SelectUnit(s.totalSwap) == GB
      && ParseUnit(GetMetricsAsWritten(s, fixed2).totalSwap) == Bytes
  {
    var s := Snapshot([], 0, 0, 0, 0, 2 * Scale(GB), 2 * Scale(GB), []);
    ParseUnitOfFormat(s.usedSwap, fixed2);
  }

  /** `get_metrics` with `total_swap` rendered from the total swap counter. */
  function GetMetrics(s: Snapshot, fixed2: real -> string): (m: SysMetrics)
    ensures m == GetMetricsAsWritten(s, fixed2).(totalSwap := m.totalSwap)
    ensures m.totalSwap == FormatMemorySize(s.totalSwap, fixed2)
    ensures ParseUnit(m.totalSwap) == SelectUnit(s.totalSwap)
  {
    ParseUnitOfFormat(s.totalSwap, fixed2);
    GetMetricsAsWritten(s, fixed2).(totalSwap := FormatMemorySize(s.totalSwap, fixed2))
  }

  /** Every memory and swap field is shown in the unit its own counter selects. */
  lemma MetricsUnits(s: Snapshot, fixed2: real -> string)
    ensures var m := GetMetrics(s, fixed2);
      && ParseUnit(m.usedMemory) == SelectUnit(s.usedMemory)
      && ParseUnit(m.totalMemory) == SelectUnit(s.totalMemory)
      && ParseUnit(m.freeMemory) == SelectUnit(s.freeMemory)
      && ParseUnit(m.usedSwap) == SelectUnit(s.usedSwap)
      && ParseUnit(m.totalSwap) == SelectUnit(s.totalSwap)
      && ParseUnit(m.freeSwap) == SelectUnit(s.freeSwap)
  {
    ParseUnitOfFormat(s.usedMemory, fixed2);
    ParseUnitOfFormat(s.totalMemory, fixed2);
    ParseUnitOfFormat(s.freeMemory, fixed2);
    ParseUnitOfFormat(s.usedSwap, fixed2);
    ParseUnitOfFormat(s.freeSwap, fixed2);
  }

  /**
   * Each network field is the total of its counter over all interfaces modulo 2^64, whatever
   * order the interfaces are listed in; the total itself when it fits in u64.
   */
  lemma NetworkTotals(s: Snapshot, fixed2: real -> string, c: Counter, reordered: seq<NetworkData>)
    requires multiset(reordered) == multiset(s.networks)
    ensures var m := GetMetrics(s, fixed2);
      var field := match c
        case Received => m.received
        case TotalReceived => m.totalReceived
        case Transmitted => m.transmitted
        case TotalTransmitted => m.totalTransmitted;
      && field == Sum(reordered, c) % U64_MODULUS
      && (Sum(reordered, c) < U64_MODULUS ==> field == Sum(reordered, c))
  {
    SumPermutation(reordered, s.networks, c);
  }
}
