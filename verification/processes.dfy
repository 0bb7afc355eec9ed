/**
 * `process_info` and `kill_process`: the two commands over the process table.
 *
 * The process table that `System::refresh_all` produces is an input: for `process_info`
 * the entries in the order the table's iterator yields them, for `kill_process` the table
 * as a map from pid to process.
 */
module Processes {
  import opened Wrappers
  import opened Uint
  import opened Text

  type Pid = nat

  /** What the process table reports about one process. `cpu` is the f32 usage, copied as is. */
  datatype Process = Process(name: string, cpu: real, memory: U64, readBytes: U64, writtenBytes: U64)

  /** The record `process_info` returns per process (`ProccessInfo` in the source). */
  datatype ProcessInfo = ProcessInfo(id: string, name: string, cpu: real, memory: U64, diskRead: U64, diskWrite: U64)

  /** `x / 1024 / 1024`: whole megabytes (2^20 bytes), rounded down. */
  function ToMegabytes(x: U64): (m: U64)
    ensures m * 0x10_0000 <= x < m * 0x10_0000 + 0x10_0000
    ensures m <= x
  {
    var k := x / 1024;
    assert k * 1024 <= x < k * 1024 + 1024;
    var m := k / 1024;
    assert m * 1024 <= k < m * 1024 + 1024;
    m
  }

  /** The `map` closure: one record per table entry. */
  function Render(pid: Pid, p: Process): (r: ProcessInfo)
    ensures r.name == p.name && r.cpu == p.cpu
    ensures IsDecimal(r.id) && ParseDecimal(r.id) == pid
    ensures r.memory * 0x10_0000 <= p.memory < r.memory * 0x10_0000 + 0x10_0000
    ensures r.diskRead * 0x10_0000 <= p.readBytes < r.diskRead * 0x10_0000 + 0x10_0000
    ensures r.diskWrite * 0x10_0000 <= p.writtenBytes < r.diskWrite * 0x10_0000 + 0x10_0000
  {
    ParseDecimalString(pid);
    ProcessInfo(DecimalString(pid), p.name, p.cpu,
                ToMegabytes(p.memory), ToMegabytes(p.readBytes), ToMegabytes(p.writtenBytes))
  }

  /** The `filter` closure: no filter keeps everything, a filter keeps names starting with it. */
  predicate Keep(filter: Option<string>, name: string)
    ensures filter.None? ==> Keep(filter, name)
    ensures filter.Some? ==> (Keep(filter, name) <==> filter.value <= name)
  {
    match filter
    case None => true
    case Some(prefix) => StartsWith(name, prefix)
  }

  /** The `map(..).filter(..).collect()` chain, in enumeration order. */
  function Collect(table: seq<(Pid, Process)>, filter: Option<string>): (r: seq<ProcessInfo>)
    ensures forall i :: 0 <= i < |r| ==> Keep(filter, r[i].name)
  {
    if table == [] then []
    else
      var rest := Collect(table[1..], filter);
      var info := Render(table[0].0, table[0].1);
      if Keep(filter, info.name) then [info] + rest else rest
  }

  /** Every collected record renders a table entry whose name the filter keeps. */
  lemma {:induction false} CollectSound(table: seq<(Pid, Process)>, filter: Option<string>, x: ProcessInfo)
    returns (i: nat)
    requires x in Collect(table, filter)
    ensures i < |table| && x == Render(table[i].0, table[i].1) && Keep(filter, table[i].1.name)
  {
    var rest := Collect(table[1..], filter);
    if x in rest {
      var j := CollectSound(table[1..], filter, x);
      assert table[1..][j] == table[j + 1];
      i := j + 1;
    } else {
      i := 0;
    }
  }

  /** Every table entry whose name the filter keeps is collected. */
  lemma {:induction false} CollectComplete(table: seq<(Pid, Process)>, filter: Option<string>, i: nat)
    requires i < |table| && Keep(filter, table[i].1.name)
    ensures Render(table[i].0, table[i].1) in Collect(table, filter)
  {
    if i > 0 {
      assert table[1..][i - 1] == table[i];
      CollectComplete(table[1..], filter, i - 1);
    }
  }

  /** Without a filter nothing is dropped: one record per table entry, in order. */
  lemma {:induction false} CollectUnfiltered(table: seq<(Pid, Process)>)
    ensures |Collect(table, None)| == |table|
    ensures forall i :: 0 <= i < |table| ==> Collect(table, None)[i] == Render(table[i].0, table[i].1)
  {
    if table != [] {
      CollectUnfiltered(table[1..]);
    }
  }

  // ---------------------------------------------------------------------------------
  // Ordering by name

  predicate SortedByName(s: seq<ProcessInfo>)
  {
    forall i, j :: 0 <= i < j < |s| ==> LexLe(s[i].name, s[j].name)
  }

  /** The records named `k`, in the order they appear in `s`. */
  function WithName(s: seq<ProcessInfo>, k: string): seq<ProcessInfo>
  {
    if s == [] then []
    else (if s[0].name == k then [s[0]] else []) + WithName(s[1..], k)
  }

  /**
   * What a stable sort by name promises: `r` is sorted and, for every name, the records
   * carrying that name come in the same order as in `s`.
   */
  ghost predicate StablySortedFrom(r: seq<ProcessInfo>, s: seq<ProcessInfo>)
  {
    SortedByName(r) && SameGroups(r, s)
  }

  lemma {:induction false} WithNameAppend(a: seq<ProcessInfo>, b: seq<ProcessInfo>, k: string)
    ensures WithName(a + b, k) == WithName(a, k) + WithName(b, k)
  {
    if a == [] {
      assert a + b == b;
    } else {
      var c := a + b;
      var head := if a[0].name == k then [a[0]] else [];
      assert c != [] && c[0] == a[0];
      assert c[1..] == a[1..] + b;
      assert WithName(c, k) == head + WithName(a[1..] + b, k);
      WithNameAppend(a[1..], b, k);
      assert WithName(a, k) == head + WithName(a[1..], k);
    }
  }

  /** `r` and `s` hold the same records, and for every name in the same order. */
  ghost predicate SameGroups(r: seq<ProcessInfo>, s: seq<ProcessInfo>)
  {
    multiset(r) == multiset(s) && forall k :: WithName(r, k) == WithName(s, k)
  }

  lemma SameGroupsTransitive(a: seq<ProcessInfo>, b: seq<ProcessInfo>, c: seq<ProcessInfo>)
    requires SameGroups(a, b) && SameGroups(b, c)
    ensures SameGroups(a, c)
  {
  }

  /** `s` with its neighbours at `j - 1` and `j` exchanged. */
  function Swapped(s: seq<ProcessInfo>, j: nat): (r: seq<ProcessInfo>)
    requires 0 < j < |s|
    ensures |r| == |s| && r[j - 1] == s[j] && r[j] == s[j - 1]
    ensures forall p :: 0 <= p < |s| && p != j - 1 && p != j ==> r[p] == s[p]
  {
    s[..j - 1] + [s[j], s[j - 1]] + s[j + 1..]
  }

  lemma SwapKeepsGroup(s: seq<ProcessInfo>, j: nat, k: string)
    requires 0 < j < |s| && s[j - 1].name != s[j].name
    ensures WithName(Swapped(s, j), k) == WithName(s, k)
  {
    var pre, x, y, post := s[..j - 1], s[j - 1], s[j], s[j + 1..];
    assert s == pre + ([x, y] + post);
    assert Swapped(s, j) == pre + ([y, x] + post);
    WithNameAppend(pre, [x, y] + post, k);
    WithNameAppend(pre, [y, x] + post, k);
    WithNameAppend([x, y], post, k);
    WithNameAppend([y, x], post, k);
    assert WithName([x, y], k) == WithName([y, x], k) by {
      assert [x, y][1..] == [y];
      assert [y, x][1..] == [x];
      assert [y][1..] == [] && [x][1..] == [];
    }
  }

  /** Exchanging two neighbours with different names keeps every name's subsequence. */
  lemma SwapSameGroups(s: seq<ProcessInfo>, j: nat)
    requires 0 < j < |s| && s[j - 1].name != s[j].name
    ensures SameGroups(Swapped(s, j), s)
  {
    forall k
      ensures WithName(Swapped(s, j), k) == WithName(s, k)
    {
      SwapKeepsGroup(s, j, k);
    }
    assert s == s[..j - 1] + [s[j - 1], s[j]] + s[j + 1..];
  }

  method SwapDown(a: array<ProcessInfo>, j: nat)
    requires 0 < j < a.Length
    modifies a
    ensures a[..] == Swapped(old(a[..]), j)
  {
    a[j - 1], a[j] := a[j], a[j - 1];
  }

  /**
   * Insertion of `s[j]` in progress: apart from position `j`, `s[..i + 1]` is sorted, and the
   * names after `j` are not smaller than `s[j]`'s.
   */
  ghost predicate Inserting(s: seq<ProcessInfo>, i: nat, j: nat)
  {
    && j <= i < |s|
    && (forall p, q :: 0 <= p < q <= i && p != j && q != j ==> LexLe(s[p].name, s[q].name))
    && (forall q :: j < q <= i ==> LexLe(s[j].name, s[q].name))
  }

  lemma InsertingStart(s: seq<ProcessInfo>, i: nat)
    requires i < |s| && SortedByName(s[..i])
    ensures Inserting(s, i, i)
  {
    forall p, q | 0 <= p < q < i
      ensures LexLe(s[p].name, s[q].name)
    {
      assert s[p] == s[..i][p] && s[q] == s[..i][q];
    }
  }

  lemma InsertingStep(s: seq<ProcessInfo>, i: nat, j: nat)
    requires Inserting(s, i, j) && 0 < j && !LexLe(s[j - 1].name, s[j].name)
    ensures Inserting(Swapped(s, j), i, j - 1)
  {
    var t := Swapped(s, j);
    LexLeTotal(s[j - 1].name, s[j].name);
    forall q | j - 1 < q <= i
      ensures LexLe(t[j - 1].name, t[q].name)
    {
      if q > j {
        LexLeTransitive(s[j].name, s[j - 1].name, s[q].name);
      }
    }
  }

  lemma InsertingDone(s: seq<ProcessInfo>, i: nat, j: nat)
    requires Inserting(s, i, j) && (j == 0 || LexLe(s[j - 1].name, s[j].name))
    ensures SortedByName(s[..i + 1])
  {
    forall p, q | 0 <= p < q <= i
      ensures LexLe(s[p].name, s[q].name)
    {
      if q == j && p < j - 1 {
        LexLeTransitive(s[p].name, s[j - 1].name, s[j].name);
      }
    }
    assert forall p :: 0 <= p <= i ==> s[..i + 1][p] == s[p];
  }

  /** Moves `a[i]` left past the strictly greater names before it. */
  method InsertLast(a: array<ProcessInfo>, i: nat)
    requires i < a.Length && SortedByName(a[..i])
    modifies a
    ensures SortedByName(a[..i + 1])
    ensures SameGroups(a[..], old(a[..]))
  {
    ghost var orig := a[..];
    InsertingStart(a[..], i);
    var j: nat := i;
    while j > 0 && !LexLe(a[j - 1].name, a[j].name)
      invariant Inserting(a[..], i, j)
      invariant SameGroups(a[..], orig)
    {
      ghost var before := a[..];
      LexLeReflexive(a[j].name);
      SwapSameGroups(before, j);
      InsertingStep(before, i, j);
      SwapDown(a, j);
      SameGroupsTransitive(a[..], before, orig);
      j := j - 1;
    }
    InsertingDone(a[..], i, j);
  }

  /**
   * `processes.sort_by_key(|e| e.name.clone())`: an in-place stable sort by name. Insertion
   * sort that moves an element left only past strictly greater names, so equal names keep
   * their order.
   */
  method SortByName(a: array<ProcessInfo>)
    modifies a
    ensures StablySortedFrom(a[..], old(a[..]))
  {
    ghost var orig := a[..];
    var i := 0;
    while i < a.Length
      invariant 0 <= i <= a.Length
      invariant SortedByName(a[..i])
      invariant SameGroups(a[..], orig)
    {
      ghost var before := a[..];
      InsertLast(a, i);
      SameGroupsTransitive(a[..], before, orig);
      i := i + 1;
    }
    assert a[..i] == a[..];
  }

  lemma {:induction false} WithNameHead(s: seq<ProcessInfo>, k: string)
    requires WithName(s, k) != []
    ensures exists j :: 0 <= j < |s| && s[j].name == k
  {
    if s[0].name != k {
      WithNameHead(s[1..], k);
      var j :| 0 <= j < |s[1..]| && s[1..][j].name == k;
      assert s[j + 1] == s[1..][j];
    }
  }

  lemma WithNameCons(s: seq<ProcessInfo>, k: string)
    requires s != []
    ensures WithName(s, k) == (if s[0].name == k then [s[0]] else []) + WithName(s[1..], k)
  {
  }

  /** Two name-sorted sequences with the same per-name subsequences start with the same record. */
  lemma SortedSameHead(r1: seq<ProcessInfo>, r2: seq<ProcessInfo>)
    requires SortedByName(r1) && SortedByName(r2) && r1 != [] && r2 != []
    requires forall k :: WithName(r1, k) == WithName(r2, k)
    ensures r1[0] == r2[0]
  {
    var k1, k2 := r1[0].name, r2[0].name;
    WithNameCons(r1, k1);
    WithNameHead(r2, k1);
    var j2 :| 0 <= j2 < |r2| && r2[j2].name == k1;
    if j2 == 0 { LexLeReflexive(k1); }
    WithNameCons(r2, k2);
    WithNameHead(r1, k2);
    var j1 :| 0 <= j1 < |r1| && r1[j1].name == k2;
    if j1 == 0 { LexLeReflexive(k2); }
    LexLeAntisymmetric(k1, k2);
    WithNameCons(r2, k1);
    assert r1[0] == WithName(r1, k1)[0] == WithName(r2, k1)[0] == r2[0];
  }

  /** Removing the same first record keeps the per-name subsequences equal. */
  lemma SameGroupsTail(r1: seq<ProcessInfo>, r2: seq<ProcessInfo>, k: string)
    requires r1 != [] && r2 != [] && r1[0] == r2[0] && WithName(r1, k) == WithName(r2, k)
    ensures WithName(r1[1..], k) == WithName(r2[1..], k)
  {
    WithNameCons(r1, k);
    WithNameCons(r2, k);
    var head := if r1[0].name == k then [r1[0]] else [];
    assert WithName(r1[1..], k) == WithName(r1, k)[|head|..];
    assert WithName(r2[1..], k) == WithName(r2, k)[|head|..];
  }

  /**
   * A sorted sequence is fixed by its per-name subsequences: two sequences sorted by name
   * with the same records in the same order for every name are equal.
   */
  lemma {:induction false} SortedUnique(r1: seq<ProcessInfo>, r2: seq<ProcessInfo>)
    requires SortedByName(r1) && SortedByName(r2)
    requires forall k :: WithName(r1, k) == WithName(r2, k)
    ensures r1 == r2
    decreases |r1|
  {
    if r1 != [] {
      WithNameCons(r1, r1[0].name);
    }
    if r2 != [] {
      WithNameCons(r2, r2[0].name);
    }
    if r1 != [] && r2 != [] {
      SortedSameHead(r1, r2);
      forall k
        ensures WithName(r1[1..], k) == WithName(r2[1..], k)
      {
        SameGroupsTail(r1, r2, k);
      }
      SortedUnique(r1[1..], r2[1..]);
      assert r1 == [r1[0]] + r1[1..];
      assert r2 == [r2[0]] + r2[1..];
    }
  }

  /**
   * Every stable sort by name produces the same sequence, so the order `process_info`
   * returns is determined by the table's enumeration order alone.
   */
  lemma StableSortUnique(r1: seq<ProcessInfo>, r2: seq<ProcessInfo>, s: seq<ProcessInfo>)
    requires StablySortedFrom(r1, s) && StablySortedFrom(r2, s)
    ensures r1 == r2
  {
    SortedUnique(r1, r2);
  }

  /**
   * `process_info(name)`: render every entry, keep the names starting with the filter,
   * sort by name (stable).
   */
  method ListProcesses(table: seq<(Pid, Process)>, filter: Option<string>) returns (r: seq<ProcessInfo>)
    ensures StablySortedFrom(r, Collect(table, filter))
    ensures forall x :: x in r ==> Keep(filter, x.name)
    ensures forall i :: 0 <= i < |table| && Keep(filter, table[i].1.name) ==> Render(table[i].0, table[i].1) in r
    ensures forall x :: x in r ==> exists i :: 0 <= i < |table| && x == Render(table[i].0, table[i].1)
  {
    var collected := Collect(table, filter);
    var a := new ProcessInfo[|collected|](i requires 0 <= i < |collected| => collected[i]);
    assert a[..] == collected;
    SortByName(a);
    r := a[..];
    forall x | x in r
      ensures Keep(filter, x.name)
      ensures exists i :: 0 <= i < |table| && x == Render(table[i].0, table[i].1)
    {
      assert x in multiset(collected);
      var i := CollectSound(table, filter, x);
    }
    forall i | 0 <= i < |table| && Keep(filter, table[i].1.name)
      ensures Render(table[i].0, table[i].1) in r
    {
      CollectComplete(table, filter, i);
      assert Render(table[i].0, table[i].1) in multiset(r);
    }
  }

  // ---------------------------------------------------------------------------------
  // kill_process

  /**
   * `kill_process(id)`: look the pid up in a freshly refreshed table and, if it is there,
   * send that process the kill signal. `kill` stands for the operating system's answer
   * (whether the signal was delivered) for a given pid.
   */
  function KillProcess(table: map<Pid, Process>, id: Pid, kill: Pid -> bool): (r: Option<bool>)
    ensures r == None <==> id !in table
    ensures r.Some? ==> r.value == kill(id)
  {
    if id in table then Some(kill(id)) else None
  }

  /** Only the target's signal outcome matters: no other pid's outcome is consulted. */
  lemma KillOnlyTarget(table: map<Pid, Process>, id: Pid, kill1: Pid -> bool, kill2: Pid -> bool)
    requires kill1(id) == kill2(id)
    ensures KillProcess(table, id, kill1) == KillProcess(table, id, kill2)
  {
  }

  /**
   * The id string rendered for a pid, read back as a number (as the caller does before
   * asking for the kill), targets that same pid.
   */
  lemma KillRenderedId(table: map<Pid, Process>, pid: Pid, kill: Pid -> bool)
    requires pid in table
    ensures var id := Render(pid, table[pid]).id;
            IsDecimal(id) && KillProcess(table, ParseDecimal(id), kill) == Some(kill(pid))
  {
  }

  /**
   * A record collected from the process table names, by its id, the entry it was rendered
   * from; a later kill of that id targets that pid in whatever table is current by then.
   */
  lemma KillListedProcess(table: seq<(Pid, Process)>, filter: Option<string>, x: ProcessInfo,
                          current: map<Pid, Process>, kill: Pid -> bool) returns (i: nat)
    requires x in Collect(table, filter)
    ensures i < |table| && IsDecimal(x.id) && ParseDecimal(x.id) == table[i].0
    ensures KillProcess(current, ParseDecimal(x.id), kill)
            == (if table[i].0 in current then Some(kill(table[i].0)) else None)
  {
    i := CollectSound(table, filter, x);
  }
}
