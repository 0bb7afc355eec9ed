# ProcessManager backend, modelled in Dafny

ProcessManager is a desktop system monitor. Its backend (`src-tauri/src/lib.rs`) exposes
commands to the user interface. `process_info` lists processes, optionally filtered by a
name prefix and sorted by name. `kill_process` signals one process by pid. `file_systems`
describes the mounted disks. `get_metrics` reports memory, swap, CPU and network counters.
`format_memory_size` renders byte counts as "value unit" strings.

This project models the logic that shapes the operating system's data into those records.
The data that `sysinfo` reads from the operating system (the process table, the disk list,
the memory counters, the network interfaces) and the answer to a kill signal are inputs.

Modules, one per part of `lib.rs`:

- `Wrappers`: `Option`.
- `Uint`: `u64` and wrap-around subtraction and addition. In a release build `u64`
  arithmetic wraps, and that is what the model follows.
- `Text`: Rust's string order, `starts_with`, and the decimal rendering of a pid.
  Rust compares `String`s byte by byte on UTF-8, which is the same order as comparing code
  points, so names are `string`s compared by code point.
- `Format`: `format_memory_size`. The unit is chosen by integer comparison. The thresholds
  are powers of two below 2^53, so this picks the same unit as the f64 comparisons in the
  source. The `{:.2}` digits are a parameter, `fixed2`.
- `Processes`: `process_info` and `kill_process`.
  - The filter-map chain is the function `Collect`.
  - `sort_by_key` is the in-place method `SortByName`, an insertion sort on an array that
    moves an element only past strictly greater names, so equal names keep their order.
  - Its specification `StablySortedFrom` has three parts: sorted by name, same multiset,
    and the same subsequence for every name. `SortedUnique` shows this fixes the result,
    so every stable sort (Rust's included) returns the same sequence.
- `Disks`: `file_systems`, a loop that appends one record per disk.
  - `used` is the `u64` difference `total - available`. No clamp is applied;
    `UsedWrapsToTerabytes` shows the wrap when a disk reports more available than total space.
- `Metrics`: `get_metrics`, with the network sums as wrap-around left folds.

## Model

| member | source | states |
|---|---|---|
| `Text.LexLe` | src-tauri/src/lib.rs:51 | the name order extends the prefix order, and a name sorts no later than another only if its first character does |
| `Text.StartsWith` | src-tauri/src/lib.rs:45 | a name starts with the filter exactly when the filter is a prefix of it |
| `Text.LexLeReflexive` | src-tauri/src/lib.rs:51 | the name order used by the sort is reflexive |
| `Text.LexLeTotal` | src-tauri/src/lib.rs:51 | any two names are comparable |
| `Text.LexLeAntisymmetric` | src-tauri/src/lib.rs:51 | names that sort both ways are equal |
| `Text.LexLeTransitive` | src-tauri/src/lib.rs:51 | the name order is transitive |
| `Text.DecimalString` | src-tauri/src/lib.rs:36 | a pid renders as a non-empty string of digits, with a leading zero only for pid 0 |
| `Text.ParseDecimalString` | src-tauri/src/lib.rs:36 | reading a rendered id back as a number gives the pid |
| `Text.DecimalStringInjective` | src-tauri/src/lib.rs:36 | different pids get different ids |
| `Uint.WrappingSub` | src-tauri/src/lib.rs:109 | u64 subtraction: the result plus the subtrahend is the minuend modulo 2^64, and it is the plain difference when there is no underflow |
| `Uint.WrappingAdd` | src-tauri/src/lib.rs:148-160 | u64 addition modulo 2^64, the plain sum when it fits |
| `Format.SelectUnit` | src-tauri/src/lib.rs:73-83 | the unit is the largest one in which the count is at least 1; bytes below 1024; TB however large |
| `Format.UnitRanges` | src-tauri/src/lib.rs:73-83 | bytes exactly below 2^10, KB on [2^10, 2^20), MB on [2^20, 2^30), GB on [2^30, 2^40), TB from 2^40 |
| `Format.SelectUnitUnique` | src-tauri/src/lib.rs:73-83 | only one unit meets the two bounds in SelectUnit's contract |
| `Format.SelectUnitMonotone` | src-tauri/src/lib.rs:73-83 | a larger count never gets a smaller unit |
| `Format.Value` | src-tauri/src/lib.rs:72-83 | the quotient before `{:.2}` rounding is at least 1 unless in bytes, below 1024 unless in TB, and the count itself in bytes |
| `Format.FormatMemorySize` | src-tauri/src/lib.rs:66-86 | the string is the rendered value, one space, then the unit's label |
| `Format.ParseUnitOfFormat` | src-tauri/src/lib.rs:85 | whatever the digits, the unit can be read back off the string's suffix |
| `Processes.ToMegabytes` | src-tauri/src/lib.rs:39-41 | `x / 1024 / 1024` is floor(x / 2^20), and never exceeds x |
| `Processes.Render` | src-tauri/src/lib.rs:35-42 | name and cpu copied; id reads back as the pid; memory, disk read and disk write are whole megabytes rounded down |
| `Processes.Keep` | src-tauri/src/lib.rs:43-49 | no filter keeps every name; a filter keeps exactly the names it is a prefix of |
| `Processes.Collect` | src-tauri/src/lib.rs:32-50 | every collected record's name passes the filter |
| `Processes.CollectSound` | src-tauri/src/lib.rs:32-50 | every collected record renders some table entry whose name the filter keeps (prefix soundness) |
| `Processes.CollectComplete` | src-tauri/src/lib.rs:32-50 | every table entry whose name the filter keeps is collected (prefix completeness) |
| `Processes.CollectUnfiltered` | src-tauri/src/lib.rs:43-49 | without a filter, one record per entry, in enumeration order |
| `Processes.SortByName` | src-tauri/src/lib.rs:51 | after the in-place sort the array is sorted by name, a permutation of before, and each name's records keep their order |
| `Processes.SortedUnique` | src-tauri/src/lib.rs:51 | two name-sorted sequences with the same per-name subsequences are equal |
| `Processes.StableSortUnique` | src-tauri/src/lib.rs:50-52 | any two stable sorts of the same records give the same result |
| `Processes.ListProcesses` | src-tauri/src/lib.rs:27-53 | the result is a stable sort by name of the filtered records; every name starts with the filter; every matching entry is listed; nothing else is |
| `Processes.KillProcess` | src-tauri/src/lib.rs:55-64 | None exactly when the pid is not in the table, otherwise Some of the signal's outcome for that pid |
| `Processes.KillOnlyTarget` | src-tauri/src/lib.rs:59-62 | the result depends only on the signal outcome for the target pid; no other pid's outcome is consulted |
| `Processes.KillRenderedId` | src-tauri/src/lib.rs:36 | the id rendered for a pid, read back as a number, makes kill target that pid |
| `Processes.KillListedProcess` | src-tauri/src/lib.rs:32-42 | a collected record's id reads back as the pid of the table entry it came from, so a kill of it targets that pid in the current table (None if it has gone) |
| `Disks.UsedSpace` | src-tauri/src/lib.rs:109 | used space plus available is total on a consistent disk; otherwise it wraps to 2^64 minus the excess |
| `Disks.FileSystems` | src-tauri/src/lib.rs:98-114 | one record per disk, in disk order, each the record built from that disk |
| `Disks.Describe` | src-tauri/src/lib.rs:103-106 | device, directory and file system type are the disk's name, mount point and file system, unchanged |
| `Disks.DescribeUnits` | src-tauri/src/lib.rs:107-109 | total, available and used are each shown in the unit their own byte count selects |
| `Disks.UsedUnitAtMostTotal` | src-tauri/src/lib.rs:107-109 | on a consistent disk, used is never shown in a larger unit than total |
| `Disks.UsedWrapsToTerabytes` | src-tauri/src/lib.rs:109 | a disk reporting slightly more available than total space shows used in TB |
| `Metrics.SumPermutation` | src-tauri/src/lib.rs:148-160 | the order of the interfaces does not change a total |
| `Metrics.Total` | src-tauri/src/lib.rs:148-160 | each network sum is the exact total modulo 2^64, and the exact total when it fits in u64 |
| `Metrics.GetMetricsAsWritten` | src-tauri/src/lib.rs:140-161 | cpus copied; used, total and free memory and used and free swap are each their own counter formatted; total_swap is the used-swap counter formatted; the four network fields are their totals modulo 2^64 |
| `Metrics.TotalSwapShowsUsedSwap` | src-tauri/src/lib.rs:146 | with 2 GiB of unused swap, total_swap reads in bytes, though the total swap is in the GB range |
| `Metrics.GetMetrics` | src-tauri/src/lib.rs:140-161 | same as written except that total_swap is the total swap counter formatted, and so shows that counter's unit |
| `Metrics.MetricsUnits` | src-tauri/src/lib.rs:142-147 | each memory and swap field is shown in the unit its own counter selects |
| `Metrics.NetworkTotals` | src-tauri/src/lib.rs:148-160 | each network field is its counter's total over the interfaces, listed in any order, modulo 2^64, and the total itself when it fits in u64 |

## Findings

| source | as written | input that shows it | evidently intended | confidence | as-written member | corrected member |
|---|---|---|---|---|---|---|
| src-tauri/src/lib.rs:146 | `total_swap` is rendered from `sys.used_swap()` | 2 GiB of swap, none in use: `total_swap` is the 0-byte rendering, in bytes | render `sys.total_swap()` | high; not executed | `Metrics.GetMetricsAsWritten` (with `Metrics.TotalSwapShowsUsedSwap`) | `Metrics.GetMetrics` (with `Metrics.MetricsUnits`) |

## Left out

- `os_info` (src-tauri/src/lib.rs:10-15) returns the compile-time constant `env::consts::OS` and has no logic to model.
- `run` is framework plumbing: the application builder and the event loop.
- Calls into `sysinfo` are not modelled. Their results are inputs: the process table, the disk list, the memory counters and the network interfaces. These calls are `System::refresh_all`, `Disks::new_with_refreshed_list` and `Networks::new_with_refreshed_list`.
- The process table's iteration order is an input sequence. The table's hash map order itself is not modelled.
- `Processes.KillProcess`: `process.kill()` is the parameter `kill`, the operating system's answer for a pid. The delivery of the signal itself is not modelled.
- CPU usage (`f32`) is copied as a `real`. No arithmetic is done on it.
- `Format.FormatMemorySize`: `{:.2}` rounding can print "1024.00" in a unit below TB (1048575 bytes prints "1024.00 KB"). The bound below 1024 holds only for the quotient before rounding, since the digits are the parameter `fixed2`.
- `Format.Value`: the value is the exact quotient of the count by the unit's size. The source uses f64, whose conversion from u64 rounds counts of 2^53 and above. The `{:.2}` rendering is the parameter `fixed2`, so its digits and rounding are not modelled.
- Build profile: overflow in the `u64` subtraction (file_systems) and in `.sum()` (get_metrics) panics in a debug build. The model follows a release build, where both wrap.
- `Processes.SortByName` is an insertion sort, not Rust's stable sort algorithm. `Processes.StableSortUnique` shows that any stable sort gives the same result.
- Process and disk names are taken as already-decoded strings. The lossy decoding of OS strings (`to_string_lossy`) is not modelled.
- Pids are unbounded naturals, not `usize`.
- The user interface is not part of this model. That includes the frontend components, routing, polling every 1000 ms, and the frontend's string-typed copy of `ProccessInfo`.
