/**
 * `format_memory_size`: a byte count as "<value> <unit>", the unit one of bytes, KB, MB,
 * GB and TB (powers of 1024).
 *
 * The source compares `bytes as f64` with the thresholds 2^10, 2^20, 2^30 and 2^40. These
 * are exact in f64 and the conversion from u64 is monotone and maps each of them to itself,
 * so comparing the integer chooses exactly the same unit. The value part is `{:.2}` applied
 * to an f64 quotient; its digits are the parameter `fixed2`, applied here to the exact
 * quotient. Rounding to two decimals can print "1024.00" in a unit below TB (1048575 bytes
 * prints "1024.00 KB"); only the quotient before rounding is bounded below 1024.
 */
module Format {
  import opened Uint

  datatype Unit = Bytes | KB | MB | GB | TB

  const KIB: nat := 1024

  /** Bytes per unit. */
  function Scale(u: Unit): (n: nat)
    ensures n >= 1
  {
    match u
    case Bytes => 1
    case KB => KIB
    case MB => KIB * KIB
    case GB => KIB * KIB * KIB
    case TB => KIB * KIB * KIB * KIB
  }

  /** Position of a unit in the ladder bytes < KB < MB < GB < TB. */
  function Rank(u: Unit): nat
  {
    match u
    case Bytes => 0
    case KB => 1
    case MB => 2
    case GB => 3
    case TB => 4
  }

  function Label(u: Unit): string
  {
    match u
    case Bytes => "bytes"
    case KB => "KB"
    case MB => "MB"
    case GB => "GB"
    case TB => "TB"
  }

  /**
   * The unit the if-else chain picks: the largest unit in which the value is at least 1,
   * bytes below 1024, and TB however large the count.
   */
  function SelectUnit(bytes: U64): (u: Unit)
    ensures u == Bytes || Scale(u) <= bytes
    ensures u == TB || bytes < Scale(u) * KIB
  {
    if bytes >= Scale(TB) then TB
    else if bytes >= Scale(GB) then GB
    else if bytes >= Scale(MB) then MB
    else if bytes >= Scale(KB) then KB
    else Bytes
  }

  /**
   * The quotient of the count by the chosen unit's size, before `{:.2}` rounds it; the
   * number in front of the unit is `fixed2` of it.
   */
  function Value(bytes: U64): (v: real)
    ensures SelectUnit(bytes) != Bytes ==> 1.0 <= v
    ensures SelectUnit(bytes) != TB ==> v < 1024.0
    ensures SelectUnit(bytes) == Bytes ==> v == bytes as real
  {
    var s := Scale(SelectUnit(bytes)) as real;
    assert s * 1024.0 == (Scale(SelectUnit(bytes)) * KIB) as real;
    bytes as real / s
  }

  /** The rendered string: the value, one space, the unit label. */
  function FormatMemorySize(bytes: U64, fixed2: real -> string): (s: string)
    ensures |s| > |Label(SelectUnit(bytes))|
    ensures s[..|s| - |Label(SelectUnit(bytes))| - 1] == fixed2(Value(bytes))
    ensures s[|s| - |Label(SelectUnit(bytes))| - 1..] == " " + Label(SelectUnit(bytes))
  {
    fixed2(Value(bytes)) + " " + Label(SelectUnit(bytes))
  }

  /**
   * Recovers the unit from a rendered magnitude. The five labels already differ in their
   * last two characters.
   */
  function ParseUnit(s: string): (u: Unit)
  {
    if |s| < 2 || s[|s| - 1] != 'B' then Bytes
    else match s[|s| - 2]
      case 'T' => TB
      case 'G' => GB
      case 'M' => MB
      case 'K' => KB
      case _ => Bytes
  }

  /** Whatever digits `fixed2` produces, the unit can be read back off the string. */
  lemma ParseUnitOfFormat(bytes: U64, fixed2: real -> string)
    ensures ParseUnit(FormatMemorySize(bytes, fixed2)) == SelectUnit(bytes)
  {
    var unitName := Label(SelectUnit(bytes));
    var s := FormatMemorySize(bytes, fixed2);
    assert s == (fixed2(Value(bytes)) + " ") + unitName;
    assert s[|s| - 1] == unitName[|unitName| - 1];
    assert s[|s| - 2] == unitName[|unitName| - 2];
  }

  /** Each unit covers exactly one range of byte counts. */
  lemma UnitRanges(bytes: U64)
    ensures SelectUnit(bytes) == Bytes <==> bytes < 0x400
    ensures SelectUnit(bytes) == KB <==> 0x400 <= bytes < 0x10_0000
    ensures SelectUnit(bytes) == MB <==> 0x10_0000 <= bytes < 0x4000_0000
    ensures SelectUnit(bytes) == GB <==> 0x4000_0000 <= bytes < 0x100_0000_0000
    ensures SelectUnit(bytes) == TB <==> 0x100_0000_0000 <= bytes
  {
  }

  /** The two conditions in the contract of SelectUnit single out one unit. */
  lemma SelectUnitUnique(bytes: U64, u: Unit)
    requires u == Bytes || Scale(u) <= bytes
    requires u == TB || bytes < Scale(u) * KIB
    ensures u == SelectUnit(bytes)
  {
  }

  /** A larger count never gets a smaller unit. */
  lemma SelectUnitMonotone(a: U64, b: U64)
    requires a <= b
    ensures Rank(SelectUnit(a)) <= Rank(SelectUnit(b))
  {
  }
}
