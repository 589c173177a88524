/**
 * The events file (src/agent.cpp, write_* functions): one line per record,
 * appended under a single mutex. Each locked block is one atomic step: a
 * call appends exactly one record to `EventLog.records`. The wall clock is
 * a parameter (`now`, milliseconds since the epoch).
 */
module Events {

  // ---------------------------------------------------------------------------
  // Numerals, as `%d`, `%llu`, `%llx` and `%x` print them
  // ---------------------------------------------------------------------------

  /** The two bases the formats use: `%d`/`%llu` and `%x`/`%llx`. */
  datatype Radix = Decimal | Hexadecimal

  function Base(r: Radix): nat
  {
    if r == Decimal then 10 else 16
  }

  /** The digit character for `d` (lower-case, as `%x` prints it). */
  function DigitChar(d: nat): (c: char)
    requires d < 16
  {
    if d < 10 then ('0' as int + d) as char else ('a' as int + d - 10) as char
  }

  predicate IsDigit(c: char, r: Radix)
  {
    ('0' <= c <= '9' && (c as int - '0' as int) < Base(r)) || ('a' <= c <= 'f' && r == Hexadecimal)
  }

  function DigitValue(c: char): nat
  {
    if '0' <= c <= '9' then c as int - '0' as int
    else if 'a' <= c <= 'f' then c as int - 'a' as int + 10
    else 0
  }

  /** `n` written in base `r` without leading zeros. */
  function Numeral(n: nat, r: Radix): (s: string)
    ensures |s| >= 1
    ensures forall k :: 0 <= k < |s| ==> IsDigit(s[k], r)
    decreases n
  {
    match r
    case Decimal => if n < 10 then [DigitChar(n)] else Numeral(n / 10, r) + [DigitChar(n % 10)]
    case Hexadecimal => if n < 16 then [DigitChar(n)] else Numeral(n / 16, r) + [DigitChar(n % 16)]
  }

  /** Reads a numeral back. */
  function ParseNumeral(s: string, r: Radix): nat
  {
    if s == [] then 0 else ParseNumeral(s[..|s| - 1], r) * Base(r) + DigitValue(s[|s| - 1])
  }

  /** Printing a number and reading it back gives the number. */
  lemma {:induction false} NumeralRoundTrip(n: nat, r: Radix)
    ensures ParseNumeral(Numeral(n, r), r) == n
    decreases n
  {
    var s := Numeral(n, r);
    if n < Base(r) {
      assert s[..0] == [];
    } else if r == Decimal {
      NumeralRoundTrip(n / 10, r);
      assert s[..|s| - 1] == Numeral(n / 10, r);
    } else {
      NumeralRoundTrip(n / 16, r);
      assert s[..|s| - 1] == Numeral(n / 16, r);
    }
  }

  /** `%d` / `%lld`: a minus sign before the magnitude of a negative value. */
  function Signed(i: int): (r: string)
    ensures |r| >= 1
    ensures (r[0] == '-') <==> i < 0
  {
    if i < 0 then "-" + Numeral(-i, Decimal) else Numeral(i, Decimal)
  }

  /** The `(unsigned long long)` cast: the value modulo 2^64. */
  function Unsigned64(i: int): (u: nat)
    ensures u < 0x1_0000_0000_0000_0000
    ensures 0 <= i < 0x1_0000_0000_0000_0000 ==> u == i
  {
    i % 0x1_0000_0000_0000_0000
  }

  /** `%x` prints an `int` as a 32-bit unsigned value. */
  function Hex32(i: int): string
  {
    Numeral(i % 0x1_0000_0000, Hexadecimal)
  }

  // ---------------------------------------------------------------------------
  // Records and their lines
  // ---------------------------------------------------------------------------

  /** One line of the events file. `addr` is the code address, printed as
      an `unsigned long long` with `0x%llx`; `size` is the `int` length
      printed with `%d`; `nativeTid` is the `uint64_t` pthread id printed
      with `%llu`; `machTid` the mach port number printed with `0x%x`. */
  datatype Record =
    | MethodLoad(time: int, addr: int, size: int, entry: string)
    | MethodUnload(time: int, addr: int, entry: string)
    | Thread(time: int, nativeTid: int, machTid: int, name: string)

  /** The free text a record carries (the symbol or the thread name). */
  function Payload(r: Record): string
  {
    match r
    case MethodLoad(_, _, _, e) => e
    case MethodUnload(_, _, e) => e
    case Thread(_, _, _, n) => n
  }

  lemma NumeralHasNoNewline(n: nat, r: Radix)
    ensures '\n' !in Numeral(n, r)
  {
  }

  /** The text of a record, without the `endl` that ends it:
      `<ms> method_load: 0x<addr> <size> <entry>`,
      `<ms> method_unload: 0x<addr> <entry>`,
      `<ms> thread: <native tid> 0x<mach tid> <name>`. */
  function Line(r: Record): string
  {
    match r
    case MethodLoad(t, a, s, e) =>
      Signed(t) + " method_load: " + "0x" + Numeral(Unsigned64(a), Hexadecimal) + " " + Signed(s) + " " + e
    case MethodUnload(t, a, e) =>
      Signed(t) + " method_unload: " + "0x" + Numeral(Unsigned64(a), Hexadecimal) + " " + e
    case Thread(t, n, m, name) =>
      Signed(t) + " thread: " + Numeral(Unsigned64(n), Decimal) + " 0x" + Hex32(m) + " " + name
  }

  lemma SignedHasNoNewline(i: int)
    ensures '\n' !in Signed(i)
  {
    NumeralHasNoNewline(if i < 0 then -i else i, Decimal);
  }

  /** A record's line breaks exactly where its payload does: a symbol or
      thread name without a newline keeps the record on one line. */
  lemma LineBreaksOnlyInPayload(r: Record)
    ensures '\n' in Line(r) <==> '\n' in Payload(r)
  {
    SignedHasNoNewline(r.time);
    match r
    case MethodLoad(t, a, s, e) =>
      NumeralHasNoNewline(Unsigned64(a), Hexadecimal);
      SignedHasNoNewline(s);
    case MethodUnload(t, a, e) =>
      NumeralHasNoNewline(Unsigned64(a), Hexadecimal);
    case Thread(t, n, m, name) =>
      NumeralHasNoNewline(Unsigned64(n), Decimal);
      NumeralHasNoNewline(m % 0x1_0000_0000, Hexadecimal);
  }

  /** The events file: the records appended so far, in lock order. */
  class EventLog {
    var records: seq<Record>

    constructor ()
      ensures records == []
    {
      records := [];
    }

    /** `write_compiled_method_load_event_entry`. */
    method WriteMethodLoad(now: int, addr: int, size: int, entry: string)
      modifies this
      ensures records == old(records) + [MethodLoad(now, addr, size, entry)]
    {
      records := records + [MethodLoad(now, addr, size, entry)];
    }

    /** `write_compilede_method_unload_event_entry`. */
    method WriteMethodUnload(now: int, addr: int, entry: string)
      modifies this
      ensures records == old(records) + [MethodUnload(now, addr, entry)]
    {
      records := records + [MethodUnload(now, addr, entry)];
    }

    /** `write_thread_entry`. */
    method WriteThread(now: int, nativeTid: int, machTid: int, name: string)
      modifies this
      ensures records == old(records) + [Thread(now, nativeTid, machTid, name)]
    {
      records := records + [Thread(now, nativeTid, machTid, name)];
    }
  }
}
