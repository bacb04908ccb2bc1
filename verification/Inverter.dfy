/**
The register map of the inverter and the pure codecs over it: absolute addresses,
block snapshots, the timed-slot encoding, the clock text form and the work-mode bits.
 */
module Inverter {
  import opened Wrappers

  /** A holding-register word (uint16) and a clock field (uint8). */
  type Word = n: int | 0 <= n < 0x1_0000
  type Byte = n: int | 0 <= n < 0x100

  /** The holding bank. An address outside the map is one the inverter refuses. */
  type Bank = map<int, Word>

  const REG_RTC_SET := 43000
  const RTC_REGISTER_COUNT := 6
  const REG_WORK_MODE := 43110
  const REG_TIMED_CHARGE_CURRENT := 43141
  const REG_TIMED_DISCHARGE_CURRENT := 43142
  const REG_TIMED_SLOT_STRIDE := 10
  const SETPOINT_BLOCK_COUNT := 61

  const CHARGE_OFFSET := 2
  const DISCHARGE_OFFSET := 6

  const MAX_HOUR := 23
  const MAX_MINUTE := 59

  // ---------------------------------------------------------------- timed slots

  datatype Clock = Clock(hour: Byte, minute: Byte) {
    predicate InRange() {
      hour <= MAX_HOUR && minute <= MAX_MINUTE
    }
  }

  const MIDNIGHT := Clock(0, 0)

  /** One charge or discharge period. An end of 00:00 on a set window means end-of-day. */
  datatype TimedWindow = TimedWindow(start: Clock, end: Clock) {
    predicate IsZero() {
      this == TimedWindow(MIDNIGHT, MIDNIGHT)
    }

    predicate InRange() {
      start.InRange() && end.InRange()
    }
  }

  const UNSET := TimedWindow(MIDNIGHT, MIDNIGHT)

  datatype TimedSlot = TimedSlot(charge: TimedWindow, discharge: TimedWindow) {
    predicate InRange() {
      charge.InRange() && discharge.InRange()
    }

    /** The slot is armed in both directions at once. */
    predicate Both() {
      !charge.IsZero() && !discharge.IsZero()
    }
  }

  const EMPTY := TimedSlot(UNSET, UNSET)

  type TimedSlots = s: seq<TimedSlot> | |s| == 3 witness [EMPTY, EMPTY, EMPTY]

  const BOOST_SLOT := 2

  predicate SlotsInRange(slots: TimedSlots) {
    slots[0].InRange() && slots[1].InRange() && slots[2].InRange()
  }

  // ------------------------------------------------------------- write encoding

  datatype Register = Register(addr: int, value: Word)

  function SlotBase(i: int): int {
    REG_TIMED_CHARGE_CURRENT + i * REG_TIMED_SLOT_STRIDE
  }

  /** One direction's four words: start hour, start minute, end hour, end minute. */
  function TimedWindowRegisters(first: int, w: TimedWindow): seq<Register> {
    [Register(first, w.start.hour), Register(first + 1, w.start.minute),
     Register(first + 2, w.end.hour), Register(first + 3, w.end.minute)]
  }

  /** The slot is written discharge block first: only its charge window is set. */
  predicate ChargeLast(slot: TimedSlot) {
    !slot.charge.IsZero() && slot.discharge.IsZero()
  }

  function TimedSlotWriteRegisters(i: int, slot: TimedSlot): seq<Register>
    requires 0 <= i <= 2
  {
    var charge := TimedWindowRegisters(SlotBase(i) + CHARGE_OFFSET, slot.charge);
    var discharge := TimedWindowRegisters(SlotBase(i) + DISCHARGE_OFFSET, slot.discharge);
    if ChargeLast(slot) then discharge + charge else charge + discharge
  }

  // ------------------------------------------------------- blocks and snapshots

  datatype Block = Block(base: int, regs: seq<Word>) {
    predicate Contains(addr: int) {
      base <= addr < base + |regs|
    }
  }

  type Snapshot = seq<Block>

  /** The first block holding addr. */
  function Locate(s: Snapshot, addr: int): Option<Block> {
    if s == [] then None
    else if s[0].Contains(addr) then Some(s[0])
    else Locate(s[1..], addr)
  }

  method FindBlock(s: Snapshot, addr: int) returns (r: Option<Block>)
    ensures r == Locate(s, addr)
    ensures r.Some? ==> r.value in s && r.value.Contains(addr)
    ensures r.None? ==> forall b :: b in s ==> !b.Contains(addr)
  {
    for k := 0 to |s|
      invariant forall j :: 0 <= j < k ==> !s[j].Contains(addr)
      invariant Locate(s, addr) == Locate(s[k..], addr)
    {
      assert s[k..][1..] == s[k + 1..];
      if s[k].Contains(addr) {
        return Some(s[k]);
      }
    }
    return None;
  }

  datatype DecodeError = RegisterOutOfRange(addr: int) | ClockOutOfRange(hourAddr: int)

  function U16(s: Snapshot, addr: int): Result<Word, DecodeError> {
    var block := Locate(s, addr);
    if block.Some? && block.value.Contains(addr)
    then Success(block.value.regs[addr - block.value.base])
    else Failure(RegisterOutOfRange(addr))
  }

  function DecodeClock(s: Snapshot, hourAddr: int, minuteAddr: int): (r: Result<Clock, DecodeError>)
    ensures r.Success? ==> r.value.InRange()
  {
    var hour :- U16(s, hourAddr);
    var minute :- U16(s, minuteAddr);
    if hour > MAX_HOUR || minute > MAX_MINUTE then Failure(ClockOutOfRange(hourAddr))
    else Success(Clock(hour, minute))
  }

  predicate Missing(s: Snapshot, addr: int) {
    forall b :: b in s ==> !b.Contains(addr)
  }

  lemma {:induction false} LocateExactly(s: Snapshot, addr: int)
    ensures Locate(s, addr).None? <==> Missing(s, addr)
    ensures Locate(s, addr).Some? ==> Locate(s, addr).value in s && Locate(s, addr).value.Contains(addr)
    decreases |s|
  {
    if s != [] {
      LocateExactly(s[1..], addr);
      assert s == [s[0]] + s[1..];
    }
  }

  /** Why a clock does not decode: its hour register is missing, or its minute register, or a field is out of range. */
  lemma DecodeClockFails(s: Snapshot, hourAddr: int, minuteAddr: int)
    ensures var r := DecodeClock(s, hourAddr, minuteAddr);
            && (r == Failure(RegisterOutOfRange(hourAddr))
                <==> Missing(s, hourAddr) || (hourAddr == minuteAddr && Missing(s, minuteAddr)))
            && (hourAddr != minuteAddr ==>
                  (r == Failure(RegisterOutOfRange(minuteAddr)) <==> !Missing(s, hourAddr) && Missing(s, minuteAddr)))
            && (r.Failure? && r.error.ClockOutOfRange? ==> !Missing(s, hourAddr) && !Missing(s, minuteAddr))
  {
    LocateExactly(s, hourAddr);
    LocateExactly(s, minuteAddr);
  }

  function DecodeTimedWindow(s: Snapshot, first: int): (r: Result<TimedWindow, DecodeError>)
    ensures r.Success? ==> r.value.InRange()
  {
    var start :- DecodeClock(s, first, first + 1);
    var end :- DecodeClock(s, first + 2, first + 3);
    Success(TimedWindow(start, end))
  }

  function DecodeSlot(s: Snapshot, i: int): (r: Result<TimedSlot, DecodeError>)
    ensures r.Success? ==> r.value.InRange()
  {
    var charge :- DecodeTimedWindow(s, SlotBase(i) + CHARGE_OFFSET);
    var discharge :- DecodeTimedWindow(s, SlotBase(i) + DISCHARGE_OFFSET);
    Success(TimedSlot(charge, discharge))
  }

  function DecodedSlots(s: Snapshot): (r: Result<TimedSlots, DecodeError>)
    ensures r.Success? ==> SlotsInRange(r.value)
  {
    var first :- DecodeSlot(s, 0);
    var second :- DecodeSlot(s, 1);
    var third :- DecodeSlot(s, 2);
    Success([first, second, third])
  }

  method DecodeTimedSlots(s: Snapshot) returns (r: Result<TimedSlots, DecodeError>)
    ensures r == DecodedSlots(s)
  {
    hide DecodeSlot;
    var slots: TimedSlots := [EMPTY, EMPTY, EMPTY];
    for i := 0 to 3
      invariant forall j :: 0 <= j < i ==> DecodeSlot(s, j) == Success(slots[j])
    {
      var slot := DecodeSlot(s, i);
      if slot.Failure? {
        return Failure(slot.error);
      }
      slots := slots[i := slot.value];
    }
    assert slots == [slots[0], slots[1], slots[2]];
    return Success(slots);
  }

  // ------------------------------------------------------------ bank and slots

  /** The words at first..first+3 spell the window w. */
  predicate HoldsWindow(bank: Bank, first: int, w: TimedWindow) {
    && first in bank && first + 1 in bank && first + 2 in bank && first + 3 in bank
    && bank[first] == w.start.hour && bank[first + 1] == w.start.minute
    && bank[first + 2] == w.end.hour && bank[first + 3] == w.end.minute
  }

  predicate HoldsSlot(bank: Bank, i: int, slot: TimedSlot) {
    && HoldsWindow(bank, SlotBase(i) + CHARGE_OFFSET, slot.charge)
    && HoldsWindow(bank, SlotBase(i) + DISCHARGE_OFFSET, slot.discharge)
  }

  predicate HoldsSlots(bank: Bank, slots: TimedSlots) {
    HoldsSlot(bank, 0, slots[0]) && HoldsSlot(bank, 1, slots[1]) && HoldsSlot(bank, 2, slots[2])
  }

  /** Every register of the block one setpoint read covers exists. */
  predicate BlockMapped(bank: Bank, addr: int, count: nat) {
    forall a :: addr <= a < addr + count ==> a in bank
  }

  function BlockWords(bank: Bank, addr: int, count: nat): (words: seq<Word>)
    requires BlockMapped(bank, addr, count)
    ensures |words| == count
  {
    seq(count, n requires 0 <= n < count => bank[addr + n])
  }

  /** What one setpoint read of the bank decodes to. */
  function SlotsOf(bank: Bank): (r: Result<TimedSlots, DecodeError>)
    requires BlockMapped(bank, REG_WORK_MODE, SETPOINT_BLOCK_COUNT)
  {
    DecodedSlots([Block(REG_WORK_MODE, BlockWords(bank, REG_WORK_MODE, SETPOINT_BLOCK_COUNT))])
  }

  lemma BlockReadsBank(bank: Bank, addr: int)
    requires BlockMapped(bank, REG_WORK_MODE, SETPOINT_BLOCK_COUNT)
    requires REG_WORK_MODE <= addr < REG_WORK_MODE + SETPOINT_BLOCK_COUNT
    ensures U16([Block(REG_WORK_MODE, BlockWords(bank, REG_WORK_MODE, SETPOINT_BLOCK_COUNT))], addr)
        == Success(bank[addr])
  {
  }

  lemma DecodesWindow(bank: Bank, first: int, w: TimedWindow)
    requires BlockMapped(bank, REG_WORK_MODE, SETPOINT_BLOCK_COUNT)
    requires REG_WORK_MODE <= first && first + 3 < REG_WORK_MODE + SETPOINT_BLOCK_COUNT
    ensures DecodeTimedWindow([Block(REG_WORK_MODE, BlockWords(bank, REG_WORK_MODE, SETPOINT_BLOCK_COUNT))], first)
        == Success(w)
       <==> w.InRange() && HoldsWindow(bank, first, w)
  {
    BlockReadsBank(bank, first);
    BlockReadsBank(bank, first + 1);
    BlockReadsBank(bank, first + 2);
    BlockReadsBank(bank, first + 3);
  }

  lemma DecodesSlot(bank: Bank, i: int, slot: TimedSlot)
    requires BlockMapped(bank, REG_WORK_MODE, SETPOINT_BLOCK_COUNT)
    requires 0 <= i <= 2
    ensures DecodeSlot([Block(REG_WORK_MODE, BlockWords(bank, REG_WORK_MODE, SETPOINT_BLOCK_COUNT))], i)
        == Success(slot)
       <==> slot.InRange() && HoldsSlot(bank, i, slot)
  {
    DecodesWindow(bank, SlotBase(i) + CHARGE_OFFSET, slot.charge);
    DecodesWindow(bank, SlotBase(i) + DISCHARGE_OFFSET, slot.discharge);
  }

  /** The block decode is exactly the inverse of the register encoding. */
  lemma DecodeInvertsEncode(bank: Bank, slots: TimedSlots)
    requires BlockMapped(bank, REG_WORK_MODE, SETPOINT_BLOCK_COUNT)
    ensures SlotsOf(bank) == Success(slots) <==> SlotsInRange(slots) && HoldsSlots(bank, slots)
  {
    hide DecodeSlot, HoldsSlot;
    DecodesSlot(bank, 0, slots[0]);
    DecodesSlot(bank, 1, slots[1]);
    DecodesSlot(bank, 2, slots[2]);
    assert slots == [slots[0], slots[1], slots[2]];
  }

  // ----------------------------------------------------------------- clock text

  predicate IsDigit(c: char) {
    '0' <= c <= '9'
  }

  function DigitChar(n: int): char
    requires 0 <= n <= 9
  {
    ('0' as int + n) as char
  }

  /** The %02d form of a byte. */
  function Pad(n: Byte): string {
    if n < 100 then [DigitChar(n / 10), DigitChar(n % 10)]
    else [DigitChar(n / 100), DigitChar(n / 10 % 10), DigitChar(n % 10)]
  }

  function ClockText(c: Clock): string {
    Pad(c.hour) + ":" + Pad(c.minute)
  }

  function TwoDigits(tens: char, units: char): Option<nat> {
    if IsDigit(tens) && IsDigit(units)
    then Some((tens as int - '0' as int) * 10 + (units as int - '0' as int))
    else None
  }

  function ParseClock(s: string): Option<Clock> {
    if |s| != 5 || s[2] != ':' then None
    else
      var hour := TwoDigits(s[0], s[1]);
      var minute := TwoDigits(s[3], s[4]);
      if hour.None? || minute.None? then None
      else if hour.value > MAX_HOUR || minute.value > MAX_MINUTE then None
      else Some(Clock(hour.value, minute.value))
  }

  lemma TwoDigitsExact(tens: char, units: char, n: Byte)
    requires n < 100
    ensures TwoDigits(tens, units) == Some(n) <==> Pad(n) == [tens, units]
  {
    if TwoDigits(tens, units) == Some(n) {
      assert DigitChar(n / 10) == tens && DigitChar(n % 10) == units;
    }
    if Pad(n) == [tens, units] {
      assert tens == [tens, units][0] == DigitChar(n / 10);
      assert units == [tens, units][1] == DigitChar(n % 10);
    }
  }

  /** ParseClock accepts exactly the printed form of an in-range clock. */
  lemma ParseClockExact(s: string, c: Clock)
    ensures ParseClock(s) == Some(c) <==> c.InRange() && s == ClockText(c)
  {
    if c.InRange() && |s| == 5 {
      TwoDigitsExact(s[0], s[1], c.hour);
      TwoDigitsExact(s[3], s[4], c.minute);
      assert s == [s[0], s[1]] + [s[2]] + [s[3], s[4]];
      if s == ClockText(c) {
        assert [s[0], s[1]] == ClockText(c)[..2] == Pad(c.hour);
        assert [s[3], s[4]] == ClockText(c)[3..] == Pad(c.minute);
        assert s[2] == ClockText(c)[2] == ':';
      }
    }
  }
}
