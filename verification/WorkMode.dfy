/** The energy-storage work-mode bitfield of register 43110. */
module WorkModes {
  import opened Inverter

  const BIT_SELF_USE: bv16 := 1
  const BIT_TIMED: bv16 := 2
  const BIT_ALLOW_GRID_CHARGE: bv16 := 32

  /** Self-use, timed, grid charging allowed. */
  const WORK_MODE_TIMED_ON: Word := 35

  datatype WorkMode = WorkMode(selfUse: bool, timed: bool, allowGridCharge: bool, raw: bv16) {
    /** Overlays the three known flags onto the preserved raw word. */
    function Encode(): bv16 {
      SetBit(SetBit(SetBit(raw, BIT_SELF_USE, selfUse), BIT_TIMED, timed), BIT_ALLOW_GRID_CHARGE, allowGridCharge)
    }

    function WithTimed(on: bool): WorkMode {
      DecodeWorkMode(SetBit(raw, BIT_TIMED, on))
    }
  }

  function SetBit(raw: bv16, mask: bv16, on: bool): bv16 {
    if on then raw | mask else raw & !mask
  }

  function DecodeWorkMode(raw: bv16): WorkMode {
    WorkMode(raw & BIT_SELF_USE != 0, raw & BIT_TIMED != 0, raw & BIT_ALLOW_GRID_CHARGE != 0, raw)
  }

  /** Bit 1 of a bank word. */
  predicate IsTimed(word: Word) {
    DecodeWorkMode(word as bv16).timed
  }

  /** The word the optimal-income command asks for, given the word it read. */
  function TimedWord(word: Word, on: bool): Word {
    DecodeWorkMode(word as bv16).WithTimed(on).Encode() as int
  }

  /** The two words agree on all sixteen bits but bit 1. */
  predicate SameButTimed(a: Word, b: Word) {
    a / 4 == b / 4 && a % 2 == b % 2
  }

  lemma EncodeDecode(raw: bv16)
    ensures DecodeWorkMode(raw).Encode() == raw
  {
  }

  /** The three flags are bits 0, 1 and 5 of the word. */
  lemma FlagsAreBits(word: Word)
    ensures var mode := DecodeWorkMode(word as bv16);
            && (mode.selfUse <==> word % 2 == 1)
            && (mode.timed <==> word / 2 % 2 == 1)
            && (mode.allowGridCharge <==> word / 32 % 2 == 1)
  {
    LowBits(word);
  }

  lemma TimedOnIsTimed()
    ensures IsTimed(WORK_MODE_TIMED_ON)
  {
    FlagsAreBits(WORK_MODE_TIMED_ON);
  }

  // ------------------------------------------------------------ bits as arithmetic

  lemma LowBits(word: Word)
    ensures (word as bv16) & 1 != 0 <==> word % 2 == 1
    ensures (word as bv16) & 2 != 0 <==> word / 2 % 2 == 1
    ensures (word as bv16) & 4 != 0 <==> word / 4 % 2 == 1
    ensures (word as bv16) & 8 != 0 <==> word / 8 % 2 == 1
    ensures (word as bv16) & 16 != 0 <==> word / 16 % 2 == 1
    ensures (word as bv16) & 32 != 0 <==> word / 32 % 2 == 1
    ensures (word as bv16) & 64 != 0 <==> word / 64 % 2 == 1
    ensures (word as bv16) & 128 != 0 <==> word / 128 % 2 == 1
  {
  }

  lemma HighBits(word: Word)
    ensures (word as bv16) & 256 != 0 <==> word / 256 % 2 == 1
    ensures (word as bv16) & 512 != 0 <==> word / 512 % 2 == 1
    ensures (word as bv16) & 1024 != 0 <==> word / 1024 % 2 == 1
    ensures (word as bv16) & 2048 != 0 <==> word / 2048 % 2 == 1
    ensures (word as bv16) & 4096 != 0 <==> word / 4096 % 2 == 1
    ensures (word as bv16) & 8192 != 0 <==> word / 8192 % 2 == 1
    ensures (word as bv16) & 16384 != 0 <==> word / 16384 % 2 == 1
    ensures (word as bv16) & 32768 != 0 <==> word / 32768 % 2 == 1
  {
  }

  predicate SameLow(a: Word, b: Word) {
    && a % 2 == b % 2 && a / 4 % 2 == b / 4 % 2 && a / 8 % 2 == b / 8 % 2 && a / 16 % 2 == b / 16 % 2
    && a / 32 % 2 == b / 32 % 2 && a / 64 % 2 == b / 64 % 2 && a / 128 % 2 == b / 128 % 2
  }

  predicate SameHigh(a: Word, b: Word) {
    && a / 256 % 2 == b / 256 % 2 && a / 512 % 2 == b / 512 % 2
    && a / 1024 % 2 == b / 1024 % 2 && a / 2048 % 2 == b / 2048 % 2
    && a / 4096 % 2 == b / 4096 % 2 && a / 8192 % 2 == b / 8192 % 2
    && a / 16384 % 2 == b / 16384 % 2 && a / 32768 % 2 == b / 32768 % 2
  }

  lemma TwoBits(x: nat)
    ensures x == 4 * (x / 4) + 2 * (x / 2 % 2) + x % 2
  {
    var half := x / 2;
    assert x == 2 * half + x % 2 && half == 2 * (half / 2) + half % 2;
  }

  lemma NextBits(x: nat, y: nat)
    requires x / 4 == y / 4 && x / 2 % 2 == y / 2 % 2 && x % 2 == y % 2
    ensures x == y
  {
    TwoBits(x);
    TwoBits(y);
  }

  lemma Quarters(a: nat)
    ensures a / 16384 / 4 == a / 65536 && a / 16384 / 2 == a / 32768
    ensures a / 4096 / 4 == a / 16384 && a / 4096 / 2 == a / 8192
    ensures a / 1024 / 4 == a / 4096 && a / 1024 / 2 == a / 2048
    ensures a / 256 / 4 == a / 1024 && a / 256 / 2 == a / 512
    ensures a / 64 / 4 == a / 256 && a / 64 / 2 == a / 128
    ensures a / 16 / 4 == a / 64 && a / 16 / 2 == a / 32
    ensures a / 4 / 4 == a / 16 && a / 4 / 2 == a / 8
  {
  }

  lemma SameUpperByte(a: Word, b: Word)
    requires SameHigh(a, b)
    ensures a / 256 == b / 256
  {
    assert a / 65536 == b / 65536;
    Quarters(a);
    Quarters(b);
    NextBits(a / 16384, b / 16384);
    NextBits(a / 4096, b / 4096);
    NextBits(a / 1024, b / 1024);
    NextBits(a / 256, b / 256);
  }

  lemma SameFromBit2(a: Word, b: Word)
    requires SameLow(a, b) && a / 256 == b / 256
    ensures a / 4 == b / 4
  {
    Quarters(a);
    Quarters(b);
    NextBits(a / 64, b / 64);
    NextBits(a / 16, b / 16);
    NextBits(a / 4, b / 4);
  }

  lemma SameBits(a: Word, b: Word)
    requires SameLow(a, b) && SameHigh(a, b)
    ensures SameButTimed(a, b)
  {
    SameUpperByte(a, b);
    SameFromBit2(a, b);
  }

  lemma SetTimedLow(raw: bv16, on: bool)
    ensures var after := SetBit(raw, BIT_TIMED, on);
            && after & 1 == raw & 1 && (after & 2 != 0) == on && after & 4 == raw & 4 && after & 8 == raw & 8
            && after & 16 == raw & 16 && after & 32 == raw & 32 && after & 64 == raw & 64 && after & 128 == raw & 128
  {
  }

  lemma SetTimedHigh(raw: bv16, on: bool)
    ensures var after := SetBit(raw, BIT_TIMED, on);
            && after & 256 == raw & 256 && after & 512 == raw & 512 && after & 1024 == raw & 1024
                && after & 2048 == raw & 2048
            && after & 4096 == raw & 4096 && after & 8192 == raw & 8192 && after & 16384 == raw & 16384
                && after & 32768 == raw & 32768
  {
  }

  lemma WithTimedBits(raw: bv16, on: bool)
    ensures DecodeWorkMode(raw).WithTimed(on).Encode() == SetBit(raw, BIT_TIMED, on)
  {
    EncodeDecode(SetBit(raw, BIT_TIMED, on));
  }

  lemma WordOfBits(raw: bv16)
    ensures (raw as int) as bv16 == raw
  {
  }

  lemma TimedWordBits(word: Word, on: bool)
    ensures TimedWord(word, on) as bv16 == SetBit(word as bv16, BIT_TIMED, on)
  {
    WithTimedBits(word as bv16, on);
    WordOfBits(SetBit(word as bv16, BIT_TIMED, on));
  }

  lemma TimedWordLow(word: Word, on: bool)
    ensures SameLow(word, TimedWord(word, on))
    ensures TimedWord(word, on) / 2 % 2 == if on then 1 else 0
  {
    hide TimedWord, SetBit;
    TimedWordBits(word, on);
    SetTimedLow(word as bv16, on);
    LowBits(word);
    LowBits(TimedWord(word, on));
  }

  lemma TimedWordHigh(word: Word, on: bool)
    ensures SameHigh(word, TimedWord(word, on))
  {
    hide TimedWord, SetBit;
    TimedWordBits(word, on);
    SetTimedHigh(word as bv16, on);
    HighBits(word);
    HighBits(TimedWord(word, on));
  }

  /** The optimal-income command sets bit 1 as asked and changes no other bit. */
  lemma TimedWordFlipsOneBit(word: Word, on: bool)
    ensures SameButTimed(word, TimedWord(word, on))
    ensures TimedWord(word, on) / 2 % 2 == if on then 1 else 0
    ensures IsTimed(TimedWord(word, on)) == on
  {
    hide TimedWord, IsTimed;
    TimedWordLow(word, on);
    TimedWordHigh(word, on);
    SameBits(word, TimedWord(word, on));
    TimedIsBit(TimedWord(word, on));
  }

  lemma TimedIsBit(word: Word)
    ensures IsTimed(word) <==> word / 2 % 2 == 1
  {
    FlagsAreBits(word);
  }

  lemma SameButTimedTransitive(a: Word, b: Word, c: Word)
    requires SameButTimed(a, b) && SameButTimed(b, c)
    ensures SameButTimed(a, c)
  {
  }
}
