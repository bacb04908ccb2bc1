/**
The slots seen part-way through a schedule write. Slots are written one word at a time,
so between the old schedule and the new one the bank holds a blend of the two: the first
k words of the write order are new, the rest are old.
 */
module Blending {
  import opened Inverter
  import opened Banks

  const SLOT_WORDS := 8
  const ALL_WORDS := 24

  /** The window whose first p words come from `to` and the others from `from`. */
  function Blend(from: TimedWindow, to: TimedWindow, p: int): TimedWindow {
    TimedWindow(Clock(if p >= 1 then to.start.hour else from.start.hour,
                      if p >= 2 then to.start.minute else from.start.minute),
                Clock(if p >= 3 then to.end.hour else from.end.hour,
                      if p >= 4 then to.end.minute else from.end.minute))
  }

  /** The slot after p of its eight words, in the order `to` is written in. */
  function BlendSlot(from: TimedSlot, to: TimedSlot, p: int): TimedSlot {
    if ChargeLast(to)
    then TimedSlot(Blend(from.charge, to.charge, p - 4), Blend(from.discharge, to.discharge, p))
    else TimedSlot(Blend(from.charge, to.charge, p), Blend(from.discharge, to.discharge, p - 4))
  }

  function BlendSlots(from: TimedSlots, to: TimedSlots, k: int): TimedSlots {
    [BlendSlot(from[0], to[0], k), BlendSlot(from[1], to[1], k - SLOT_WORDS),
        BlendSlot(from[2], to[2], k - 2 * SLOT_WORDS)]
  }

  lemma BlendEnds(from: TimedSlots, to: TimedSlots)
    ensures BlendSlots(from, to, 0) == from && BlendSlots(from, to, ALL_WORDS) == to
  {
    assert from == [from[0], from[1], from[2]];
    assert to == [to[0], to[1], to[2]];
  }

  lemma BlendInRange(from: TimedSlots, to: TimedSlots, k: int)
    requires SlotsInRange(from) && SlotsInRange(to)
    ensures SlotsInRange(BlendSlots(from, to, k))
  {
  }

  /** The twenty-four hour/minute words of a schedule in write order. */
  function AllRegisters(slots: TimedSlots): seq<Register> {
    TimedSlotWriteRegisters(0, slots[0]) + TimedSlotWriteRegisters(1, slots[1]) + TimedSlotWriteRegisters(2, slots[2])
  }

  lemma SlotRegistersDistinct(i: int, slot: TimedSlot)
    requires 0 <= i <= 2
    ensures |TimedSlotWriteRegisters(i, slot)| == SLOT_WORDS
    ensures Distinct(TimedSlotWriteRegisters(i, slot))
    ensures forall r ::
      r in TimedSlotWriteRegisters(i, slot) ==>
        SlotBase(i) + CHARGE_OFFSET <= r.addr < SlotBase(i) + SLOT_WORDS + CHARGE_OFFSET
  {
  }

  lemma DistinctAppend(front: seq<Register>, back: seq<Register>, split: int)
    requires Distinct(front) && Distinct(back)
    requires forall r :: r in front ==> r.addr < split
    requires forall r :: r in back ==> split <= r.addr
    ensures Distinct(front + back)
    ensures forall r :: r in front + back ==> r in front || r in back
  {
    forall i, j | 0 <= i < j < |front + back|
      ensures (front + back)[i].addr != (front + back)[j].addr
    {
      if i < |front| <= j {
        assert front[i] in front && back[j - |front|] in back;
      }
    }
  }

  lemma AllRegistersDistinct(slots: TimedSlots)
    ensures |AllRegisters(slots)| == ALL_WORDS && Distinct(AllRegisters(slots))
  {
    var first := TimedSlotWriteRegisters(0, slots[0]);
    var second := TimedSlotWriteRegisters(1, slots[1]);
    var third := TimedSlotWriteRegisters(2, slots[2]);
    SlotRegistersDistinct(0, slots[0]);
    SlotRegistersDistinct(1, slots[1]);
    SlotRegistersDistinct(2, slots[2]);
    DistinctAppend(first, second, SlotBase(1) + CHARGE_OFFSET);
    DistinctAppend(first + second, third, SlotBase(2) + CHARGE_OFFSET);
  }

  /** Writing one more word of slot i's list moves that slot one step along the blend. */
  lemma WriteStep(bank: Bank, i: int, from: TimedSlot, to: TimedSlot, p: int)
    requires 0 <= i <= 2 && 0 <= p < SLOT_WORDS
    requires HoldsSlot(bank, i, BlendSlot(from, to, p))
    ensures var r := TimedSlotWriteRegisters(i, to)[p];
            HoldsSlot(bank[r.addr := r.value], i, BlendSlot(from, to, p + 1))
  {
  }

  lemma WriteElsewhere(bank: Bank, i: int, slot: TimedSlot, addr: int, value: Word)
    requires 0 <= i <= 2 && HoldsSlot(bank, i, slot)
    requires addr < SlotBase(i) + CHARGE_OFFSET || addr >= SlotBase(i) + CHARGE_OFFSET + SLOT_WORDS
    ensures HoldsSlot(bank[addr := value], i, slot)
  {
  }

  lemma BlendSlotStart(from: TimedSlot, to: TimedSlot)
    ensures BlendSlot(from, to, 0) == from && BlendSlot(from, to, SLOT_WORDS) == to
  {
  }

  /** After k words of one slot's list, that slot is blended and the other two are untouched. */
  lemma {:induction false} SlotPrefixBlends(bank: Bank, slots: TimedSlots, i: int, to: TimedSlot, p: nat)
    requires 0 <= i <= 2 && p <= SLOT_WORDS && HoldsSlots(bank, slots)
    ensures |TimedSlotWriteRegisters(i, to)| == SLOT_WORDS
    ensures HoldsSlots(Overlay(bank, TimedSlotWriteRegisters(i, to)[..p]), slots[i := BlendSlot(slots[i], to, p)])
    decreases p
  {
    hide TimedSlotWriteRegisters, HoldsSlot, BlendSlot;
    var regs := TimedSlotWriteRegisters(i, to);
    SlotRegistersDistinct(i, to);
    if p == 0 {
      BlendSlotStart(slots[i], to);
      assert slots[i := slots[i]] == slots;
      assert regs[..0] == [];
    } else {
      SlotPrefixBlends(bank, slots, i, to, p - 1);
      OverlaySnoc(bank, regs, p - 1);
      var before := Overlay(bank, regs[..p - 1]);
      WriteStep(before, i, slots[i], to, p - 1);
      forall other | 0 <= other <= 2 && other != i
        ensures HoldsSlot(before[regs[p - 1].addr := regs[p - 1].value], other, slots[other])
      {
        assert regs[p - 1] in regs;
        WriteElsewhere(before, other, slots[other], regs[p - 1].addr, regs[p - 1].value);
      }
    }
  }

  /** After k words of the whole schedule's list, the bank holds the k-blend. */
  lemma PrefixBlends(bank: Bank, from: TimedSlots, to: TimedSlots, k: nat)
    requires k <= ALL_WORDS && HoldsSlots(bank, from)
    ensures |AllRegisters(to)| == ALL_WORDS
    ensures HoldsSlots(Overlay(bank, AllRegisters(to)[..k]), BlendSlots(from, to, k))
  {
    hide TimedSlotWriteRegisters, HoldsSlot;
    SlotRegistersDistinct(0, to[0]);
    SlotRegistersDistinct(1, to[1]);
    SlotRegistersDistinct(2, to[2]);
    var first := TimedSlotWriteRegisters(0, to[0]);
    var second := TimedSlotWriteRegisters(1, to[1]);
    var third := TimedSlotWriteRegisters(2, to[2]);
    var a := if k <= 8 then k else 8;
    var b := if k <= 8 then 0 else if k <= 16 then k - 8 else 8;
    var c := if k <= 16 then 0 else k - 16;
    assert AllRegisters(to)[..k] == first[..a] + second[..b] + third[..c];
    OverlayAppend(bank, first[..a] + second[..b], third[..c]);
    OverlayAppend(bank, first[..a], second[..b]);
    var s1 := from[0 := BlendSlot(from[0], to[0], a)];
    var s2 := s1[1 := BlendSlot(s1[1], to[1], b)];
    var s3 := s2[2 := BlendSlot(s2[2], to[2], c)];
    SlotPrefixBlends(bank, from, 0, to[0], a);
    SlotPrefixBlends(Overlay(bank, first[..a]), s1, 1, to[1], b);
    SlotPrefixBlends(Overlay(Overlay(bank, first[..a]), second[..b]), s2, 2, to[2], c);
    assert s3 == BlendSlots(from, to, k);
  }

  /** A bank that maps a schedule's words spells only one schedule. */
  lemma HoldsUnique(bank: Bank, a: TimedSlots, b: TimedSlots)
    requires HoldsSlots(bank, a) && HoldsSlots(bank, b)
    ensures a == b
  {
    assert a == [a[0], a[1], a[2]] && b == [b[0], b[1], b[2]];
  }

  // ------------------------------------------------------------------- distance

  function Bit(b: bool): nat {
    if b then 1 else 0
  }

  /** How many of a window's four words differ. */
  function WindowDistance(a: TimedWindow, b: TimedWindow): nat {
    Bit(a.start.hour != b.start.hour) + Bit(a.start.minute != b.start.minute)
    + Bit(a.end.hour != b.end.hour) + Bit(a.end.minute != b.end.minute)
  }

  function SlotDistance(a: TimedSlot, b: TimedSlot): nat {
    WindowDistance(a.charge, b.charge) + WindowDistance(a.discharge, b.discharge)
  }

  /** How many of the schedule's twenty-four words differ. */
  function Distance(a: TimedSlots, b: TimedSlots): nat {
    SlotDistance(a[0], b[0]) + SlotDistance(a[1], b[1]) + SlotDistance(a[2], b[2])
  }

  lemma DistanceBound(a: TimedSlots, b: TimedSlots)
    ensures Distance(a, b) <= ALL_WORDS
    ensures Distance(a, b) == 0 <==> a == b
  {
    assert a == [a[0], a[1], a[2]] && b == [b[0], b[1], b[2]];
  }

  lemma BlendWindowTowards(from: TimedWindow, to: TimedWindow, p: int)
    ensures WindowDistance(to, Blend(from, to, p)) + WindowDistance(Blend(from, to, p), from)
        == WindowDistance(to, from)
  {
  }

  lemma BlendSlotTowards(from: TimedSlot, to: TimedSlot, p: int)
    ensures SlotDistance(to, BlendSlot(from, to, p)) + SlotDistance(BlendSlot(from, to, p), from)
        == SlotDistance(to, from)
  {
    BlendWindowTowards(from.charge, to.charge, p);
    BlendWindowTowards(from.charge, to.charge, p - 4);
    BlendWindowTowards(from.discharge, to.discharge, p);
    BlendWindowTowards(from.discharge, to.discharge, p - 4);
  }

  /** Every word written towards `to` comes off the distance to it. */
  lemma BlendTowards(from: TimedSlots, to: TimedSlots, k: int)
    ensures Distance(to, BlendSlots(from, to, k)) + Distance(BlendSlots(from, to, k), from) == Distance(to, from)
  {
    BlendSlotTowards(from[0], to[0], k);
    BlendSlotTowards(from[1], to[1], k - SLOT_WORDS);
    BlendSlotTowards(from[2], to[2], k - 2 * SLOT_WORDS);
  }

  lemma DifferingWindow(bank: Bank, first: int, w: TimedWindow, have: TimedWindow)
    requires HoldsWindow(bank, first, have)
    ensures |Differing(TimedWindowRegisters(first, w), bank)| == WindowDistance(w, have)
  {
    var regs := TimedWindowRegisters(first, w);
    DifferingSnoc(regs, bank, 0);
    DifferingSnoc(regs, bank, 1);
    DifferingSnoc(regs, bank, 2);
    DifferingSnoc(regs, bank, 3);
    assert regs[..0] == [] && regs[..4] == regs;
  }

  lemma DifferingSlot(bank: Bank, i: int, to: TimedSlot, have: TimedSlot)
    requires 0 <= i <= 2 && HoldsSlot(bank, i, have)
    ensures |Differing(TimedSlotWriteRegisters(i, to), bank)| == SlotDistance(to, have)
  {
    var charge := TimedWindowRegisters(SlotBase(i) + CHARGE_OFFSET, to.charge);
    var discharge := TimedWindowRegisters(SlotBase(i) + DISCHARGE_OFFSET, to.discharge);
    DifferingWindow(bank, SlotBase(i) + CHARGE_OFFSET, to.charge, have.charge);
    DifferingWindow(bank, SlotBase(i) + DISCHARGE_OFFSET, to.discharge, have.discharge);
    DifferingAppend(charge, discharge, bank);
    DifferingAppend(discharge, charge, bank);
  }

  /** The number of registers a bank lacks towards a schedule is the distance between the two. */
  lemma DifferingIsDistance(bank: Bank, to: TimedSlots, have: TimedSlots)
    requires HoldsSlots(bank, have)
    ensures |Differing(AllRegisters(to), bank)| == Distance(to, have)
  {
    var first := TimedSlotWriteRegisters(0, to[0]);
    var second := TimedSlotWriteRegisters(1, to[1]);
    var third := TimedSlotWriteRegisters(2, to[2]);
    DifferingAppend(first + second, third, bank);
    DifferingAppend(first, second, bank);
    DifferingSlot(bank, 0, to[0], have[0]);
    DifferingSlot(bank, 1, to[1], have[1]);
    DifferingSlot(bank, 2, to[2], have[2]);
  }
}
