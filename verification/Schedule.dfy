/**
The logical schedule behind the three timed slots: the tariff in slots 1 and 2, the boost
in slot 3, and the plan a boost option turns into. Pure; `now` is in absolute minutes.
 */
module Schedule {
  import opened Wrappers
  import opened Inverter

  const MINUTES_PER_DAY := 1440
  const BOOST_STEP := 15

  /** The wall-clock minute of an instant: what is left after the whole days. */
  function MinuteOf(now: nat): (m: nat)
    ensures m < MINUTES_PER_DAY
  {
    if now < MINUTES_PER_DAY then now else MinuteOf(now - MINUTES_PER_DAY)
  }

  function MinuteOfDay(c: Clock): (m: nat)
    ensures m == 0 <==> c == MIDNIGHT
    ensures c.InRange() ==> m < MINUTES_PER_DAY
  {
    c.hour * 60 + c.minute
  }

  /** A window's end, with 00:00 resolved to end-of-day. */
  function EndMinuteOfDay(c: Clock): nat {
    if c == MIDNIGHT then MINUTES_PER_DAY else MinuteOfDay(c)
  }

  function ClockAt(minute: nat): (c: Clock)
    requires minute < MINUTES_PER_DAY
    ensures c.InRange() && MinuteOfDay(c) == minute
  {
    Clock(minute / 60, minute % 60)
  }

  // ------------------------------------------------- what minutes a window means

  /** Minutes to wait, going forward round the clock, from minute a until minute b. */
  function Ahead(a: nat, b: nat): int {
    if a <= b then b - a else b - a + MINUTES_PER_DAY
  }

  /** Minute m is reached walking forward from minute s before minute e is. */
  predicate Reaches(s: nat, e: nat, m: nat) {
    Ahead(s, m) < if s == e then MINUTES_PER_DAY else Ahead(s, e)
  }

  /** Minute m lies in the window; an end of 00:00 is simply the next midnight. */
  predicate Covers(w: TimedWindow, m: nat) {
    !w.IsZero() && Reaches(MinuteOfDay(w.start), MinuteOfDay(w.end), m)
  }

  /** A set window that would have to run past midnight, or never runs at all. */
  predicate Inverted(w: TimedWindow) {
    !w.IsZero() && MinuteOfDay(w.start) >= EndMinuteOfDay(w.end)
  }

  // ------------------------------------------------------------------- the tariff

  function ToUSlots(tou: TimedWindow): (TimedSlot, TimedSlot) {
    if tou.end != MIDNIGHT && MinuteOfDay(tou.start) < MinuteOfDay(tou.end)
    then (TimedSlot(tou, UNSET), EMPTY)
    else
      var beforeMidnight := TimedSlot(TimedWindow(tou.start, MIDNIGHT), UNSET);
      if tou.end == MIDNIGHT then (beforeMidnight, EMPTY)
      else (beforeMidnight, TimedSlot(TimedWindow(MIDNIGHT, tou.end), UNSET))
  }

  function ToU(slots: TimedSlots): Option<TimedWindow> {
    var first, second := slots[0].charge, slots[1].charge;
    if first.IsZero() then None
    else if second.IsZero() then Some(first)
    else if first.end == MIDNIGHT && second.start == MIDNIGHT then Some(TimedWindow(first.start, second.end))
    else None
  }

  lemma ReachesSplitsAtMidnight(s: nat, e: nat, m: nat)
    requires s < MINUTES_PER_DAY && m < MINUTES_PER_DAY && e < s
    ensures Reaches(s, e, m) <==> Reaches(s, 0, m) || (e != 0 && Reaches(0, e, m))
  {
  }

  lemma MinutesDiffer(a: Clock, b: Clock)
    requires a.InRange() && b.InRange() && a != b
    ensures MinuteOfDay(a) != MinuteOfDay(b)
  {
  }

  /** The three shapes the split takes. */
  lemma TariffCases(tou: TimedWindow)
    requires tou.InRange() && tou.start != tou.end
    ensures tou.end == MIDNIGHT ==> ToUSlots(tou) == (TimedSlot(TimedWindow(tou.start, MIDNIGHT), UNSET), EMPTY)
    ensures tou.end != MIDNIGHT && MinuteOfDay(tou.start) < MinuteOfDay(tou.end)
        ==> ToUSlots(tou) == (TimedSlot(tou, UNSET), EMPTY)
    ensures tou.end != MIDNIGHT && MinuteOfDay(tou.start) >= MinuteOfDay(tou.end)
        ==> && ToUSlots(tou)
            == (TimedSlot(TimedWindow(tou.start, MIDNIGHT), UNSET), TimedSlot(TimedWindow(MIDNIGHT, tou.end), UNSET))
            && MinuteOfDay(tou.start) > MinuteOfDay(tou.end)
  {
    hide MinuteOfDay;
    MinutesDiffer(tou.start, tou.end);
  }

  lemma CoversSplits(start: Clock, end: Clock, m: nat)
    requires end != MIDNIGHT && MinuteOfDay(end) < MinuteOfDay(start) < MINUTES_PER_DAY && m < MINUTES_PER_DAY
    ensures Covers(TimedWindow(start, end), m)
       <==> Covers(TimedWindow(start, MIDNIGHT), m) || Covers(TimedWindow(MIDNIGHT, end), m)
  {
    hide MinuteOfDay;
    ReachesSplitsAtMidnight(MinuteOfDay(start), MinuteOfDay(end), m);
  }

  lemma TariffMinute(tou: TimedWindow, m: nat)
    requires tou.InRange() && tou.start != tou.end && m < MINUTES_PER_DAY
    ensures Covers(tou, m) <==> Covers(ToUSlots(tou).0.charge, m) || Covers(ToUSlots(tou).1.charge, m)
  {
    hide MinuteOfDay;
    TariffCases(tou);
    if tou.end != MIDNIGHT && MinuteOfDay(tou.start) >= MinuteOfDay(tou.end) {
      CoversSplits(tou.start, tou.end, m);
    } else {
      assert ToUSlots(tou).1 == EMPTY && ToUSlots(tou).0.charge == tou;
    }
  }

  lemma TariffShape(tou: TimedWindow, boost: TimedSlot)
    requires tou.InRange() && tou.start != tou.end
    ensures var slots := ToUSlots(tou);
            && !Inverted(slots.0.charge) && !Inverted(slots.1.charge)
            && slots.0.discharge.IsZero() && slots.1.discharge.IsZero()
            && ToU([slots.0, slots.1, boost]) == Some(tou)
  {
    hide MinuteOfDay;
    TariffCases(tou);
    if tou.end == MIDNIGHT {
    } else if MinuteOfDay(tou.start) < MinuteOfDay(tou.end) {
    } else {
      assert !TimedWindow(tou.start, MIDNIGHT).IsZero();
    }
  }

  /** The two slots cover the tariff's minutes, each within one day, and rejoin into it. */
  lemma TariffSplit(tou: TimedWindow, boost: TimedSlot)
    requires tou.InRange() && tou.start != tou.end
    ensures var slots := ToUSlots(tou);
            && (forall m ::
                  0 <= m < MINUTES_PER_DAY ==>
                    (Covers(tou, m) <==> Covers(slots.0.charge, m) || Covers(slots.1.charge, m)))
            && !Inverted(slots.0.charge) && !Inverted(slots.1.charge)
            && slots.0.discharge.IsZero() && slots.1.discharge.IsZero()
            && ToU([slots.0, slots.1, boost]) == Some(tou)
  {
    hide MinuteOfDay;
    TariffShape(tou, boost);
    forall m | 0 <= m < MINUTES_PER_DAY
      ensures Covers(tou, m) <==> Covers(ToUSlots(tou).0.charge, m) || Covers(ToUSlots(tou).1.charge, m)
    {
      TariffMinute(tou, m);
    }
  }

  // ----------------------------------------------------------- the tariff setting

  /** Index of the first separator, or the length of the text. */
  function Cut(s: string): nat
    ensures Cut(s) <= |s|
    ensures Cut(s) < |s| ==> s[Cut(s)] == '-'
    ensures forall k :: 0 <= k < Cut(s) ==> s[k] != '-'
  {
    if s == [] || s[0] == '-' then 0 else 1 + Cut(s[1..])
  }

  datatype ToUError = NoSeparator | BadStart | BadEnd | StartIsEnd

  /** None is the empty setting, which turns tariff assertion off. */
  function ParseToUWindow(s: string): Result<Option<TimedWindow>, ToUError> {
    if s == "" then Success(None)
    else if Cut(s) == |s| then Failure(NoSeparator)
    else
      var start := ParseClock(s[..Cut(s)]);
      var end := ParseClock(s[Cut(s) + 1..]);
      if start.None? then Failure(BadStart)
      else if end.None? then Failure(BadEnd)
      else if start.value == end.value then Failure(StartIsEnd)
      else Success(Some(TimedWindow(start.value, end.value)))
  }

  lemma ClockTextShape(c: Clock)
    requires c.InRange()
    ensures |ClockText(c)| == 5 && forall k :: 0 <= k < 5 ==> ClockText(c)[k] != '-'
  {
  }

  /** A setting is accepted as a window exactly when it is the window's two clocks joined by "-". */
  lemma ToUSettingExact(s: string, w: TimedWindow)
    ensures ParseToUWindow(s) == Success(Some(w))
       <==> w.InRange() && w.start != w.end && s == ClockText(w.start) + "-" + ClockText(w.end)
  {
    if ParseToUWindow(s) == Success(Some(w)) {
      ParseClockExact(s[..Cut(s)], w.start);
      ParseClockExact(s[Cut(s) + 1..], w.end);
      assert s == s[..Cut(s)] + [s[Cut(s)]] + s[Cut(s) + 1..];
    }
    if w.InRange() && w.start != w.end && s == ClockText(w.start) + "-" + ClockText(w.end) {
      ClockTextShape(w.start);
      assert s[..5] == ClockText(w.start) && s[5] == '-' && s[6..] == ClockText(w.end);
      assert forall k :: 0 <= k < 5 ==> s[k] == ClockText(w.start)[k];
      assert Cut(s) == 5;
      ParseClockExact(s[..5], w.start);
      ParseClockExact(s[6..], w.end);
    }
  }

  /**
  What is wrong with a refused setting: no separator, no clock before the first, the same clock
  twice, or else its end.
   */
  lemma ToUSettingRefused(s: string)
    ensures ParseToUWindow(s) == Success(None) <==> s == ""
    ensures ParseToUWindow(s) == Failure(NoSeparator) <==> s != "" && '-' !in s
    ensures ParseToUWindow(s) == Failure(BadStart)
       <==> '-' in s && forall c: Clock :: c.InRange() ==> !(ClockText(c) + "-" <= s)
    ensures ParseToUWindow(s) == Failure(StartIsEnd)
       <==> exists c: Clock :: c.InRange() && s == ClockText(c) + "-" + ClockText(c)
  {
    hide ParseClock, ClockText;
    CutSeparates(s);
    forall c: Clock | c.InRange() ensures ParseClock(s[..Cut(s)]) == Some(c) <==> s[..Cut(s)] == ClockText(c) {
      ParseClockExact(s[..Cut(s)], c);
    }
    if '-' in s {
      ParsedInRange(s[..Cut(s)]);
      forall c: Clock | c.InRange() ensures ClockText(c) + "-" <= s <==> s[..Cut(s)] == ClockText(c) {
        CutPrefix(s, c);
      }
      forall c: Clock | c.InRange()
        ensures s == ClockText(c) + "-" + ClockText(c)
           <==> ParseClock(s[..Cut(s)]) == Some(c) && ParseClock(s[Cut(s) + 1..]) == Some(c)
      {
        TwiceTheClock(s, c);
      }
    }
  }

  lemma CutSeparates(s: string)
    ensures Cut(s) < |s| <==> '-' in s
  {
  }

  lemma ParsedInRange(s: string)
    ensures ParseClock(s).Some? ==> ParseClock(s).value.InRange()
  {
    if ParseClock(s).Some? {
      ParseClockExact(s, ParseClock(s).value);
    }
  }

  lemma CutPrefix(s: string, c: Clock)
    requires c.InRange() && '-' in s
    ensures ClockText(c) + "-" <= s <==> s[..Cut(s)] == ClockText(c)
  {
    ClockTextShape(c);
    hide ClockText;
    CutSeparates(s);
    if ClockText(c) + "-" <= s {
      assert s[..6] == ClockText(c) + "-";
      assert forall k :: 0 <= k < 5 ==> s[k] == s[..6][k] == ClockText(c)[k];
      assert s[5] == s[..6][5] == '-';
      assert Cut(s) == 5;
      assert s[..5] == s[..6][..5];
    }
    if s[..Cut(s)] == ClockText(c) {
      assert s[..Cut(s) + 1] == ClockText(c) + "-";
    }
  }

  lemma TwiceTheClock(s: string, c: Clock)
    requires c.InRange() && '-' in s
    ensures s == ClockText(c) + "-" + ClockText(c)
       <==> ParseClock(s[..Cut(s)]) == Some(c) && ParseClock(s[Cut(s) + 1..]) == Some(c)
  {
    hide ParseClock, ClockText;
    CutSeparates(s);
    ParseClockExact(s[..Cut(s)], c);
    ParseClockExact(s[Cut(s) + 1..], c);
    CutPrefix(s, c);
    if s == ClockText(c) + "-" + ClockText(c) {
      assert ClockText(c) + "-" <= s;
      assert s[Cut(s) + 1..] == ClockText(c);
    }
    assert s == s[..Cut(s)] + [s[Cut(s)]] + s[Cut(s) + 1..];
  }

  // ------------------------------------------------------------------- the boost

  datatype Mode = Off | Charge | Discharge

  datatype Boost = Boost(mode: Mode, window: TimedWindow)

  function BoostOf(slots: TimedSlots): Boost {
    var slot := slots[BOOST_SLOT];
    if !slot.charge.IsZero() then Boost(Charge, slot.charge)
    else if !slot.discharge.IsZero() then Boost(Discharge, slot.discharge)
    else Boost(Off, UNSET)
  }

  /** The slot that carries w in the given direction and nothing in the other. */
  function SlotFor(mode: Mode, w: TimedWindow): TimedSlot {
    if mode == Discharge then TimedSlot(UNSET, w) else TimedSlot(w, UNSET)
  }

  function WindowFor(mode: Mode, slot: TimedSlot): TimedWindow {
    if mode == Discharge then slot.discharge else slot.charge
  }

  /** The window reads as a boost to keep: set, ending before midnight, covering now. */
  predicate Live(w: TimedWindow, now: nat) {
    !w.IsZero() && w.end != MIDNIGHT && MinuteOfDay(w.start) <= MinuteOf(now) < MinuteOfDay(w.end)
  }

  function Kept(w: TimedWindow, now: nat): TimedWindow {
    if Live(w, now) then w else UNSET
  }

  function Running(slot: TimedSlot, now: nat): TimedSlot {
    TimedSlot(Kept(slot.charge, now), Kept(slot.discharge, now))
  }

  /** The tariff setting and whether the manager asserts it. */
  datatype Config = Config(tou: TimedWindow, assertToU: bool) {
    predicate Asserts() {
      assertToU && !tou.IsZero()
    }
  }

  function Desired(cfg: Config, slots: TimedSlots, now: nat): TimedSlots {
    var (first, second) := ToUSlots(cfg.tou);
    var desired := if cfg.Asserts() then slots[0 := first][1 := second] else slots;
    desired[BOOST_SLOT := Running(slots[BOOST_SLOT], now)]
  }

  lemma DesiredInRange(cfg: Config, slots: TimedSlots, now: nat)
    requires cfg.tou.InRange() && SlotsInRange(slots)
    ensures SlotsInRange(Desired(cfg, slots, now))
  {
  }

  /** A window is kept exactly when it stays within one day, has a set end, and covers the present minute. */
  lemma LiveExactly(w: TimedWindow, now: nat)
    requires w.InRange()
    ensures Live(w, now) <==> w.end != MIDNIGHT && !Inverted(w) && Covers(w, MinuteOf(now))
  {
    hide MinuteOfDay;
    assert w.IsZero() ==> w.end == MIDNIGHT;
  }

  /** An asserted schedule charges over exactly the tariff's minutes, and asking again changes nothing. */
  lemma DesiredMeaning(cfg: Config, slots: TimedSlots, now: nat)
    requires cfg.tou.InRange() && cfg.tou.start != cfg.tou.end
    ensures var want := Desired(cfg, slots, now);
            && Desired(cfg, want, now) == want
            && (!cfg.assertToU ==> want[0] == slots[0] && want[1] == slots[1])
            && (cfg.assertToU ==>
                  && ToU(want) == Some(cfg.tou) && want[0].discharge.IsZero() && want[1].discharge.IsZero()
                  && forall m :: 0 <= m < MINUTES_PER_DAY
                      ==> (Covers(cfg.tou, m) <==> Covers(want[0].charge, m) || Covers(want[1].charge, m)))
  {
    hide MinuteOfDay, Covers, MinuteOf;
    var want := Desired(cfg, slots, now);
    TariffSplit(cfg.tou, want[2]);
    assert cfg.assertToU ==> want == [ToUSlots(cfg.tou).0, ToUSlots(cfg.tou).1, want[2]];
    assert Desired(cfg, want, now)[2] == want[2];
  }

  /**
  A tariff that is off, or unset, whatever the switch says, leaves slots 1 and 2 to the owner; slot
  3 never touches them.
   */
  lemma UnassertedLeaves(cfg: Config, slots: TimedSlots, now: nat)
    requires !cfg.assertToU || cfg.tou == TimedWindow(Clock(0, 0), Clock(0, 0))
    ensures Desired(cfg, slots, now)[0] == slots[0] && Desired(cfg, slots, now)[1] == slots[1]
  {
  }

  /** Each direction of slot 3 is kept or cleared on its own, as it is live or not. */
  lemma DirectionsApart(cfg: Config, slots: TimedSlots, now: nat)
    ensures var was, want := slots[2], Desired(cfg, slots, now)[2];
            && want.charge == (if Live(was.charge, now) then was.charge else TimedWindow(Clock(0, 0), Clock(0, 0)))
            && want.discharge == (if Live(was.discharge, now) then was.discharge
                else TimedWindow(Clock(0, 0), Clock(0, 0)))
  {
  }

  // --------------------------------------------------------------------- planning

  predicate Intersects(aStart: nat, aEnd: nat, bStart: nat, bEnd: nat) {
    aStart < bEnd && bStart < aEnd
  }

  predicate Overlaps(w: TimedWindow, start: nat, end: nat) {
    if w.IsZero() then false
    else
      var windowStart, windowEnd := MinuteOfDay(w.start), EndMinuteOfDay(w.end);
      if windowStart < windowEnd then Intersects(start, end, windowStart, windowEnd)
      else Intersects(start, end, windowStart, MINUTES_PER_DAY) || Intersects(start, end, 0, windowEnd)
  }

  predicate SharesMinute(w: TimedWindow, start: nat, end: nat) {
    exists m :: start <= m < end && Covers(w, m)
  }

  /** The range test of `overlaps` is intersection of minute sets, across midnight too. */
  lemma OverlapsIsIntersection(w: TimedWindow, start: nat, end: nat)
    requires w.InRange() && start < end <= MINUTES_PER_DAY
    ensures Overlaps(w, start, end) <==> SharesMinute(w, start, end)
  {
    hide MinuteOfDay;
    if Overlaps(w, start, end) {
      var s := MinuteOfDay(w.start);
      var m := if start <= s < end then s else start;
      assert Covers(w, m);
    }
  }

  datatype PlanError = NoWindow | BadDuration | CrossesMidnight | OverlapsToU

  function PlanBoost(mode: Mode, minutes: int, now: nat, cfg: Config): Result<TimedSlot, PlanError> {
    if mode != Charge && mode != Discharge then Failure(NoWindow)
    else if minutes <= 0 || minutes % BOOST_STEP != 0 then Failure(BadDuration)
    else
      var start := MinuteOf(now);
      var end := (start / BOOST_STEP + 1) * BOOST_STEP + minutes - BOOST_STEP;
      if end >= MINUTES_PER_DAY then Failure(CrossesMidnight)
      else
        var window := TimedWindow(ClockAt(start), ClockAt(end));
        if cfg.assertToU && Overlaps(cfg.tou, start, end) then Failure(OverlapsToU)
        else Success(SlotFor(mode, window))
  }

  /** The end a boost of this length has: the quarter-hour that makes it last (minutes-15, minutes]. */
  predicate EndsOnGrid(now: nat, minutes: int, end: int) {
    end % BOOST_STEP == 0 && minutes - BOOST_STEP < end - MinuteOf(now) <= minutes
  }

  /** When a boost is refused, for which reason, and exactly what an accepted one holds. */
  lemma PlanExact(mode: Mode, minutes: int, now: nat, cfg: Config, end: nat)
    requires mode != Off && minutes > 0 && minutes % BOOST_STEP == 0 && cfg.tou.InRange()
    requires EndsOnGrid(now, minutes, end)
    ensures var plan := PlanBoost(mode, minutes, now, cfg);
            var clash := cfg.assertToU && SharesMinute(cfg.tou, MinuteOf(now), end);
            && (plan == Failure(CrossesMidnight) <==> end >= MINUTES_PER_DAY)
            && (plan == Failure(OverlapsToU) <==> end < MINUTES_PER_DAY && clash)
            && (plan.Success? <==> end < MINUTES_PER_DAY && !clash)
            && (end < MINUTES_PER_DAY && plan.Success?
                ==> plan.value == SlotFor(mode, TimedWindow(ClockAt(MinuteOf(now)), ClockAt(end))))
  {
    hide MinuteOfDay;
    var start := MinuteOf(now);
    GridEndUnique(start, minutes, end);
    if end < MINUTES_PER_DAY {
      OverlapsIsIntersection(cfg.tou, start, end);
    }
  }

  lemma GridEndUnique(start: nat, minutes: int, end: int)
    requires minutes > 0 && minutes % BOOST_STEP == 0
    requires end % BOOST_STEP == 0 && minutes - BOOST_STEP < end - start <= minutes
    ensures end == (start / BOOST_STEP + 1) * BOOST_STEP + minutes - BOOST_STEP
  {
    var q := minutes / BOOST_STEP;
    var e := end / BOOST_STEP;
    assert minutes == q * BOOST_STEP && end == e * BOOST_STEP;
  }

  lemma GridEndHolds(start: nat, minutes: int)
    requires minutes > 0 && minutes % BOOST_STEP == 0
    ensures var end := (start / BOOST_STEP + 1) * BOOST_STEP + minutes - BOOST_STEP;
            end % BOOST_STEP == 0 && start < end && minutes - BOOST_STEP < end - start <= minutes
  {
    assert (start / BOOST_STEP) * BOOST_STEP <= start < (start / BOOST_STEP + 1) * BOOST_STEP;
  }

  /** An accepted plan arms one direction with a window that starts now and ends later today. */
  lemma PlanShape(mode: Mode, minutes: int, now: nat, cfg: Config)
    requires PlanBoost(mode, minutes, now, cfg).Success?
    ensures var slot := PlanBoost(mode, minutes, now, cfg).value;
            var w := WindowFor(mode, slot);
            && mode != Off && slot == SlotFor(mode, w) && w.InRange()
            && MinuteOfDay(w.start) == MinuteOf(now) < MinuteOfDay(w.end) < MINUTES_PER_DAY
            && EndsOnGrid(now, minutes, MinuteOfDay(w.end))
            && Live(w, now)
  {
    hide MinuteOfDay, MinuteOf, Overlaps;
    GridEndHolds(MinuteOf(now), minutes);
  }

  // -------------------------------------------------------------- the select entity

  const BOOST_DURATIONS: seq<nat> := [15, 30, 45, 60]

  function ModeName(mode: Mode): string {
    match mode
    case Off => "Off"
    case Charge => "Charge"
    case Discharge => "Discharge"
  }

  function Decimal(n: nat): string {
    if n < 10 then [DigitChar(n)] else Decimal(n / 10) + [DigitChar(n % 10)]
  }

  function BoostOption(mode: Mode, minutes: nat): string {
    ModeName(mode) + " " + Decimal(minutes) + " min"
  }

  /** The eight options that run, letter for letter. */
  lemma OptionLetters()
    ensures BoostOption(Charge, 15) == "Charge 15 min" && BoostOption(Charge, 30) == "Charge 30 min"
    ensures BoostOption(Charge, 45) == "Charge 45 min" && BoostOption(Charge, 60) == "Charge 60 min"
    ensures BoostOption(Discharge, 15) == "Discharge 15 min" && BoostOption(Discharge, 30) == "Discharge 30 min"
    ensures BoostOption(Discharge, 45) == "Discharge 45 min" && BoostOption(Discharge, 60) == "Discharge 60 min"
  {
    assert Decimal(15) == "15" && Decimal(30) == "30" && Decimal(45) == "45" && Decimal(60) == "60";
  }

  /** The select's options in order. */
  method BoostOptions() returns (options: seq<string>)
    ensures options == ["Off", "Charge 15 min", "Charge 30 min", "Charge 45 min", "Charge 60 min",
                        "Discharge 15 min", "Discharge 30 min", "Discharge 45 min", "Discharge 60 min"]
    ensures options == ["Off"] + seq(4, k requires 0 <= k < 4 => BoostOption(Charge, BOOST_DURATIONS[k]))
                               + seq(4, k requires 0 <= k < 4 => BoostOption(Discharge, BOOST_DURATIONS[k]))
  {
    options := [ModeName(Off)];
    for k := 0 to 4
      invariant options == ["Off"] + seq(k, j requires 0 <= j < k => BoostOption(Charge, BOOST_DURATIONS[j]))
    {
      options := options + [BoostOption(Charge, BOOST_DURATIONS[k])];
    }
    ghost var charging := options;
    for k := 0 to 4
      invariant options == charging + seq(k, j requires 0 <= j < k => BoostOption(Discharge, BOOST_DURATIONS[j]))
    {
      options := options + [BoostOption(Discharge, BOOST_DURATIONS[k])];
    }
    OptionLetters();
  }

  /** White space as Unicode has it. */
  predicate IsSpace(c: char) {
    var n := c as int;
    || 9 <= n <= 13 || n == 0x20 || n == 0x85 || n == 0xA0 || n == 0x1680 || 0x2000 <= n <= 0x200A
    || n == 0x2028 || n == 0x2029 || n == 0x202F || n == 0x205F || n == 0x3000
  }

  function TrimLeft(s: string): string {
    if s != [] && IsSpace(s[0]) then TrimLeft(s[1..]) else s
  }

  function TrimRight(s: string): string {
    if s != [] && IsSpace(s[|s| - 1]) then TrimRight(s[..|s| - 1]) else s
  }

  function TrimSpace(s: string): string {
    TrimRight(TrimLeft(s))
  }

  function FindDuration(s: string, mode: Mode, durations: seq<nat>): Option<nat> {
    if durations == [] then None
    else if s == BoostOption(mode, durations[0]) then Some(durations[0])
    else FindDuration(s, mode, durations[1..])
  }

  function ParseBoostOption(payload: string): Option<(Mode, nat)> {
    var s := TrimSpace(payload);
    if s == ModeName(Off) then Some((Off, 0))
    else
      var charge := FindDuration(s, Charge, BOOST_DURATIONS);
      var discharge := FindDuration(s, Discharge, BOOST_DURATIONS);
      if charge.Some? then Some((Charge, charge.value))
      else if discharge.Some? then Some((Discharge, discharge.value))
      else None
  }

  function RoundUpToStep(minutes: int): int {
    if minutes <= 0 then minutes else (minutes + BOOST_STEP - 1) / BOOST_STEP * BOOST_STEP
  }

  /** None is the JSON null of a window the options cannot express. */
  function BoostSelectState(slots: TimedSlots): Option<string> {
    var boost := BoostOf(slots);
    if boost.mode == Off then Some(ModeName(Off))
    else
      var minutes := RoundUpToStep(EndMinuteOfDay(boost.window.end) - MinuteOfDay(boost.window.start));
      if minutes in BOOST_DURATIONS then Some(BoostOption(boost.mode, minutes)) else None
  }

  lemma {:induction false} FindDurationExact(s: string, mode: Mode, durations: seq<nat>)
    ensures FindDuration(s, mode, durations).Some?
        ==> FindDuration(s, mode, durations).value in durations
            && s == BoostOption(mode, FindDuration(s, mode, durations).value)
    ensures FindDuration(s, mode, durations).None? ==> forall d :: d in durations ==> s != BoostOption(mode, d)
  {
    if durations != [] {
      FindDurationExact(s, mode, durations[1..]);
    }
  }

  /** A payload that parses is, once trimmed, the text of the option it parses to. */
  lemma ParseBoostSound(payload: string)
    requires ParseBoostOption(payload).Some?
    ensures var (mode, minutes) := ParseBoostOption(payload).value;
            if mode == Off then minutes == 0 && TrimSpace(payload) == "Off"
            else minutes in BOOST_DURATIONS && TrimSpace(payload) == BoostOption(mode, minutes)
  {
    FindDurationExact(TrimSpace(payload), Charge, BOOST_DURATIONS);
    FindDurationExact(TrimSpace(payload), Discharge, BOOST_DURATIONS);
  }

  lemma OptionText(mode: Mode, minutes: nat)
    requires mode != Off && minutes in BOOST_DURATIONS
    ensures |Decimal(minutes)| == 2
        && BoostOption(mode, minutes) == ModeName(mode) + [' '] + Decimal(minutes) + [' ', 'm', 'i', 'n']
    ensures Decimal(minutes) == [DigitChar(minutes / 10), DigitChar(minutes % 10)]
    ensures TrimSpace(BoostOption(mode, minutes)) == BoostOption(mode, minutes)
  {
  }

  lemma OptionsDiffer(mode: Mode, minutes: nat, mode': Mode, minutes': nat)
    requires mode != Off && mode' != Off && minutes in BOOST_DURATIONS && minutes' in BOOST_DURATIONS
    requires mode != mode' || minutes != minutes'
    ensures BoostOption(mode, minutes) != BoostOption(mode', minutes')
  {
    OptionText(mode, minutes);
    OptionText(mode', minutes');
    var a, b := BoostOption(mode, minutes), BoostOption(mode', minutes');
    assert a[0] == ModeName(mode)[0] && b[0] == ModeName(mode')[0];
    if mode == mode' {
      var at := |ModeName(mode)| + 1;
      assert a[at] == DigitChar(minutes / 10) && b[at] == DigitChar(minutes' / 10);
    }
  }

  /** The text of an option. */
  function OptionName(mode: Mode, minutes: nat): string {
    if mode == Off then "Off" else BoostOption(mode, minutes)
  }

  predicate IsOption(mode: Mode, minutes: nat) {
    if mode == Off then minutes == 0 else minutes in BOOST_DURATIONS
  }

  lemma OptionParses(payload: string, mode: Mode, minutes: nat)
    requires mode != Off && minutes in BOOST_DURATIONS && TrimSpace(payload) == BoostOption(mode, minutes)
    ensures ParseBoostOption(payload) == Some((mode, minutes))
  {
    var s := TrimSpace(payload);
    OptionText(mode, minutes);
    assert s[0] == ModeName(mode)[0] != 'O';
    FindDurationExact(s, Charge, BOOST_DURATIONS);
    FindDurationExact(s, Discharge, BOOST_DURATIONS);
    forall mode': Mode, d | mode' != Off && d in BOOST_DURATIONS && (mode', d) != (mode, minutes)
      ensures s != BoostOption(mode', d)
    {
      OptionsDiffer(mode, minutes, mode', d);
    }
  }

  /** A payload parses to an option exactly when, trimmed, it is that option's text. */
  lemma ParseBoostExact(payload: string, mode: Mode, minutes: nat)
    ensures ParseBoostOption(payload) == Some((mode, minutes))
       <==> IsOption(mode, minutes) && TrimSpace(payload) == OptionName(mode, minutes)
  {
    hide TrimSpace, BoostOption, FindDuration;
    if ParseBoostOption(payload).Some? {
      ParseBoostSound(payload);
    }
    if IsOption(mode, minutes) && mode != Off && TrimSpace(payload) == BoostOption(mode, minutes) {
      OptionParses(payload, mode, minutes);
    }
  }

  /** Every option's own text parses back to that option. */
  lemma ParseBoostComplete(mode: Mode, minutes: nat)
    requires IsOption(mode, minutes)
    ensures ParseBoostOption(OptionName(mode, minutes)) == Some((mode, minutes))
  {
    if mode != Off {
      OptionText(mode, minutes);
    }
    ParseBoostExact(OptionName(mode, minutes), mode, minutes);
  }

  /** The nine texts and what each asks for. */
  predicate Asks(text: string, mode: Mode, minutes: nat) {
    || (text == "Off" && mode == Off && minutes == 0)
    || (text == "Charge 15 min" && mode == Charge && minutes == 15)
    || (text == "Charge 30 min" && mode == Charge && minutes == 30)
    || (text == "Charge 45 min" && mode == Charge && minutes == 45)
    || (text == "Charge 60 min" && mode == Charge && minutes == 60)
    || (text == "Discharge 15 min" && mode == Discharge && minutes == 15)
    || (text == "Discharge 30 min" && mode == Discharge && minutes == 30)
    || (text == "Discharge 45 min" && mode == Discharge && minutes == 45)
    || (text == "Discharge 60 min" && mode == Discharge && minutes == 60)
  }

  lemma OptionsAsk(text: string, mode: Mode, minutes: nat)
    ensures Asks(text, mode, minutes) <==> IsOption(mode, minutes) && text == OptionName(mode, minutes)
  {
    hide BoostOption;
    OptionLetters();
  }

  /** A payload parses to a mode and minutes exactly when, trimmed, it is the text that asks for them. */
  lemma ParseBoostAsks(payload: string, mode: Mode, minutes: nat)
    ensures ParseBoostOption(payload) == Some((mode, minutes)) <==> Asks(TrimSpace(payload), mode, minutes)
  {
    hide Asks, IsOption, OptionName, TrimSpace;
    ParseBoostExact(payload, mode, minutes);
    OptionsAsk(TrimSpace(payload), mode, minutes);
  }

  /** Trimming takes white space off both ends and stops at the first character that is none. */
  lemma TrimSpaceExact(s: string) returns (left: string, right: string)
    ensures s == left + TrimSpace(s) + right
    ensures (forall c :: c in left || c in right ==> IsSpace(c))
    ensures TrimSpace(s) != "" ==> !IsSpace(TrimSpace(s)[0]) && !IsSpace(TrimSpace(s)[|TrimSpace(s)| - 1])
  {
    hide IsSpace;
    left := TrimLeftExact(s);
    var t := TrimLeft(s);
    right := TrimRightExact(t);
    assert t == TrimRight(t) + right;
    assert TrimRight(t) != "" ==> TrimRight(t)[0] == t[0];
  }

  lemma {:induction false} TrimLeftExact(s: string) returns (left: string)
    ensures s == left + TrimLeft(s) && (forall c :: c in left ==> IsSpace(c))
    ensures TrimLeft(s) != "" ==> !IsSpace(TrimLeft(s)[0])
    decreases |s|
  {
    hide IsSpace;
    if s != [] && IsSpace(s[0]) {
      var rest := TrimLeftExact(s[1..]);
      left := [s[0]] + rest;
      assert s == [s[0]] + s[1..];
    } else {
      left := "";
    }
  }

  lemma {:induction false} TrimRightExact(s: string) returns (right: string)
    ensures s == TrimRight(s) + right && (forall c :: c in right ==> IsSpace(c))
    ensures TrimRight(s) != "" ==> !IsSpace(TrimRight(s)[|TrimRight(s)| - 1])
    decreases |s|
  {
    hide IsSpace;
    if s != [] && IsSpace(s[|s| - 1]) {
      var rest := TrimRightExact(s[..|s| - 1]);
      right := rest + [s[|s| - 1]];
      assert s == s[..|s| - 1] + [s[|s| - 1]];
    } else {
      right := "";
    }
  }

  // ------------------------------------------------------------- in hours and minutes

  lemma {:induction false} MinuteOfIsModulo(now: nat)
    ensures MinuteOf(now) == now % 1440
    decreases now
  {
    if now >= MINUTES_PER_DAY {
      MinuteOfIsModulo(now - MINUTES_PER_DAY);
    }
  }

  /** Which minutes a window covers, on the clock's own terms: an end at or before the start is past midnight. */
  lemma CoversInClocks(w: TimedWindow, m: nat)
    requires w.InRange() && m < 1440
    ensures var start, end := w.start.hour * 60 + w.start.minute, w.end.hour * 60 + w.end.minute;
            Covers(w, m) <==> if start < end then start <= m < end
                              else !(start == 0 && end == 0) && (start <= m || m < end)
  {
  }

  /** An accepted plan on the clock: from the present minute to a quarter-hour of the same day, at most `minutes` on. */
  lemma PlanInClocks(mode: Mode, minutes: int, now: nat, cfg: Config)
    requires PlanBoost(mode, minutes, now, cfg).Success?
    ensures var slot := PlanBoost(mode, minutes, now, cfg).value;
            var w := if mode == Charge then slot.charge else slot.discharge;
            var start, end := w.start.hour * 60 + w.start.minute, w.end.hour * 60 + w.end.minute;
            && (mode == Charge || mode == Discharge)
            && (if mode == Charge then slot.discharge else slot.charge) == UNSET
            && start == now % 1440 && end % 15 == 0 && end < 1440 && minutes - 15 < end - start <= minutes
  {
    hide PlanBoost, MinuteOf;
    PlanShape(mode, minutes, now, cfg);
    MinuteOfIsModulo(now);
  }

  /** The minutes left to run that the select rounds up: the end 00:00 is the day's. */
  function Span(w: TimedWindow): int {
    (if w.end.hour == 0 && w.end.minute == 0 then 1440 else w.end.hour * 60 + w.end.minute)
    - (w.start.hour * 60 + w.start.minute)
  }

  lemma RoundsUp(length: int, minutes: nat)
    requires minutes == 15 || minutes == 30 || minutes == 45 || minutes == 60
    ensures RoundUpToStep(length) == minutes <==> minutes - 15 < length <= minutes
  {
  }

  /**
  What the select shows: the text for the slot's direction and the span's quarter-hours, and
  nothing beyond the hour.
   */
  predicate Shows(slot: TimedSlot, mode: Mode, minutes: nat) {
    if mode == Off then slot.charge == UNSET && slot.discharge == UNSET
    else if mode == Charge then slot.charge != UNSET && minutes - 15 < Span(slot.charge) <= minutes
    else slot.charge == UNSET && slot.discharge != UNSET && minutes - 15 < Span(slot.discharge) <= minutes
  }

  lemma SelectStateCases(slots: TimedSlots)
    ensures var slot := slots[2];
            var w := if slot.charge != UNSET then slot.charge else slot.discharge;
            var mode := if slot.charge != UNSET then Charge else Discharge;
            BoostSelectState(slots) == if slot == EMPTY then Some("Off")
                                       else if RoundUpToStep(Span(w)) in BOOST_DURATIONS
                                           then Some(BoostOption(mode, RoundUpToStep(Span(w))))
                                       else None
  {
    hide RoundUpToStep, BoostOption;
  }

  /** The select shows a text exactly when slot 3 holds what it asks for, as far as a quarter-hour. */
  lemma SelectStateExact(slots: TimedSlots, text: string, mode: Mode, minutes: nat)
    requires Asks(text, mode, minutes)
    ensures BoostSelectState(slots) == Some(text) <==> Shows(slots[2], mode, minutes)
  {
    hide RoundUpToStep, BoostOption, BoostSelectState, Span;
    SelectStateCases(slots);
    OptionsAsk(text, mode, minutes);
    OptionLetters();
    if mode != Off {
      RoundsUp(Span(slots[2].charge), minutes);
      RoundsUp(Span(slots[2].discharge), minutes);
    }
  }

  /** It shows nothing exactly when slot 3 holds a window that spans no minute or more than an hour. */
  lemma SelectStateNone(slots: TimedSlots)
    ensures BoostSelectState(slots) == None
       <==> && slots[2] != EMPTY
            && !(0 < Span(if slots[2].charge != UNSET then slots[2].charge else slots[2].discharge) <= 60)
  {
    hide BoostOption, BoostSelectState, Span;
    SelectStateCases(slots);
    assert slots[2] == EMPTY <==> slots[2].charge == UNSET && slots[2].discharge == UNSET;
  }

  // ---------------------------------------------------------- the tariff read back

  predicate ZeroClock(c: Clock) {
    c.hour == 0 && c.minute == 0
  }

  predicate Set(w: TimedWindow) {
    !(ZeroClock(w.start) && ZeroClock(w.end))
  }

  /**
  A tariff is recognised exactly if slot 1 charges and slot 2, if it does, goes on where slot 1
  stops, at midnight.
   */
  lemma ToURecognised(slots: TimedSlots)
    ensures var first, second := slots[0].charge, slots[1].charge;
            && (ToU(slots).Some? <==> Set(first) && (Set(second) ==> ZeroClock(first.end) && ZeroClock(second.start)))
            && (ToU(slots).Some? ==>
                  && ToU(slots).value.start == first.start
                  && ToU(slots).value.end == if Set(second) then second.end else first.end)
  {
    assert Set(slots[0].charge) <==> !slots[0].charge.IsZero();
    assert Set(slots[1].charge) <==> !slots[1].charge.IsZero();
  }

  /** The minute is one the two slots charge over. */
  predicate Charges(slots: TimedSlots, m: nat) {
    Covers(slots[0].charge, m) || Covers(slots[1].charge, m)
  }

  /** What is recognised covers what the slots charge over, unless slot 2 runs on into slot 1. */
  lemma ToUMeaning(slots: TimedSlots)
    requires slots[0].charge.InRange() && slots[1].charge.InRange() && ToU(slots).Some?
    ensures (forall m :: 0 <= m < 1440 ==> (Covers(ToU(slots).value, m) <==> Charges(slots, m)))
       <==> !Set(slots[1].charge) || MinuteOfDay(slots[1].charge.end) <= MinuteOfDay(slots[0].charge.start)
  {
    hide MinuteOfDay;
    var first, second := slots[0].charge, slots[1].charge;
    ToURecognised(slots);
    if Set(second) {
      var s, e := MinuteOfDay(first.start), MinuteOfDay(second.end);
      assert !second.IsZero() && second.start == MIDNIGHT && first.end == MIDNIGHT;
      if e > s {
        assert Charges(slots, 0) && !Covers(ToU(slots).value, 0);
      }
    } else {
      assert second == UNSET;
    }
  }
}
