/**
The register link and the guarded write over it. A fate is drawn for every frame, so a
property of all `fates` is a property of every pattern of lost frames, lost replies and
writes the inverter acknowledges but ignores. Successful reads are honest.
 */
module Links {
  import opened Wrappers
  import opened Inverter
  import opened Banks

  /** A read gets a reply only under Deliver; LoseReply lands a write whose reply is lost. */
  datatype Fate = Deliver | Drop | LoseReply | Ignore

  type Fates = nat -> Fate

  /** One frame on the wire, with the bank as it stands once the frame is over. */
  datatype Frame =
    | Read(addr: int, count: nat, reply: Option<seq<Word>>, bank: Bank)
    | Write(addr: int, value: Word, landed: bool, acked: bool, bank: Bank)

  datatype Link = Link(bank: Bank, trace: seq<Frame>)

  function ReadFrame(f: Fates, s: Link, addr: int, count: nat): (Link, Option<seq<Word>>) {
    var reply := if f(|s.trace|) == Deliver && BlockMapped(s.bank, addr, count)
        then Some(BlockWords(s.bank, addr, count)) else None;
    (Link(s.bank, s.trace + [Read(addr, count, reply, s.bank)]), reply)
  }

  function WriteFrame(f: Fates, s: Link, addr: int, value: Word): (Link, bool) {
    var fate := f(|s.trace|);
    var landed := addr in s.bank && (fate == Deliver || fate == LoseReply);
    var acked := addr in s.bank && (fate == Deliver || fate == Ignore);
    var bank := if landed then s.bank[addr := value] else s.bank;
    (Link(bank, s.trace + [Write(addr, value, landed, acked, bank)]), acked)
  }

  function ReadOne(f: Fates, s: Link, addr: int): (Link, Option<Word>) {
    var (next, reply) := ReadFrame(f, s, addr, 1);
    (next, if reply.Some? && |reply.value| >= 1 then Some(reply.value[0]) else None)
  }

  /** Every fault can befall a frame: a read is lost, and a write lands or not, acknowledged or not. */
  lemma EveryFault(s: Link, addr: int, value: Word, landed: bool, acked: bool)
    requires addr in s.bank && s.bank[addr] != value
    ensures exists f: Fates :: ReadOne(f, s, addr).1 == None
    ensures exists f: Fates :: ReadOne(f, s, addr).1 == Some(s.bank[addr])
    ensures exists f: Fates ::
      var (t, a) := WriteFrame(f, s, addr, value);
      a == acked && t.bank == if landed then s.bank[addr := value] else s.bank
  {
    var lost: Fates := (i: nat) => Drop;
    var fine: Fates := (i: nat) => Deliver;
    var fate: Fates := (i: nat) =>
      if landed && acked then Deliver else if landed then LoseReply else if acked then Ignore else Drop;
    assert ReadOne(lost, s, addr).1 == None;
    assert ReadOne(fine, s, addr).1 == Some(s.bank[addr]);
    var (t, a) := WriteFrame(fate, s, addr, value);
    assert a == acked && t.bank == if landed then s.bank[addr := value] else s.bank;
  }

  // ------------------------------------------------------------------- the guard

  datatype GuardError = CurrentUnread(addr: int) | WriteRefused(addr: int) | ConfirmUnread(addr: int)
      | NotConfirmed(addr: int)

  datatype GuardResult = GuardResult(skipped: bool, wrote: bool, confirmed: bool, was: Word, became: Word,
      err: Option<GuardError>)

  /** Read, write only if different, read again. */
  function GuardSpec(f: Fates, s: Link, addr: int, desired: Word): (Link, GuardResult) {
    var (s1, current) := ReadOne(f, s, addr);
    if current.None? then (s1, GuardResult(false, false, false, 0, 0, Some(CurrentUnread(addr))))
    else if current.value == desired then (s1, GuardResult(true, false, false, desired, desired, None))
    else
      var (s2, acked) := WriteFrame(f, s1, addr, desired);
      if !acked then (s2, GuardResult(false, false, false, current.value, 0, Some(WriteRefused(addr))))
      else
        var (s3, reread) := ReadOne(f, s2, addr);
        if reread.None? then (s3, GuardResult(false, true, false, current.value, 0, Some(ConfirmUnread(addr))))
        else if reread.value != desired
            then (s3, GuardResult(false, true, false, current.value, reread.value, Some(NotConfirmed(addr))))
        else (s3, GuardResult(false, true, true, current.value, reread.value, None))
  }

  /** The guard, entered once more if it failed without an acknowledged write. */
  function AttemptSpec(f: Fates, s: Link, r: Register): (Link, bool, Option<GuardError>) {
    var (s1, first) := GuardSpec(f, s, r.addr, r.value);
    if first.err.Some? && !first.wrote then
      var (s2, second) := GuardSpec(f, s1, r.addr, r.value);
      (s2, second.wrote, second.err)
    else (s1, first.wrote, first.err)
  }

  /** How a register sequence ended: `at` registers were guarded before it stopped. */
  datatype Outcome = Outcome(link: Link, wrote: bool, err: Option<GuardError>, at: nat)

  function SequenceSpec(f: Fates, s: Link, regs: seq<Register>, wrote: bool, at: nat): Outcome
    decreases |regs|
  {
    if regs == [] then Outcome(s, wrote, None, at)
    else
      var (next, w, err) := AttemptSpec(f, s, regs[0]);
      if err.Some? then Outcome(next, wrote || w, err, at)
      else SequenceSpec(f, next, regs[1..], wrote || w, at + 1)
  }

  // -------------------------------------------------------------- what a trace shows

  /** The read of addr returned a value other than v. */
  predicate ReadsOther(fr: Frame, addr: int, v: Word) {
    fr.Read? && fr.addr == addr && fr.reply.Some? && |fr.reply.value| == 1 && fr.reply.value[0] != v
  }

  /** From frame n on, every write directly follows a read of its register that returned another value. */
  predicate WearSafe(trace: seq<Frame>, n: nat) {
    forall i :: n <= i < |trace| && trace[i].Write? ==> i > n && ReadsOther(trace[i - 1], trace[i].addr, trace[i].value)
  }

  /** Writes that reached the bank. */
  function Landings(trace: seq<Frame>): nat {
    if trace == [] then 0
    else
      var last := trace[|trace| - 1];
      Landings(trace[..|trace| - 1]) + if last.Write? && last.landed then 1 else 0
  }

  predicate AckedSince(trace: seq<Frame>, n: nat) {
    exists i :: n <= i < |trace| && trace[i].Write? && trace[i].acked
  }

  /** Every bank seen from frame n on is one of a and b. */
  predicate BanksAmong(trace: seq<Frame>, n: nat, a: Bank, b: Bank) {
    forall i :: n <= i < |trace| ==> trace[i].bank == a || trace[i].bank == b
  }

  /** One register's step: extends the trace, wears safely, and lands the value at most once. */
  predicate Stepped(s: Link, t: Link, r: Register, wrote: bool, err: Option<GuardError>) {
    && |s.trace| <= |t.trace| && t.trace[..|s.trace|] == s.trace
    && WearSafe(t.trace, |s.trace|)
    && BanksAmong(t.trace, |s.trace|, s.bank, t.bank)
    && (t.bank == s.bank || (r.addr in s.bank && t.bank == s.bank[r.addr := r.value]))
    && (err.None? ==> r.addr in s.bank && t.bank == s.bank[r.addr := r.value])
    && Landings(t.trace) == Landings(s.trace) + (if t.bank == s.bank then 0 else 1)
    && (wrote <==> AckedSince(t.trace, |s.trace|))
  }

  lemma LandingsSnoc(trace: seq<Frame>, fr: Frame)
    ensures Landings(trace + [fr]) == Landings(trace) + if fr.Write? && fr.landed then 1 else 0
  {
    assert (trace + [fr])[..|trace|] == trace;
  }

  lemma NoStep(s: Link, r: Register, err: Option<GuardError>)
    requires err.Some?
    ensures Stepped(s, s, r, false, err)
  {
  }

  lemma ReadAfter(s: Link, t: Link, r: Register, wrote: bool, before: Option<GuardError>, rd: Frame,
      err: Option<GuardError>)
    requires Stepped(s, t, r, wrote, before) && rd.Read? && rd.bank == t.bank
    requires err.None? ==> r.addr in s.bank && t.bank == s.bank[r.addr := r.value]
    ensures Stepped(s, Link(t.bank, t.trace + [rd]), r, wrote, err)
  {
    var u := t.trace + [rd];
    LandingsSnoc(t.trace, rd);
    assert u[..|s.trace|] == t.trace[..|s.trace|];
    if wrote {
      var i :| |s.trace| <= i < |t.trace| && t.trace[i].Write? && t.trace[i].acked;
      assert u[i].Write? && u[i].acked;
    }
  }

  lemma WriteAfter(s: Link, t: Link, r: Register, before: Option<GuardError>, wr: Frame, err: Option<GuardError>)
    requires Stepped(s, t, r, false, before) && t.bank == s.bank && |t.trace| > |s.trace|
    requires ReadsOther(t.trace[|t.trace| - 1], r.addr, r.value)
    requires wr.Write? && wr.addr == r.addr && wr.value == r.value && err.Some?
    requires wr.landed ==> r.addr in s.bank && s.bank[r.addr] != r.value
    requires wr.bank == if wr.landed then s.bank[r.addr := r.value] else s.bank
    ensures Stepped(s, Link(wr.bank, t.trace + [wr]), r, wr.acked, err)
  {
    var u := t.trace + [wr];
    LandingsSnoc(t.trace, wr);
    assert u[..|s.trace|] == t.trace[..|s.trace|];
    assert u[|t.trace|] == wr && u[|t.trace| - 1] == t.trace[|t.trace| - 1];
    if wr.landed {
      assert wr.bank[r.addr] != s.bank[r.addr];
    }
  }

  lemma GuardSteps(f: Fates, s: Link, r: Register)
    ensures var (t, g) := GuardSpec(f, s, r.addr, r.value);
            Stepped(s, t, r, g.wrote, g.err)
  {
    var (t, g) := GuardSpec(f, s, r.addr, r.value);
    var unread := Some(CurrentUnread(r.addr));
    var (s1, current) := ReadOne(f, s, r.addr);
    var rd := s1.trace[|s.trace|];
    NoStep(s, r, unread);
    if current.None? {
      ReadAfter(s, s, r, false, unread, rd, unread);
    } else if current.value == r.value {
      assert s.bank[r.addr := r.value] == s.bank;
      ReadAfter(s, s, r, false, unread, rd, None);
    } else {
      ReadAfter(s, s, r, false, unread, rd, unread);
      var (s2, acked) := WriteFrame(f, s1, r.addr, r.value);
      var wr := s2.trace[|s1.trace|];
      WriteAfter(s, s1, r, unread, wr, unread);
      if !acked {
        WriteAfter(s, s1, r, unread, wr, g.err);
      } else {
        var (s3, reread) := ReadOne(f, s2, r.addr);
        if g.err.None? {
          assert s2.bank == s.bank[r.addr := r.value];
        }
        ReadAfter(s, s2, r, true, unread, s3.trace[|s2.trace|], g.err);
      }
    }
  }

  /** What the guard reports is what happened: skipped, confirmed, and the values before and after. */
  lemma GuardReports(f: Fates, s: Link, r: Register)
    ensures var (t, g) := GuardSpec(f, s, r.addr, r.value);
            && (g.err.None? ==> Holds(t.bank, r) && g.became == r.value && (g.skipped || g.confirmed))
            && (g.skipped ==> g.err.None? && t.bank == s.bank && |t.trace| == |s.trace| + 1 && g.was == r.value)
            && (g.confirmed <==> g.wrote && g.err.None?) && !(g.skipped && g.wrote)
            && (g.wrote ==> r.addr in s.bank && g.was == s.bank[r.addr] && g.was != r.value)
            && (g.err == Some(NotConfirmed(r.addr)) ==> t.bank == s.bank && g.became == g.was)
            && (g.err == Some(CurrentUnread(r.addr)) <==> !g.skipped && |t.trace| == |s.trace| + 1)
            && (g.err == Some(WriteRefused(r.addr)) <==> |t.trace| == |s.trace| + 2)
            && (|t.trace| == |s.trace| + 3 <==> g.wrote)
            && (g.err == Some(ConfirmUnread(r.addr)) <==> g.wrote && t.trace[|s.trace| + 2].reply.None?)
  {
  }

  /**
  One lost or faulty frame stops a register in two cases only: the write was acknowledged but
  ignored, or the read that confirms it was lost. Any other is made good by the retry.
   */
  lemma RetryAbsorbsOneFault(f: Fates, s: Link, r: Register, k: nat)
    requires r.addr in s.bank && forall i :: i >= |s.trace| && i != k ==> f(i) == Deliver
    ensures var write := |s.trace| + 1;
            AttemptSpec(f, s, r).2.Some?
            <==> !Holds(s.bank, r) && ((k == write && f(k) == Ignore) || (k == write + 1 && f(k) != Deliver))
  {
    var (s1, first) := GuardSpec(f, s, r.addr, r.value);
    if first.err.Some? && !first.wrote {
      assert forall i :: i >= |s1.trace| ==> f(i) == Deliver;
    }
  }

  lemma AttemptSteps(f: Fates, s: Link, r: Register)
    ensures var (t, wrote, err) := AttemptSpec(f, s, r);
            Stepped(s, t, r, wrote, err)
  {
    var (s1, first) := GuardSpec(f, s, r.addr, r.value);
    GuardSteps(f, s, r);
    if first.err.Some? && !first.wrote {
      var (s2, second) := GuardSpec(f, s1, r.addr, r.value);
      GuardSteps(f, s1, r);
      StepsCompose(s, s1, s2, r, second.wrote, second.err, first.err);
    }
  }

  lemma StepsCompose(s: Link, s1: Link, s2: Link, r: Register, wrote: bool, err: Option<GuardError>,
      failed: Option<GuardError>)
    requires Stepped(s, s1, r, false, failed) && Stepped(s1, s2, r, wrote, err)
    ensures Stepped(s, s2, r, wrote, err)
  {
    assert s2.trace[..|s.trace|] == s1.trace[..|s.trace|];
    forall i | |s.trace| <= i < |s1.trace| ensures s2.trace[i] == s1.trace[i] {
      assert s2.trace[..|s1.trace|][i] == s1.trace[i];
    }
    if r.addr in s.bank {
      assert s.bank[r.addr := r.value][r.addr := r.value] == s.bank[r.addr := r.value];
    }
    if AckedSince(s2.trace, |s1.trace|) {
      assert AckedSince(s2.trace, |s.trace|);
    }
  }

  // ------------------------------------------------------------- a whole sequence

  /** The bank x is the bank b with some prefix of the registers written. */
  predicate PrefixBank(b: Bank, regs: seq<Register>, x: Bank) {
    exists j :: 0 <= j <= |regs| && x == Overlay(b, regs[..j])
  }

  /** All banks seen from frame n on are prefixes of the sequence over b. */
  predicate PrefixBanks(trace: seq<Frame>, n: nat, b: Bank, regs: seq<Register>) {
    forall i :: n <= i < |trace| ==> PrefixBank(b, regs, trace[i].bank)
  }

  lemma PrefixBankTail(b: Bank, regs: seq<Register>, x: Bank)
    requires regs != [] && PrefixBank(b[regs[0].addr := regs[0].value], regs[1..], x)
    ensures PrefixBank(b, regs, x)
  {
    var j :| 0 <= j <= |regs| - 1 && x == Overlay(b[regs[0].addr := regs[0].value], regs[1..][..j]);
    assert regs[..j + 1][1..] == regs[1..][..j];
    assert x == Overlay(b, regs[..j + 1]);
  }

  lemma PrefixBankHead(b: Bank, regs: seq<Register>)
    requires regs != []
    ensures PrefixBank(b, regs, b) && PrefixBank(b, regs, b[regs[0].addr := regs[0].value])
    ensures Overlay(b, regs[..0]) == b && Overlay(b, regs[..1]) == b[regs[0].addr := regs[0].value]
  {
    var r := regs[0];
    assert regs[..1] == [r] && [r][1..] == [];
    assert Overlay(b, [r]) == Overlay(b[r.addr := r.value], []);
    assert PrefixBank(b, regs, Overlay(b, regs[..0])) && PrefixBank(b, regs, Overlay(b, regs[..1]));
  }

  /**
  How a sequence over the link s may end: with its first `cut` registers written, where `cut` is
  the number guarded, or one more if the register that failed landed all the same; every bank on
  the way is such a prefix too; the writes are wear-safe, each landed once, and `wrote` means one
  was acknowledged.
   */
  ghost predicate CutOutcome(s: Link, regs: seq<Register>, wrote: bool, at: nat, out: Outcome, cut: nat) {
    var done := out.at - at;
    && 0 <= done <= cut <= |regs| && (out.err.None? <==> done == |regs|)
    && (cut == done || (out.err.Some? && cut == done + 1))
    && out.link.bank == Overlay(s.bank, regs[..cut])
    && |s.trace| <= |out.link.trace| && out.link.trace[..|s.trace|] == s.trace
    && PrefixBanks(out.link.trace, |s.trace|, s.bank, regs)
    && WearSafe(out.link.trace, |s.trace|)
    && (out.wrote <==> wrote || AckedSince(out.link.trace, |s.trace|))
    && (Distinct(regs) ==> Landings(out.link.trace) == Landings(s.trace) + |Differing(regs[..cut], s.bank)|)
  }

  lemma CutEmpty(s: Link, wrote: bool, at: nat)
    ensures CutOutcome(s, [], wrote, at, Outcome(s, wrote, None, at), 0)
  {
  }

  lemma CutFailed(s: Link, regs: seq<Register>, wrote: bool, at: nat, next: Link, w: bool, err: Option<GuardError>)
    requires regs != [] && err.Some? && Stepped(s, next, regs[0], w, err)
    ensures CutOutcome(s, regs, wrote, at, Outcome(next, wrote || w, err, at), if next.bank == s.bank then 0 else 1)
  {
    PrefixBankHead(s.bank, regs);
    FirstDiffers(s.bank, regs);
  }

  lemma CutExtended(f: Fates, s: Link, regs: seq<Register>, wrote: bool, at: nat, next: Link, w: bool, rest: nat)
    requires regs != [] && Stepped(s, next, regs[0], w, None)
    requires CutOutcome(next, regs[1..], wrote || w, at + 1, SequenceSpec(f, next, regs[1..], wrote || w, at + 1), rest)
    ensures CutOutcome(s, regs, wrote, at, SequenceSpec(f, next, regs[1..], wrote || w, at + 1), rest + 1)
  {
    hide WearSafe, PrefixBanks, AckedSince, Overlay, Differing, Distinct, SequenceSpec;
    OverlayTail(s.bank, regs, rest + 1);
    SequenceExtends(f, s, next, regs, wrote, w, at);
    FirstDiffers(s.bank, regs);
    if Distinct(regs) {
      DistinctTail(regs);
      DifferingTail(s.bank, regs, rest + 1);
    }
  }

  /** The cut-state contract, whatever the frames' fates. */
  lemma {:induction false} SequenceCut(f: Fates, s: Link, regs: seq<Register>, wrote: bool, at: nat) returns (cut: nat)
    ensures CutOutcome(s, regs, wrote, at, SequenceSpec(f, s, regs, wrote, at), cut)
    decreases |regs|
  {
    hide CutOutcome, Stepped, AttemptSpec;
    if regs == [] {
      cut := 0;
      CutEmpty(s, wrote, at);
    } else {
      var (next, w, err) := AttemptSpec(f, s, regs[0]);
      AttemptSteps(f, s, regs[0]);
      if err.Some? {
        cut := if next.bank == s.bank then 0 else 1;
        CutFailed(s, regs, wrote, at, next, w, err);
      } else {
        var rest := SequenceCut(f, next, regs[1..], wrote || w, at + 1);
        cut := rest + 1;
        CutExtended(f, s, regs, wrote, at, next, w, rest);
      }
    }
  }

  lemma OverlayTail(b: Bank, regs: seq<Register>, cut: nat)
    requires 1 <= cut <= |regs|
    ensures Overlay(b, regs[..cut]) == Overlay(b[regs[0].addr := regs[0].value], regs[1..][..cut - 1])
  {
    assert regs[..cut][1..] == regs[1..][..cut - 1];
  }

  lemma DistinctTail(regs: seq<Register>)
    requires regs != [] && Distinct(regs)
    ensures Distinct(regs[1..])
  {
  }

  lemma FirstDiffers(b: Bank, regs: seq<Register>)
    requires regs != []
    ensures Differing(regs[..0], b) == []
    ensures Differing(regs[..1], b) == if Holds(b, regs[0]) then [] else [regs[0]]
    ensures regs[0].addr in b ==> (b[regs[0].addr := regs[0].value] == b <==> Holds(b, regs[0]))
  {
    DifferingSnoc(regs, b, 0);
    if regs[0].addr in b && !Holds(b, regs[0]) {
      assert b[regs[0].addr := regs[0].value][regs[0].addr] != b[regs[0].addr];
    }
  }

  lemma DifferingTail(b: Bank, regs: seq<Register>, cut: nat)
    requires Distinct(regs) && 1 <= cut <= |regs|
    ensures |Differing(regs[..cut], b)|
         == (if Holds(b, regs[0]) then 0 else 1) + |Differing(regs[1..][..cut - 1], b[regs[0].addr := regs[0].value])|
  {
    var back := regs[1..][..cut - 1];
    FirstDiffers(b, regs);
    assert regs[..cut] == regs[..1] + back;
    DifferingAppend(regs[..1], back, b);
    forall r | r in back ensures Holds(b, r) <==> Holds(b[regs[0].addr := regs[0].value], r) {
      var i :| 0 <= i < |back| && back[i] == r;
      assert regs[i + 1] == r;
    }
    DifferingAgrees(back, b, b[regs[0].addr := regs[0].value]);
  }

  /** Gluing the first register's step to the rest of the sequence. */
  lemma SequenceExtends(f: Fates, s: Link, next: Link, regs: seq<Register>, wrote: bool, w: bool, at: nat)
    requires regs != [] && Stepped(s, next, regs[0], w, None)
    requires var out := SequenceSpec(f, next, regs[1..], wrote || w, at + 1);
             && |next.trace| <= |out.link.trace| && out.link.trace[..|next.trace|] == next.trace
             && PrefixBanks(out.link.trace, |next.trace|, next.bank, regs[1..])
             && WearSafe(out.link.trace, |next.trace|)
             && (out.wrote <==> wrote || w || AckedSince(out.link.trace, |next.trace|))
    ensures var out := SequenceSpec(f, next, regs[1..], wrote || w, at + 1);
            && out.link.trace[..|s.trace|] == s.trace
            && PrefixBanks(out.link.trace, |s.trace|, s.bank, regs)
            && WearSafe(out.link.trace, |s.trace|)
            && (out.wrote <==> wrote || AckedSince(out.link.trace, |s.trace|))
  {
    var out := SequenceSpec(f, next, regs[1..], wrote || w, at + 1);
    var t := out.link.trace;
    assert t[..|s.trace|] == next.trace[..|s.trace|];
    forall i | |s.trace| <= i < |next.trace| ensures t[i] == next.trace[i] {
      assert t[..|next.trace|][i] == next.trace[i];
    }
    forall i | |s.trace| <= i < |t| ensures PrefixBank(s.bank, regs, t[i].bank) {
      if i < |next.trace| {
        PrefixBankHead(s.bank, regs);
      } else {
        PrefixBankTail(s.bank, regs, t[i].bank);
      }
    }
    if w {
      var i :| |s.trace| <= i < |next.trace| && next.trace[i].Write? && next.trace[i].acked;
      assert t[i].acked;
    }
    if AckedSince(t, |next.trace|) {
      assert AckedSince(t, |s.trace|);
    }
  }

  /** The register holds in x what it held in b. */
  predicate Same(b: Bank, x: Bank, addr: int) {
    (addr in b <==> addr in x) && (addr in b ==> b[addr] == x[addr])
  }

  /** Registers before k hold their values, those after k and all others are untouched, k is one or the other. */
  ghost predicate CutBefore(b: Bank, regs: seq<Register>, k: nat, x: Bank) {
    && (forall i :: 0 <= i < |regs| && i < k ==> Holds(x, regs[i]))
    && (forall i :: k < i < |regs| ==> Same(b, x, regs[i].addr))
    && (k < |regs| ==> Holds(x, regs[k]) || Same(b, x, regs[k].addr))
    && (forall a :: Untouched(regs, a) ==> Same(b, x, a))
  }

  lemma OverlayCuts(b: Bank, regs: seq<Register>, k: nat, cut: nat)
    requires Distinct(regs) && k <= cut <= |regs| && cut <= k + 1
    ensures CutBefore(b, regs, k, Overlay(b, regs[..cut]))
  {
    forall i | 0 <= i < |regs|
      ensures i < cut ==> Holds(Overlay(b, regs[..cut]), regs[i])
      ensures i >= cut ==> Same(b, Overlay(b, regs[..cut]), regs[i].addr)
    {
      OverlayHolds(b, regs, cut, i);
      if i >= cut {
        OverlayUntouched(b, regs[..cut], regs[i].addr);
      }
    }
    forall a | Untouched(regs, a) ensures Same(b, Overlay(b, regs[..cut]), a) {
      OverlayUntouched(b, regs[..cut], a);
    }
  }

  /** What an operator can rely on after a sequence over distinct registers, register by register. */
  lemma CutState(f: Fates, s: Link, regs: seq<Register>)
    requires Distinct(regs)
    ensures var out := SequenceSpec(f, s, regs, false, 0);
            && out.at <= |regs| && (out.err.None? <==> out.at == |regs|)
            && CutBefore(s.bank, regs, out.at, out.link.bank)
            && (out.wrote <==> AckedSince(out.link.trace, |s.trace|))
  {
    var out := SequenceSpec(f, s, regs, false, 0);
    var cut := SequenceCut(f, s, regs, false, 0);
    OverlayCuts(s.bank, regs, out.at, cut);
  }

  /** Flash wear of one sequence: no write without a differing read, no register written twice for good. */
  lemma SequenceWear(f: Fates, s: Link, regs: seq<Register>)
    requires Distinct(regs)
    ensures var out := SequenceSpec(f, s, regs, false, 0);
            && WearSafe(out.link.trace, |s.trace|)
            && Landings(out.link.trace) <= Landings(s.trace) + |Differing(regs, s.bank)|
  {
    var cut := SequenceCut(f, s, regs, false, 0);
    DifferingFewer(regs, s.bank, cut);
  }

  lemma DifferingFewer(regs: seq<Register>, bank: Bank, cut: nat)
    requires cut <= |regs|
    ensures |Differing(regs[..cut], bank)| <= |Differing(regs, bank)|
  {
    assert regs == regs[..cut] + regs[cut..];
    DifferingAppend(regs[..cut], regs[cut..], bank);
  }

  // ------------------------------------------------------------ which registers it writes

  /** From frame n on, only the listed registers are written. */
  predicate WritesAmong(trace: seq<Frame>, n: nat, regs: seq<Register>) {
    forall i :: n <= i < |trace| && trace[i].Write? ==> !Untouched(regs, trace[i].addr)
  }

  lemma GuardWrites(f: Fates, s: Link, r: Register)
    ensures WritesAmong(GuardSpec(f, s, r.addr, r.value).0.trace, |s.trace|, [r])
  {
    assert !Untouched([r], r.addr) by {
      assert r in [r];
    }
    hide BlockMapped, BlockWords, Untouched;
  }

  lemma AttemptWrites(f: Fates, s: Link, r: Register)
    ensures WritesAmong(AttemptSpec(f, s, r).0.trace, |s.trace|, [r])
  {
    hide GuardSpec, Untouched, WearSafe, BanksAmong, Landings, AckedSince;
    var (s1, first) := GuardSpec(f, s, r.addr, r.value);
    GuardWrites(f, s, r);
    GuardSteps(f, s, r);
    if first.err.Some? && !first.wrote {
      var s2 := GuardSpec(f, s1, r.addr, r.value).0;
      GuardWrites(f, s1, r);
      GuardSteps(f, s1, r);
      forall i | |s.trace| <= i < |s1.trace| ensures s2.trace[i] == s1.trace[i] {
        assert s2.trace[..|s1.trace|][i] == s1.trace[i];
      }
    }
  }

  lemma {:induction false} SequenceWrites(f: Fates, s: Link, regs: seq<Register>, wrote: bool, at: nat)
    ensures WritesAmong(SequenceSpec(f, s, regs, wrote, at).link.trace, |s.trace|, regs)
    decreases |regs|
  {
    hide AttemptSpec;
    if regs != [] {
      var (next, w, err) := AttemptSpec(f, s, regs[0]);
      AttemptWrites(f, s, regs[0]);
      AttemptSteps(f, s, regs[0]);
      if err.None? {
        var out := SequenceSpec(f, next, regs[1..], wrote || w, at + 1);
        SequenceWrites(f, next, regs[1..], wrote || w, at + 1);
        var _ := SequenceCut(f, next, regs[1..], wrote || w, at + 1);
        forall i | |s.trace| <= i < |next.trace| ensures out.link.trace[i] == next.trace[i] {
          assert out.link.trace[..|next.trace|][i] == next.trace[i];
        }
      }
    }
  }

  // ------------------------------------------------- every cut state can really occur

  /** Frames a sequence spends when every frame is delivered. */
  function FramesSpent(b: Bank, regs: seq<Register>): nat
    decreases |regs|
  {
    if regs == [] then 0
    else (if Holds(b, regs[0]) then 1 else 3) + FramesSpent(b[regs[0].addr := regs[0].value], regs[1..])
  }

  /** Deliver every frame before n and drop every frame from n on. */
  function CutAt(n: nat): Fates {
    i => if i < n then Deliver else Drop
  }

  lemma DeliveredAttempt(f: Fates, s: Link, r: Register)
    requires r.addr in s.bank
    requires forall i :: |s.trace| <= i < |s.trace| + (if Holds(s.bank, r) then 1 else 3) ==> f(i) == Deliver
    ensures var (next, _, err) := AttemptSpec(f, s, r);
            && err.None? && next.bank == s.bank[r.addr := r.value]
            && |next.trace| == |s.trace| + if Holds(s.bank, r) then 1 else 3
  {
    if Holds(s.bank, r) {
      assert s.bank[r.addr := r.value] == s.bank;
    }
  }

  lemma DroppedAttempt(f: Fates, s: Link, r: Register)
    requires forall i :: |s.trace| <= i ==> f(i) == Drop
    ensures var (next, _, err) := AttemptSpec(f, s, r);
            err.Some? && next.bank == s.bank
  {
  }

  lemma {:induction false} CutRealisedFrom(f: Fates, s: Link, regs: seq<Register>, j: nat, wrote: bool, at: nat)
    requires j <= |regs| && Mapped(regs, s.bank)
    requires var n := |s.trace| + FramesSpent(s.bank, regs[..j]);
             forall i :: |s.trace| <= i ==> f(i) == if i < n then Deliver else Drop
    ensures var out := SequenceSpec(f, s, regs, wrote, at);
            out.at == at + j && out.link.bank == Overlay(s.bank, regs[..j])
    decreases |regs|
  {
    if j == 0 {
      assert FramesSpent(s.bank, regs[..0]) == 0;
      if regs != [] {
        DroppedAttempt(f, s, regs[0]);
      }
    } else {
      var r := regs[0];
      assert r in regs;
      var next := s.bank[r.addr := r.value];
      assert regs[..j][1..] == regs[1..][..j - 1];
      assert FramesSpent(s.bank, regs[..j])
          == (if Holds(s.bank, r) then 1 else 3) + FramesSpent(next, regs[1..][..j - 1]);
      DeliveredAttempt(f, s, r);
      var (s1, w, _) := AttemptSpec(f, s, r);
      CutRealisedFrom(f, s1, regs[1..], j - 1, wrote || w, at + 1);
    }
  }

  /** Each prefix of a sequence over registers the inverter has is where some pattern of faults stops it. */
  lemma CutRealised(s: Link, regs: seq<Register>, j: nat)
    requires j <= |regs| && Mapped(regs, s.bank)
    ensures exists f: Fates :: SequenceSpec(f, s, regs, false, 0).at == j
                            && SequenceSpec(f, s, regs, false, 0).link.bank == Overlay(s.bank, regs[..j])
  {
    var f := CutAt(|s.trace| + FramesSpent(s.bank, regs[..j]));
    CutRealisedFrom(f, s, regs, j, false, 0);
  }

  // ------------------------------------------------- only the frames' own fates matter

  predicate Agree(f: Fates, g: Fates, from: nat, until: nat) {
    forall i :: from <= i < until ==> f(i) == g(i)
  }

  lemma GuardLocal(f: Fates, g: Fates, s: Link, addr: int, desired: Word)
    requires Agree(f, g, |s.trace|, |GuardSpec(f, s, addr, desired).0.trace|)
    ensures GuardSpec(g, s, addr, desired) == GuardSpec(f, s, addr, desired)
  {
    hide BlockMapped, BlockWords;
  }

  lemma AttemptLocal(f: Fates, g: Fates, s: Link, r: Register)
    requires Agree(f, g, |s.trace|, |AttemptSpec(f, s, r).0.trace|)
    ensures AttemptSpec(g, s, r) == AttemptSpec(f, s, r)
  {
    hide GuardSpec, WearSafe, BanksAmong, Landings, AckedSince;
    var (s1, first) := GuardSpec(f, s, r.addr, r.value);
    GuardSteps(f, s, r);
    GuardSteps(f, s1, r);
    GuardLocal(f, g, s, r.addr, r.value);
    if first.err.Some? && !first.wrote {
      GuardLocal(f, g, s1, r.addr, r.value);
    }
  }

  lemma SequenceGrows(f: Fates, s: Link, regs: seq<Register>, wrote: bool, at: nat)
    ensures |s.trace| <= |SequenceSpec(f, s, regs, wrote, at).link.trace|
  {
    var _ := SequenceCut(f, s, regs, wrote, at);
  }

  /** A sequence depends on the fates of the frames it sends and on no others. */
  lemma {:induction false} SequenceLocal(f: Fates, g: Fates, s: Link, regs: seq<Register>, wrote: bool, at: nat)
    requires Agree(f, g, |s.trace|, |SequenceSpec(f, s, regs, wrote, at).link.trace|)
    ensures SequenceSpec(g, s, regs, wrote, at) == SequenceSpec(f, s, regs, wrote, at)
    decreases |regs|
  {
    hide AttemptSpec;
    if regs != [] {
      var (next, w, err) := AttemptSpec(f, s, regs[0]);
      AttemptSteps(f, s, regs[0]);
      SequenceGrows(f, next, regs[1..], wrote || w, at + 1);
      AttemptLocal(f, g, s, regs[0]);
      if err.None? {
        SequenceLocal(f, g, next, regs[1..], wrote || w, at + 1);
      }
    }
  }

  // ------------------------------------------------------------------------ the bus

  /** The register surface the control path drives. */
  class Bus {
    const fates: Fates
    var bank: Bank
    var trace: seq<Frame>

    constructor (fates: Fates, bank: Bank)
      ensures this.fates == fates && View() == Link(bank, [])
    {
      this.fates := fates;
      this.bank := bank;
      this.trace := [];
    }

    function View(): Link
      reads this
    {
      Link(bank, trace)
    }

    method ReadHolding(addr: int, count: nat) returns (reply: Option<seq<Word>>)
      modifies this
      ensures (View(), reply) == ReadFrame(fates, old(View()), addr, count)
    {
      reply := None;
      if fates(|trace|) == Deliver && BlockMapped(bank, addr, count) {
        reply := Some(BlockWords(bank, addr, count));
      }
      trace := trace + [Read(addr, count, reply, bank)];
    }

    method WriteHolding(addr: int, value: Word) returns (acked: bool)
      modifies this
      ensures (View(), acked) == WriteFrame(fates, old(View()), addr, value)
    {
      var fate := fates(|trace|);
      var landed := addr in bank && (fate == Deliver || fate == LoseReply);
      acked := addr in bank && (fate == Deliver || fate == Ignore);
      if landed {
        bank := bank[addr := value];
      }
      trace := trace + [Write(addr, value, landed, acked, bank)];
    }

    /** The first word of a one-register read; no reply is an error. */
    method ReadRegister(addr: int) returns (word: Option<Word>)
      modifies this
      ensures (View(), word) == ReadOne(fates, old(View()), addr)
    {
      var reply := ReadHolding(addr, 1);
      word := if reply.Some? && |reply.value| >= 1 then Some(reply.value[0]) else None;
    }
  }
}
