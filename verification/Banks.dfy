/** Writing lists of registers over a bank, and the registers of a list a bank does not yet hold. */
module Banks {
  import opened Inverter

  /** The bank after every register of the list has been written, in order. */
  function Overlay(bank: Bank, regs: seq<Register>): Bank
    decreases |regs|
  {
    if regs == [] then bank else Overlay(bank[regs[0].addr := regs[0].value], regs[1..])
  }

  /** The registers of the list whose address does not hold the wanted value, in list order. */
  function Differing(regs: seq<Register>, bank: Bank): seq<Register> {
    if regs == [] then []
    else
      var rest := Differing(regs[..|regs| - 1], bank);
      var r := regs[|regs| - 1];
      if Holds(bank, r) then rest else rest + [r]
  }

  predicate Holds(bank: Bank, r: Register) {
    r.addr in bank && bank[r.addr] == r.value
  }

  predicate Distinct(regs: seq<Register>) {
    forall i, j :: 0 <= i < j < |regs| ==> regs[i].addr != regs[j].addr
  }

  predicate Mapped(regs: seq<Register>, bank: Bank) {
    forall r :: r in regs ==> r.addr in bank
  }

  predicate Untouched(regs: seq<Register>, addr: int) {
    forall r :: r in regs ==> r.addr != addr
  }

  lemma {:induction false} OverlayAppend(bank: Bank, front: seq<Register>, back: seq<Register>)
    ensures Overlay(bank, front + back) == Overlay(Overlay(bank, front), back)
    decreases |front|
  {
    if front == [] {
      assert front + back == back;
    } else {
      assert (front + back)[1..] == front[1..] + back;
      OverlayAppend(bank[front[0].addr := front[0].value], front[1..], back);
    }
  }

  lemma OverlaySnoc(bank: Bank, regs: seq<Register>, k: nat)
    requires k < |regs|
    ensures Overlay(bank, regs[..k + 1]) == Overlay(bank, regs[..k])[regs[k].addr := regs[k].value]
  {
    assert regs[..k + 1] == regs[..k] + [regs[k]];
    OverlayAppend(bank, regs[..k], [regs[k]]);
    assert Overlay(Overlay(bank, regs[..k]), [regs[k]])
        == Overlay(Overlay(bank, regs[..k])[regs[k].addr := regs[k].value], []);
  }

  lemma {:induction false} OverlayUntouched(bank: Bank, regs: seq<Register>, addr: int)
    requires Untouched(regs, addr)
    ensures addr in Overlay(bank, regs) <==> addr in bank
    ensures addr in bank ==> Overlay(bank, regs)[addr] == bank[addr]
    decreases |regs|
  {
    if regs != [] {
      OverlayUntouched(bank[regs[0].addr := regs[0].value], regs[1..], addr);
    }
  }

  /** With distinct addresses, a written prefix holds its values and nothing else has moved. */
  lemma {:induction false} OverlayHolds(bank: Bank, regs: seq<Register>, k: nat, i: nat)
    requires Distinct(regs) && k <= |regs| && i < |regs|
    ensures i < k ==> Holds(Overlay(bank, regs[..k]), regs[i])
    ensures i >= k ==> (Holds(Overlay(bank, regs[..k]), regs[i]) <==> Holds(bank, regs[i]))
    ensures i >= k && regs[i].addr in bank
        ==> regs[i].addr in Overlay(bank, regs[..k]) && Overlay(bank, regs[..k])[regs[i].addr] == bank[regs[i].addr]
    decreases k
  {
    if i >= k {
      OverlayUntouched(bank, regs[..k], regs[i].addr);
    } else {
      OverlaySnoc(bank, regs, k - 1);
      if i < k - 1 {
        OverlayHolds(bank, regs, k - 1, i);
      }
    }
  }

  lemma OverlayHoldsEach(bank: Bank, regs: seq<Register>)
    requires Distinct(regs)
    ensures forall r :: r in regs ==> Holds(Overlay(bank, regs), r)
  {
    assert regs[..|regs|] == regs;
    forall r | r in regs ensures Holds(Overlay(bank, regs), r) {
      var i :| 0 <= i < |regs| && regs[i] == r;
      OverlayHolds(bank, regs, |regs|, i);
    }
  }

  lemma {:induction false} OverlayKeys(bank: Bank, regs: seq<Register>)
    requires Mapped(regs, bank)
    ensures Overlay(bank, regs).Keys == bank.Keys
    decreases |regs|
  {
    if regs != [] {
      var next := bank[regs[0].addr := regs[0].value];
      assert next.Keys == bank.Keys;
      OverlayKeys(next, regs[1..]);
    }
  }

  lemma DifferingSnoc(regs: seq<Register>, bank: Bank, k: nat)
    requires k < |regs|
    ensures Differing(regs[..k + 1], bank)
         == if Holds(bank, regs[k]) then Differing(regs[..k], bank) else Differing(regs[..k], bank) + [regs[k]]
  {
    assert regs[..k + 1][..k] == regs[..k];
  }

  lemma {:induction false} DifferingAppend(front: seq<Register>, back: seq<Register>, bank: Bank)
    ensures Differing(front + back, bank) == Differing(front, bank) + Differing(back, bank)
    decreases |back|
  {
    if back == [] {
      assert front + back == front;
    } else {
      var last := |back| - 1;
      assert (front + back)[..|front| + last] == front + back[..last];
      DifferingAppend(front, back[..last], bank);
    }
  }

  /** Two banks that agree on a list's addresses differ from the list in the same registers. */
  lemma {:induction false} DifferingAgrees(regs: seq<Register>, a: Bank, b: Bank)
    requires forall r :: r in regs ==> (Holds(a, r) <==> Holds(b, r))
    ensures Differing(regs, a) == Differing(regs, b)
    decreases |regs|
  {
    if regs != [] {
      DifferingAgrees(regs[..|regs| - 1], a, b);
    }
  }

  lemma {:induction false} DifferingMembers(regs: seq<Register>, bank: Bank)
    ensures |Differing(regs, bank)| <= |regs|
    ensures forall r :: r in Differing(regs, bank) <==> r in regs && !Holds(bank, r)
    decreases |regs|
  {
    if regs != [] {
      var front := regs[..|regs| - 1];
      DifferingMembers(front, bank);
      assert regs == front + [regs[|regs| - 1]];
    }
  }

  lemma {:induction false} DifferingDistinct(regs: seq<Register>, bank: Bank)
    requires Distinct(regs)
    ensures Distinct(Differing(regs, bank))
    decreases |regs|
  {
    if regs != [] {
      var front := regs[..|regs| - 1];
      DifferingDistinct(front, bank);
      DifferingMembers(front, bank);
      var rest := Differing(front, bank);
      forall i | 0 <= i < |rest| ensures rest[i].addr != regs[|regs| - 1].addr {
        assert rest[i] in front;
      }
    }
  }

  /** Skipping the registers that already hold their value leaves the same bank. */
  lemma {:induction false} OverlayDiffering(bank: Bank, regs: seq<Register>, k: nat)
    requires Distinct(regs) && k <= |regs|
    ensures Overlay(bank, Differing(regs[..k], bank)) == Overlay(bank, regs[..k])
    decreases k
  {
    if k > 0 {
      var r := regs[k - 1];
      OverlayDiffering(bank, regs, k - 1);
      DifferingSnoc(regs, bank, k - 1);
      OverlaySnoc(bank, regs, k - 1);
      if Holds(bank, r) {
        OverlayHolds(bank, regs, k - 1, k - 1);
      } else {
        OverlayAppend(bank, Differing(regs[..k - 1], bank), [r]);
        assert Overlay(Overlay(bank, regs[..k - 1]), [r])
            == Overlay(Overlay(bank, regs[..k - 1])[r.addr := r.value], []);
      }
    }
  }

  /** A prefix of the differing registers is what one prefix of the whole list comes to. */
  lemma {:induction false} DifferingPrefix(bank: Bank, regs: seq<Register>, n: nat, j: nat) returns (k: nat)
    requires Distinct(regs) && n <= |regs| && j <= |Differing(regs[..n], bank)|
    ensures k <= n && Differing(regs[..k], bank) == Differing(regs[..n], bank)[..j]
    ensures Overlay(bank, Differing(regs[..n], bank)[..j]) == Overlay(bank, regs[..k])
    ensures j == |Differing(regs[..n], bank)| ==> k == n
    decreases n
  {
    if j == |Differing(regs[..n], bank)| {
      k := n;
      OverlayDiffering(bank, regs, n);
      assert Differing(regs[..n], bank)[..j] == Differing(regs[..n], bank);
    } else {
      DifferingSnoc(regs, bank, n - 1);
      var rest := Differing(regs[..n - 1], bank);
      k := DifferingPrefix(bank, regs, n - 1, j);
      assert Differing(regs[..n], bank)[..j] == rest[..j];
    }
  }

  /** Writing a prefix removes exactly that prefix's share of the differing registers. */
  lemma {:induction false} DifferingAfterPrefix(bank: Bank, regs: seq<Register>, k: nat, n: nat)
    requires Distinct(regs) && k <= n <= |regs|
    ensures |Differing(regs[..n], Overlay(bank, regs[..k]))| + |Differing(regs[..k], bank)|
        == |Differing(regs[..n], bank)|
    decreases n
  {
    if n == k {
      NoneDiffer(bank, regs, k, k);
    } else {
      DifferingAfterPrefix(bank, regs, k, n - 1);
      DifferingSnoc(regs, bank, n - 1);
      DifferingSnoc(regs, Overlay(bank, regs[..k]), n - 1);
      OverlayHolds(bank, regs, k, n - 1);
    }
  }

  lemma {:induction false} NoneDiffer(bank: Bank, regs: seq<Register>, k: nat, n: nat)
    requires Distinct(regs) && n <= k <= |regs|
    ensures Differing(regs[..n], Overlay(bank, regs[..k])) == []
    decreases n
  {
    if n > 0 {
      NoneDiffer(bank, regs, k, n - 1);
      DifferingSnoc(regs, Overlay(bank, regs[..k]), n - 1);
      OverlayHolds(bank, regs, k, n - 1);
    }
  }
}
