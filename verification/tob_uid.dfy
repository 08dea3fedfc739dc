// Message identifiers: generate_uid packs a process id and a Lamport clock into
// one unsigned 32-bit word with a shift and a bitwise or.
module Uid {
  import opened Words

  const CLOCK_SPAN: nat := 0x1000        // the shift distance is 12 bits
  const PID_SPAN: nat := 0x10_0000       // what is left of the word above the clock

  // Bitwise or on naturals, bit by bit.
  function BitOr(a: nat, b: nat): nat
    decreases a + b
  {
    if a == 0 then b
    else if b == 0 then a
    else (if a % 2 == 1 || b % 2 == 1 then 1 else 0) + 2 * BitOr(a / 2, b / 2)
  }

  function Pow2(k: nat): nat {
    if k == 0 then 1 else 2 * Pow2(k - 1)
  }

  // An unsigned increment wraps around.
  function Tick(lc: nat): nat {
    (lc + 1) % WORD
  }

  // pid << 12 | lc, in unsigned 32-bit arithmetic.
  function GenerateUid(pid: nat, lc: nat): nat {
    BitOr(pid * CLOCK_SPAN % WORD, lc)
  }

  // Below the shifted bits the bitwise or is an addition.
  lemma {:induction false} OrBelowShift(x: nat, y: nat, k: nat)
    requires y < Pow2(k)
    ensures BitOr(x * Pow2(k), y) == x * Pow2(k) + y
  {
    if k > 0 && x > 0 && y > 0 {
      var p := Pow2(k - 1);
      assert x * Pow2(k) == 2 * (x * p);
      assert x * p > 0;
      assert (2 * (x * p)) / 2 == x * p;
      OrBelowShift(x, y / 2, k - 1);
    }
  }

  lemma {:induction false} OrStaysBelow(a: nat, b: nat, k: nat)
    requires a < Pow2(k) && b < Pow2(k)
    ensures BitOr(a, b) < Pow2(k)
  {
    if k > 0 {
      OrStaysBelow(a / 2, b / 2, k - 1);
    }
  }

  lemma ShiftConstants()
    ensures Pow2(12) == CLOCK_SPAN && Pow2(32) == WORD
  {
    assert Pow2(4) == 16;
    assert Pow2(8) == 256;
    assert Pow2(12) == 4096;
    assert Pow2(16) == 65536;
    assert Pow2(20) == 0x10_0000;
    assert Pow2(24) == 0x100_0000;
    assert Pow2(28) == 0x1000_0000;
  }

  lemma UidInRange(pid: nat, lc: nat)
    requires pid < PID_SPAN && lc < CLOCK_SPAN
    ensures GenerateUid(pid, lc) == pid * CLOCK_SPAN + lc
  {
    hide BitOr;
    ShiftConstants();
    OrBelowShift(pid, lc, 12);
  }

  // A uid gives back both of its halves exactly when the pid fits 20 bits and
  // the clock fits 12.
  lemma UidRecoversBothHalves(pid: nat, lc: nat)
    requires lc < WORD
    ensures GenerateUid(pid, lc) < 0x1_0000_0000
    ensures (GenerateUid(pid, lc) / 4096 == pid && GenerateUid(pid, lc) % 4096 == lc)
       <==> pid < 0x10_0000 && lc < 4096
  {
    ShiftConstants();
    OrStaysBelow(pid * CLOCK_SPAN % WORD, lc, 32);
    if pid < PID_SPAN && lc < CLOCK_SPAN {
      UidInRange(pid, lc);
    }
  }

  // Hence no two messages share a uid while both fields fit.
  lemma UidInjective(pid1: nat, lc1: nat, pid2: nat, lc2: nat)
    requires pid1 < PID_SPAN && lc1 < CLOCK_SPAN && pid2 < PID_SPAN && lc2 < CLOCK_SPAN
    requires GenerateUid(pid1, lc1) == GenerateUid(pid2, lc2)
    ensures pid1 == pid2 && lc1 == lc2
  {
    UidRecoversBothHalves(pid1, lc1);
    UidRecoversBothHalves(pid2, lc2);
  }

  // Past clock 4095 one process reuses its own uids: clock 4097 collides with clock 1
  // for every odd pid.
  lemma UidCollision(pid: nat)
    requires pid % 2 == 1 && pid < PID_SPAN
    ensures GenerateUid(pid, 4097) == GenerateUid(pid, 1)
  {
    var base := pid * CLOCK_SPAN;
    assert base % WORD == base;
    UidInRange(pid, 1);
    OrSharedBit(pid, 1, 12);
    ShiftConstants();
  }

  lemma {:induction false} OrSharedBit(x: nat, y: nat, k: nat)
    requires x % 2 == 1 && y < Pow2(k)
    ensures BitOr(x * Pow2(k), Pow2(k) + y) == x * Pow2(k) + y
  {
    if k == 0 {
      assert BitOr(x / 2, 0) == x / 2;
    } else {
      var p := Pow2(k - 1);
      assert x * Pow2(k) == 2 * (x * p);
      assert x * p > 0;
      assert (2 * (x * p)) / 2 == x * p;
      assert (Pow2(k) + y) / 2 == p + y / 2;
      OrSharedBit(x, y / 2, k - 1);
    }
  }
}
