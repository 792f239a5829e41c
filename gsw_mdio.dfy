/**
 * The MDIO register transport of the MaxLinear GSW1xx switch driver.
 *
 * `Chip` stands for the switch as seen over its MDIO slave interface: the
 * hardware TBAR, the internal 16-bit register file, and a ghost log of every
 * MDIO transaction the driver issues. The module-level methods are the
 * driver's accessors: each one reads TBAR, moves the window only when the
 * target lies outside it, and then reads, writes or polls through the
 * window register `target - base`.
 */
module GswMdio {
  import opened MdioWindow

  /** A value as the driver handles it (u32). */
  type u32 = x: int | 0 <= x < 0x1_0000_0000

  /** Size of the internal register address space. */
  const REG_SPACE: int := 0x1_0000

  /** ETIMEDOUT, as returned negated by the poll helper. */
  const ETIMEDOUT: int := 110

  /** The poll helper's -ETIMEDOUT once the driver has stored it in a u32. */
  const TIMEOUT_STATUS: u32 := 0x1_0000_0000 - ETIMEDOUT

  /** One MDIO transaction; written data is what reaches the bus (16 bits). */
  datatype BusOp = MdioRead(reg: MdioReg) | MdioWrite(reg: MdioReg, data: u16)

  /** Data written over MDIO: the bus write callback takes 16 bits, so the driver's u32 is truncated. */
  function BusData(v: u32): (d: u16)
    ensures v < 0x1_0000 ==> d == v
  {
    v % 0x1_0000
  }

  /** The number of TBAR writes among `ops`. */
  function {:induction false} TbarWrites(ops: seq<BusOp>): (n: nat)
    ensures n <= |ops|
  {
    if ops == [] then 0
    else (if ops[0].MdioWrite? && ops[0].reg == TARGET_BASE_ADDRESS_REG then 1 else 0) + TbarWrites(ops[1..])
  }

  lemma {:induction false} TbarWritesAppend(a: seq<BusOp>, b: seq<BusOp>)
    ensures TbarWrites(a + b) == TbarWrites(a) + TbarWrites(b)
  {
    if a == [] {
      assert a + b == b;
    } else {
      assert (a + b)[0] == a[0];
      assert (a + b)[1..] == a[1..] + b;
      TbarWritesAppend(a[1..], b);
    }
  }

  /** The transactions of one window reconciliation: read TBAR, and write it only when the target is outside. */
  function WindowOps(tbar: u16, a: u16): (ops: seq<BusOp>)
    ensures 1 <= |ops| <= 2
    ensures ops[0] == MdioRead(TARGET_BASE_ADDRESS_REG)
    ensures TbarWrites(ops) == (if InWindow(a, tbar) then 0 else 1)
    ensures !InWindow(a, tbar) ==> ops[1..] == [MdioWrite(TARGET_BASE_ADDRESS_REG, a)]
  {
    var ops := [MdioRead(TARGET_BASE_ADDRESS_REG)] + (if InWindow(a, tbar) then [] else [MdioWrite(TARGET_BASE_ADDRESS_REG, a)]);
    assert TbarWrites(ops) == TbarWrites(ops[1..]);
    assert |ops| == 2 ==> TbarWrites(ops[1..]) == 1 + TbarWrites(ops[2..]);
    ops
  }

  /** The window transactions of accessing `addrs` one after the other, starting from `tbar`. */
  function {:induction false} SweepWindowOps(tbar: u16, addrs: seq<u16>): (ops: seq<BusOp>)
    decreases |addrs|
    ensures |addrs| <= |ops| <= 2 * |addrs|
  {
    if addrs == [] then []
    else WindowOps(tbar, addrs[0]) + SweepWindowOps(Reconcile(tbar, addrs[0]), addrs[1..])
  }

  /** The count of window moves along a sweep is the number of TBAR writes on the bus. */
  lemma {:induction false} SweepReprogramsCountsTbarWrites(tbar: u16, addrs: seq<u16>)
    decreases |addrs|
    ensures TbarWrites(SweepWindowOps(tbar, addrs)) == SweepReprograms(tbar, addrs)
  {
    if addrs != [] {
      var b := Reconcile(tbar, addrs[0]);
      SweepReprogramsCountsTbarWrites(b, addrs[1..]);
      TbarWritesAppend(WindowOps(tbar, addrs[0]), SweepWindowOps(b, addrs[1..]));
    }
  }

  lemma PollsGrow(reg: MdioReg, n: nat)
    ensures Polls(reg, n) + [MdioRead(reg)] == Polls(reg, n + 1)
  {
  }

  /** `n` reads of window register `reg`. */
  function Polls(reg: MdioReg, n: nat): (ops: seq<BusOp>)
    ensures |ops| == n && forall i :: 0 <= i < n ==> ops[i] == MdioRead(reg)
  {
    seq(n, _ => MdioRead(reg))
  }

  /** The MDIO slave side of the switch. */
  class Chip {
    /** MDIO register 31, the Target Base Address Register. */
    var tbar: u16
    /** The internal registers, indexed by 16-bit address. */
    var regs: seq<u16>
    /** Every MDIO transaction, oldest first. */
    ghost var trace: seq<BusOp>

    ghost predicate Valid()
      reads this
    {
      |regs| == REG_SPACE
    }

    constructor (tbar0: u16, regs0: seq<u16>)
      requires |regs0| == REG_SPACE
      ensures Valid() && tbar == tbar0 && regs == regs0 && trace == []
    {
      tbar, regs, trace := tbar0, regs0, [];
    }

    /** An MDIO read: register 31 yields TBAR, registers 0..30 the internal register they map to. */
    method BusRead(reg: MdioReg) returns (v: u32)
      requires Valid()
      modifies this`trace
      ensures trace == old(trace) + [MdioRead(reg)]
      ensures v == if reg == TARGET_BASE_ADDRESS_REG then tbar else regs[WindowTarget(tbar, reg)]
    {
      trace := trace + [MdioRead(reg)];
      v := if reg == TARGET_BASE_ADDRESS_REG then tbar else regs[WindowTarget(tbar, reg)];
    }

    /** An MDIO write: register 31 moves the window, registers 0..30 store into the internal register they map to. */
    method BusWrite(reg: MdioReg, v: u32)
      requires Valid()
      modifies this
      ensures Valid()
      ensures trace == old(trace) + [MdioWrite(reg, BusData(v))]
      ensures reg == TARGET_BASE_ADDRESS_REG ==> tbar == BusData(v) && regs == old(regs)
      ensures reg != TARGET_BASE_ADDRESS_REG ==>
                tbar == old(tbar) && regs == old(regs)[WindowTarget(tbar, reg) := BusData(v)]
    {
      trace := trace + [MdioWrite(reg, BusData(v))];
      if reg == TARGET_BASE_ADDRESS_REG {
        tbar := BusData(v);
      } else {
        regs := regs[WindowTarget(tbar, reg) := BusData(v)];
      }
    }

    /**
     * An MDIO read of a window register whose internal register the hardware
     * has meanwhile set to `hw` (a status register that changes by itself).
     */
    method BusReadVolatile(reg: MdioReg, hw: u16) returns (v: u32)
      requires Valid() && reg != TARGET_BASE_ADDRESS_REG
      modifies this`regs, this`trace
      ensures Valid()
      ensures trace == old(trace) + [MdioRead(reg)]
      ensures regs == old(regs)[WindowTarget(tbar, reg) := hw]
      ensures v == hw
    {
      regs := regs[WindowTarget(tbar, reg) := hw];
      v := BusRead(reg);
    }
  }

  /** Reads the hardware TBAR. */
  method ReadTbar(chip: Chip) returns (t: u32)
    requires chip.Valid()
    modifies chip`trace
    ensures t == chip.tbar
    ensures chip.trace == old(chip.trace) + [MdioRead(TARGET_BASE_ADDRESS_REG)]
  {
    t := chip.BusRead(TARGET_BASE_ADDRESS_REG);
  }

  /** Points the window at `regAddr`. */
  method WriteTbar(chip: Chip, regAddr: u16)
    requires chip.Valid()
    modifies chip
    ensures chip.Valid()
    ensures chip.tbar == regAddr && chip.regs == old(chip.regs)
    ensures chip.trace == old(chip.trace) + [MdioWrite(TARGET_BASE_ADDRESS_REG, regAddr)]
  {
    chip.BusWrite(TARGET_BASE_ADDRESS_REG, regAddr);
  }

  /**
   * Makes `regAddr` reachable: reads TBAR and rewrites it with `regAddr` only
   * when `regAddr` lies outside [TBAR, TBAR + 30]. Returns the base in effect,
   * which is the hardware TBAR afterwards.
   */
  method CheckWriteTbar(chip: Chip, regAddr: u16) returns (base: u16)
    requires chip.Valid()
    modifies chip
    ensures chip.Valid() && chip.regs == old(chip.regs)
    ensures base == chip.tbar
    ensures base <= regAddr <= base + NUM_ACCESSIBLE_REGS
    ensures InWindow(regAddr, old(chip.tbar)) ==> base == old(chip.tbar)
    ensures !InWindow(regAddr, old(chip.tbar)) ==> base == regAddr
    ensures chip.trace == old(chip.trace) + WindowOps(old(chip.tbar), regAddr)
  {
    var t := ReadTbar(chip);
    var tbar: u16 := t;
    if regAddr < tbar || regAddr > tbar + NUM_ACCESSIBLE_REGS {
      WriteTbar(chip, regAddr);
      tbar := regAddr;
    }
    base := tbar;
  }

  /** Reads internal register `regAddr`; no internal register changes. */
  method Read(chip: Chip, regAddr: u16) returns (v: u32)
    requires chip.Valid()
    modifies chip
    ensures chip.Valid() && chip.regs == old(chip.regs)
    ensures v == old(chip.regs)[regAddr]
    ensures chip.tbar == Reconcile(old(chip.tbar), regAddr)
    ensures chip.trace == old(chip.trace) + WindowOps(old(chip.tbar), regAddr)
                          + [MdioRead(Offset(chip.tbar, regAddr))]
  {
    var tbar := CheckWriteTbar(chip, regAddr);
    ReconciledOffsetHitsTarget(old(chip.tbar), regAddr);
    v := chip.BusRead(regAddr - tbar);
  }

  /** Writes `val` (truncated to the 16 bits the bus carries) into internal register `regAddr` and no other. */
  method Write(chip: Chip, regAddr: u16, val: u32)
    requires chip.Valid()
    modifies chip
    ensures chip.Valid()
    ensures chip.regs == old(chip.regs)[regAddr := BusData(val)]
    ensures chip.tbar == Reconcile(old(chip.tbar), regAddr)
    ensures chip.trace == old(chip.trace) + WindowOps(old(chip.tbar), regAddr)
                          + [MdioWrite(Offset(chip.tbar, regAddr), BusData(val))]
  {
    var tbar := CheckWriteTbar(chip, regAddr);
    ReconciledOffsetHitsTarget(old(chip.tbar), regAddr);
    chip.BusWrite(regAddr - tbar, val);
  }

  // ---------------------------------------------------------------------------
  // Polling until bits clear

  /** `(a & b) == 0`: no bit position is set in both, compared from the least significant bit up. */
  predicate NoCommonBits(a: nat, b: nat)
    decreases a
  {
    a == 0 || b == 0 || ((a % 2 == 0 || b % 2 == 0) && NoCommonBits(a / 2, b / 2))
  }

  /** The poll condition `(val & cleared) == 0`. */
  predicate Cleared(val: u32, cleared: u32) {
    NoCommonBits(val, cleared)
  }

  /** Bit `k` of `a`, counting the least significant bit as bit 0. */
  predicate BitSet(a: nat, k: nat)
    decreases k
  {
    if k == 0 then a % 2 == 1 else BitSet(a / 2, k - 1)
  }

  lemma {:induction false} NoBitsOfZero(k: nat)
    decreases k
    ensures !BitSet(0, k)
  {
    if k > 0 {
      NoBitsOfZero(k - 1);
    }
  }

  /**
   * The recursive test is the bitwise one: `(a & b) == 0` holds exactly when
   * no bit position is set in both operands.
   */
  lemma {:induction false} NoCommonBitsIsBitwise(a: nat, b: nat)
    decreases a
    ensures NoCommonBits(a, b) ==> forall k: nat :: !(BitSet(a, k) && BitSet(b, k))
    ensures (forall k: nat :: !(BitSet(a, k) && BitSet(b, k))) ==> NoCommonBits(a, b)
  {
    if a == 0 || b == 0 {
      forall k: nat
        ensures !(BitSet(a, k) && BitSet(b, k))
      {
        NoBitsOfZero(k);
      }
    } else {
      NoCommonBitsIsBitwise(a / 2, b / 2);
      assert NoCommonBits(a, b) == ((a % 2 == 0 || b % 2 == 0) && NoCommonBits(a / 2, b / 2));
      assert BitSet(a, 0) == (a % 2 == 1) && BitSet(b, 0) == (b % 2 == 1);
      if NoCommonBits(a, b) {
        forall k: nat
          ensures !(BitSet(a, k) && BitSet(b, k))
        {
          if k > 0 {
            assert BitSet(a, k) == BitSet(a / 2, k - 1);
            assert BitSet(b, k) == BitSet(b / 2, k - 1);
            assert !(BitSet(a / 2, k - 1) && BitSet(b / 2, k - 1));
          } else {
            assert a % 2 == 0 || b % 2 == 0;
            assert !(BitSet(a, 0) && BitSet(b, 0));
          }
        }
      } else {
        if a % 2 == 1 && b % 2 == 1 {
          var k: nat := 0;
          assert BitSet(a, k) && BitSet(b, k);
        } else {
          var k: nat :| BitSet(a / 2, k) && BitSet(b / 2, k);
          assert BitSet(a, k + 1) == BitSet(a / 2, k);
          assert BitSet(b, k + 1) == BitSet(b / 2, k);
        }
      }
    }
  }

  /** The poll condition holds exactly when `val` has none of the bits of `cleared` set. */
  lemma ClearedBitwise(val: u32, cleared: u32)
    ensures Cleared(val, cleared) ==> forall k: nat :: !(BitSet(val, k) && BitSet(cleared, k))
    ensures (forall k: nat :: !(BitSet(val, k) && BitSet(cleared, k))) ==> Cleared(val, cleared)
  {
    NoCommonBitsIsBitwise(val, cleared);
  }

  /**
   * The index of the read at which a poll stops, looking from read `i` on.
   * Reads 0..budget are each followed by a deadline check that still finds
   * time left, except that read `budget` is followed by the check that finds
   * the deadline passed; that check triggers one last read, budget + 1.
   */
  function {:induction false} PollStop(observed: seq<u16>, cleared: u32, budget: nat, i: nat): (k: nat)
    requires i <= budget + 1 < |observed|
    decreases budget + 1 - i
    ensures i <= k <= budget + 1
    ensures forall j :: i <= j < k ==> !Cleared(observed[j], cleared)
    ensures k <= budget ==> Cleared(observed[k], cleared)
  {
    if Cleared(observed[i], cleared) || i == budget + 1 then i
    else PollStop(observed, cleared, budget, i + 1)
  }

  /** Whether a poll whose reads return `observed` succeeds before its deadline. */
  function PollSucceeds(observed: seq<u16>, cleared: u32, budget: nat): (ok: bool)
    requires budget + 2 <= |observed|
    ensures ok <==> exists i :: 0 <= i <= budget + 1 && Cleared(observed[i], cleared)
  {
    var k := PollStop(observed, cleared, budget, 0);
    assert forall i :: 0 <= i < k ==> !Cleared(observed[i], cleared);
    Cleared(observed[k], cleared)
  }

  /**
   * Polls internal register `regAddr` until `(val & cleared) == 0`. The window
   * is reconciled once; every read then goes to the same window register
   * without looking at TBAR again. Real time is replaced by `budget`, the
   * number of deadline checks that still find time left; `observed` holds the
   * successive values the hardware presents in the register. Returns the
   * poll helper's status (0 or -ETIMEDOUT as a u32), not the value read.
   */
  method ReadTimeout(chip: Chip, regAddr: u16, cleared: u32, budget: nat, observed: seq<u16>)
    returns (status: u32)
    requires chip.Valid()
    requires budget + 2 <= |observed|
    modifies chip
    ensures chip.Valid()
    ensures status == (if PollSucceeds(observed, cleared, budget) then 0 else TIMEOUT_STATUS)
    ensures chip.tbar == Reconcile(old(chip.tbar), regAddr)
    ensures var k := PollStop(observed, cleared, budget, 0);
            && chip.regs == old(chip.regs)[regAddr := observed[k]]
            && chip.trace == old(chip.trace) + WindowOps(old(chip.tbar), regAddr)
                             + Polls(Offset(chip.tbar, regAddr), k + 1)
  {
    var base := CheckWriteTbar(chip, regAddr);
    ReconciledOffsetHitsTarget(old(chip.tbar), regAddr);
    var off := regAddr - base;
    ghost var regs0, trace0 := chip.regs, chip.trace;
    ghost var k := PollStop(observed, cleared, budget, 0);
    var i := 0;
    var val: u32;
    while true
      invariant chip.Valid() && chip.tbar == base
      invariant 0 <= i <= budget
      invariant k == PollStop(observed, cleared, budget, i)
      invariant i == 0 ==> chip.regs == regs0
      invariant i > 0 ==> chip.regs == regs0[regAddr := observed[i - 1]]
      invariant chip.trace == trace0 + Polls(off, i)
      decreases budget - i
    {
      val := chip.BusReadVolatile(off, observed[i]);
      PollsGrow(off, i);
      if Cleared(val, cleared) {
        assert k == i;
        break;
      }
      if i == budget {
        // deadline passed: one last read decides
        val := chip.BusReadVolatile(off, observed[i + 1]);
        PollsGrow(off, i + 1);
        i := i + 1;
        assert k == i;
        break;
      }
      i := i + 1;
    }
    assert val == observed[k];
    status := if Cleared(val, cleared) then 0 else TIMEOUT_STATUS;
  }

  // ---------------------------------------------------------------------------
  // Consequences for callers

  /**
   * A read right after a write of the same address returns the written value
   * and issues no TBAR write of its own.
   */
  method WriteThenRead(chip: Chip, regAddr: u16, val: u32) returns (v: u32)
    requires chip.Valid()
    modifies chip
    ensures chip.Valid()
    ensures v == BusData(val)
    ensures chip.regs == old(chip.regs)[regAddr := BusData(val)]
    ensures chip.tbar == Reconcile(old(chip.tbar), regAddr)
    ensures var off := Offset(chip.tbar, regAddr);
            chip.trace == old(chip.trace) + WindowOps(old(chip.tbar), regAddr)
                          + [MdioWrite(off, BusData(val)), MdioRead(TARGET_BASE_ADDRESS_REG), MdioRead(off)]
  {
    Write(chip, regAddr, val);
    ReconcileIdempotent(old(chip.tbar), regAddr);
    v := Read(chip, regAddr);
  }

  /**
   * Writing 0x1234 to register 0xF396 from TBAR 0 moves the window once, to
   * 0xF396, and writes at offset 0; reading it back needs no further TBAR write.
   */
  method WriteReadF396() returns (v: u32, ghost trace: seq<BusOp>)
    ensures v == 0x1234
    ensures trace == [MdioRead(31), MdioWrite(31, 0xF396), MdioWrite(0, 0x1234), MdioRead(31), MdioRead(0)]
    ensures TbarWrites(trace) == 1
  {
    var chip := new Chip(0, seq(REG_SPACE, _ => 0));
    v := WriteThenRead(chip, 0xF396, 0x1234);
    trace := chip.trace;
    var window := WindowOps(0, 0xF396);
    assert window == [MdioRead(31), MdioWrite(31, 0xF396)];
    var rest: seq<BusOp> := [MdioWrite(0, 0x1234), MdioRead(31), MdioRead(0)];
    assert trace == window + rest;
    assert TbarWrites(rest[2..]) == 0;
    assert TbarWrites(rest[1..]) == 0;
    assert TbarWrites(rest) == 0;
    TbarWritesAppend(window, rest);
  }
}
