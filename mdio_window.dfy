/**
 * Window arithmetic of the GSW1xx MDIO slave interface.
 *
 * The switch exposes 32 MDIO registers. Registers 0..30 are a window onto the
 * internal 16-bit register addresses TBAR+0 .. TBAR+30; register 31 is the
 * Target Base Address Register (TBAR) that positions the window. This module
 * holds the pure part of the protocol: when the window has to move, where it
 * moves to, which MDIO register an internal address is reached through, and
 * what a sequence of accesses does to the window.
 */
module MdioWindow {

  /** A 16-bit quantity: an internal register address, a TBAR value, an MDIO data word. */
  type u16 = x: int | 0 <= x < 0x1_0000

  /** An MDIO register number (5 bits). */
  type MdioReg = r: int | 0 <= r < 32

  /** Number of window registers beyond register 0 (NUM_ACCESSIBLE_REGS). */
  const NUM_ACCESSIBLE_REGS: int := 30

  /** The MDIO register that holds the base of the window (TARGET_BASE_ADDRESS_REG). */
  const TARGET_BASE_ADDRESS_REG: MdioReg := 31

  /** Internal address `a` is reachable through the window based at `tbar`; both ends are inclusive. */
  predicate InWindow(a: u16, tbar: u16)
    ensures InWindow(a, tbar) ==> 0 <= a - tbar < TARGET_BASE_ADDRESS_REG
    ensures 0 <= a - tbar < TARGET_BASE_ADDRESS_REG ==> InWindow(a, tbar)
  {
    tbar <= a <= tbar + NUM_ACCESSIBLE_REGS
  }

  /**
   * The base the window has after the driver reconciles it for an access to `a`,
   * starting from a hardware TBAR of `tbar`: kept when `a` is inside, moved to
   * `a` itself otherwise.
   */
  function Reconcile(tbar: u16, a: u16): (base: u16)
    ensures base <= a <= base + NUM_ACCESSIBLE_REGS
    ensures InWindow(a, tbar) <==> base == tbar
    ensures !InWindow(a, tbar) ==> base == a
  {
    if a < tbar || a > tbar + NUM_ACCESSIBLE_REGS then a else tbar
  }

  /** The MDIO register through which `a` is accessed once the window is based at `base`. */
  function Offset(base: u16, a: u16): (reg: MdioReg)
    requires InWindow(a, base)
    ensures reg <= NUM_ACCESSIBLE_REGS && reg != TARGET_BASE_ADDRESS_REG
    ensures base + reg == a
  {
    a - base
  }

  /** The internal address the hardware maps window register `reg` to while TBAR holds `tbar`. */
  function WindowTarget(tbar: u16, reg: MdioReg): (a: u16)
    requires reg != TARGET_BASE_ADDRESS_REG
    ensures tbar + reg < 0x1_0000 ==> a == tbar + reg
  {
    (tbar + reg) % 0x1_0000
  }

  /** After reconciliation the offset register addresses exactly the requested internal address. */
  lemma ReconciledOffsetHitsTarget(tbar: u16, a: u16)
    ensures var base := Reconcile(tbar, a);
            InWindow(a, base) && WindowTarget(base, Offset(base, a)) == a
    ensures !InWindow(a, tbar) ==> Offset(Reconcile(tbar, a), a) == 0
  {
  }

  /** Reconciling is idempotent: a second access to the same address never moves the window. */
  lemma ReconcileIdempotent(tbar: u16, a: u16)
    ensures Reconcile(Reconcile(tbar, a), a) == Reconcile(tbar, a)
  {
  }

  // ---------------------------------------------------------------------------
  // Sequences of accesses

  /** The window bases left behind by accessing `addrs` one after the other, starting from `tbar`. */
  function {:induction false} SweepBases(tbar: u16, addrs: seq<u16>): (bases: seq<u16>)
    decreases |addrs|
    ensures |bases| == |addrs|
    ensures forall i :: 0 <= i < |addrs| ==> InWindow(addrs[i], bases[i])
    ensures addrs != [] ==> bases[0] == Reconcile(tbar, addrs[0])
    ensures forall i :: 0 < i < |addrs| ==> bases[i] == Reconcile(bases[i - 1], addrs[i])
  {
    if addrs == [] then []
    else
      var b := Reconcile(tbar, addrs[0]);
      var rest := SweepBases(b, addrs[1..]);
      assert forall i :: 1 < i < |addrs| ==> rest[i - 1] == Reconcile(rest[i - 2], addrs[i]);
      [b] + rest
  }

  /** How many of the accesses in `addrs`, starting from `tbar`, write TBAR. */
  function {:induction false} SweepReprograms(tbar: u16, addrs: seq<u16>): (n: nat)
    decreases |addrs|
    ensures n <= |addrs|
  {
    if addrs == [] then 0
    else
      var b := Reconcile(tbar, addrs[0]);
      (if InWindow(addrs[0], tbar) then 0 else 1) + SweepReprograms(b, addrs[1..])
  }

  /** The addresses lo, lo+1, ..., hi-1. */
  function Ascending(lo: u16, hi: int): (s: seq<u16>)
    requires lo <= hi <= 0x1_0000
    decreases hi - lo
    ensures |s| == hi - lo
    ensures forall i :: 0 <= i < |s| ==> s[i] == lo + i
  {
    if lo == hi then [] else [lo] + (if lo + 1 == hi then [] else Ascending(lo + 1, hi))
  }

  /** The start of the 31-address block that holds `a`. */
  function Aligned(a: u16): (b: u16)
    ensures b <= a < b + 31 && b % 31 == 0
  {
    31 * (a / 31)
  }

  /** One step of an ascending sweep: the window ends up on the block of the accessed address. */
  lemma AlignedStep(tbar: u16, a: u16)
    requires tbar % 31 == 0 && tbar <= a <= tbar + 31
    ensures Reconcile(tbar, a) == Aligned(a)
  {
    if a == tbar + 31 {
      assert a % 31 == 0;
    } else {
      assert a / 31 == tbar / 31;
    }
  }

  /**
   * An ascending sweep whose first address is at most one past the end of an
   * aligned window leaves, after each access to `a`, the base Aligned(a).
   */
  lemma {:induction false} AscendingSweepFrom(tbar: u16, lo: u16, hi: int)
    requires lo <= hi <= 0x1_0000
    requires tbar % 31 == 0 && tbar <= lo <= tbar + 31
    decreases hi - lo
    ensures forall i :: 0 <= i < hi - lo ==> SweepBases(tbar, Ascending(lo, hi))[i] == Aligned(lo + i)
  {
    if lo < hi {
      var addrs := Ascending(lo, hi);
      var b := Reconcile(tbar, lo);
      AlignedStep(tbar, lo);
      var bases := SweepBases(tbar, addrs);
      var rest := SweepBases(b, addrs[1..]);
      assert bases == [b] + rest;
      if lo + 1 < hi {
        assert addrs[1..] == Ascending(lo + 1, hi);
        AscendingSweepFrom(b, lo + 1, hi);
      }
      forall i | 0 < i < hi - lo
        ensures bases[i] == Aligned(lo + i)
      {
        assert bases[i] == rest[i - 1];
        assert rest[i - 1] == Aligned(lo + 1 + (i - 1));
      }
    }
  }

  /**
   * Accessing 0, 1, 2, ..., n-1 in turn from TBAR 0 leaves the base 31 * (a / 31)
   * after the access to `a`; the window moves exactly at the multiples of 31.
   */
  lemma AscendingSweepFromZero(n: int)
    requires 0 <= n <= 0x1_0000
    ensures var bases := SweepBases(0, Ascending(0, n));
            && (forall a :: 0 <= a < n ==> bases[a] == 31 * (a / 31))
            && (forall a :: 0 < a < n ==> (bases[a] != bases[a - 1] <==> a % 31 == 0))
  {
    AscendingSweepFrom(0, 0, n);
    var bases := SweepBases(0, Ascending(0, n));
    forall a | 0 <= a < n
      ensures bases[a] == Aligned(a)
    {
      assert bases[a] == Aligned(0 + a);
    }
    forall a | 0 < a < n
      ensures bases[a] != bases[a - 1] <==> a % 31 == 0
    {
      assert bases[a] == Aligned(a) && bases[a - 1] == Aligned(a - 1);
    }
  }

  /** Strictly decreasing addresses. */
  predicate StrictlyDescending(addrs: seq<u16>) {
    forall i :: 0 < i < |addrs| ==> addrs[i] < addrs[i - 1]
  }

  /**
   * A strictly descending sweep whose first address lies outside the current
   * window writes TBAR on every access, and each base is the address itself.
   */
  lemma {:induction false} DescendingSweep(tbar: u16, addrs: seq<u16>)
    requires StrictlyDescending(addrs)
    requires addrs != [] ==> !InWindow(addrs[0], tbar)
    decreases |addrs|
    ensures SweepBases(tbar, addrs) == addrs
    ensures SweepReprograms(tbar, addrs) == |addrs|
  {
    if addrs != [] {
      var b := Reconcile(tbar, addrs[0]);
      assert b == addrs[0];
      DescendingSweep(b, addrs[1..]);
    }
  }
}
