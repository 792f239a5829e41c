# MaxLinear GSW1xx: windowed MDIO register access and the special tag

This project models two pieces of the Linux support for the MaxLinear GSW120/GSW125
Ethernet switches, and proves properties of the model in Dafny.

**The MDIO register window** (`drivers/net/dsa/lantiq_gsw_mdio.c`). The switch has 16-bit
internal registers but shows only 32 MDIO registers. Register 31 is the Target Base Address
Register (TBAR). Registers 0..30 reach the internal addresses TBAR+0 .. TBAR+30. To access
an internal address, the driver reads TBAR. It rewrites TBAR only when the address is
outside that inclusive window, then accesses MDIO register `address - TBAR`.

- `mdio_window.dfy` (module `MdioWindow`) holds the pure window arithmetic. It covers
  the reconcile rule and the offset. It also says what a whole sweep of accesses does
  to the window.
- `gsw_mdio.dfy` (module `GswMdio`) holds the driver itself, as methods on a `Chip`
  object. `Chip` is the switch as seen over MDIO: its TBAR, its register file, and a ghost
  log of every MDIO transaction. The three driver operations are read, write and
  poll-until-bits-clear. Each states its result, the new register file, the new TBAR and
  the exact bus transactions it issued.

**The special tag** (`net/dsa/tag_maxlinear.c`). Frames between the host and the switch
carry an 8-byte tag right after the MAC addresses.

- On transmit, the tag holds the Ethertype 0x88C3, a control byte and a one-hot
  egress-port bitmap.
- On receive, the tag holds 0x88C3 and, in the low nibble of byte 2, the port the frame
  came in on.

`tag_maxlinear.dfy` (module `TagMaxlinear`) has two halves:

- The codec on byte sequences: `Xmit`, `Strip` and `Rcv`, plus lemmas relating them.
- The in-place versions on a socket buffer: class `SkBuff`, with an array, `data`/`len`
  offsets, the device and the offload mark. `TagXmit` and `TagRcv` are proved against
  the sequence functions.

Behaviour of the code worth knowing, all of it modelled as written:

- **Poll result.** The poll-until operation returns the poll helper's status, which is 0 or
  -ETIMEDOUT stored in a u32. It does not return the value read.
- **Bus errors.** No bus error is checked or propagated. A failed MDIO read is just a
  value.
- **Timestamp bit.** The transmit tag never sets the timestamp-enable bit.
- **Receive length check.** The check asks for 8 bytes from `skb->data`, which is 2 bytes
  past the start of the tag, not 8 bytes from the start of the tag.
- **Port round trip.** Decoding an encoded frame does not report the egress port. The two
  directions use different tag layouts, so receive reads the transmit control byte 0x90
  and finds port 0 (`RcvXmit`).

## Model

| member | source | states |
|---|---|---|
| MdioWindow.InWindow | drivers/net/dsa/lantiq_gsw_mdio.c:76 | an address is inside the window exactly when its distance from TBAR is a window register 0..30, below TBAR's own register 31 |
| MdioWindow.Reconcile | drivers/net/dsa/lantiq_gsw_mdio.c:76-81 | the window base after reconciliation always covers the target ([base, base+30]); it stays at TBAR exactly when the target is inside the inclusive window, and otherwise is the target itself |
| MdioWindow.Offset | drivers/net/dsa/lantiq_gsw_mdio.c:94 | the window register used is 0..30, never TBAR's register 31, and base + register is the target address |
| MdioWindow.WindowTarget | drivers/net/dsa/lantiq_gsw_mdio.c:71-75 | window register k maps to internal address TBAR + k whenever that does not pass 0xFFFF |
| MdioWindow.ReconciledOffsetHitsTarget | drivers/net/dsa/lantiq_gsw_mdio.c:71-79 | after reconciliation, the offset register reaches exactly the requested internal address; a moved window puts it at offset 0 |
| MdioWindow.ReconcileIdempotent | drivers/net/dsa/lantiq_gsw_mdio.c:76-79 | a second access to the same address never moves the window again |
| MdioWindow.SweepBases | drivers/net/dsa/lantiq_gsw_mdio.c:76-79 | over a sequence of accesses, every access finds its target inside the window it uses; the first base is the starting TBAR reconciled for the first access, and each later base is the previous base reconciled for its access |
| MdioWindow.SweepReprograms | drivers/net/dsa/lantiq_gsw_mdio.c:76-77 | a sweep writes TBAR at most once per access |
| MdioWindow.AscendingSweepFrom | drivers/net/dsa/lantiq_gsw_mdio.c:76-79 | ascending accesses starting from an aligned window leave the base 31*(a/31) after the access to a |
| MdioWindow.AscendingSweepFromZero | drivers/net/dsa/lantiq_gsw_mdio.c:76-79 | accessing 0,1,2,... from TBAR 0 moves the window exactly at the multiples of 31, i.e. once per 31 registers |
| MdioWindow.DescendingSweep | drivers/net/dsa/lantiq_gsw_mdio.c:76-79 | strictly descending accesses that start outside the window write TBAR on every access, and each base is the address itself |
| GswMdio.BusData | drivers/net/dsa/lantiq_gsw_mdio.c:52-55 | the data a bus write carries is the low 16 bits of the driver's u32, and equals it when it fits |
| GswMdio.WindowOps | drivers/net/dsa/lantiq_gsw_mdio.c:67-79 | reconciliation always starts with a TBAR read and writes TBAR (with the target) exactly when the target is outside the window |
| GswMdio.SweepWindowOps | drivers/net/dsa/lantiq_gsw_mdio.c:67-79 | the bus transactions of a sequence of window reconciliations number between one and two per access |
| GswMdio.SweepReprogramsCountsTbarWrites | drivers/net/dsa/lantiq_gsw_mdio.c:67-79 | the number of window moves along a sweep equals the number of TBAR writes in its bus transactions |
| GswMdio.Chip.BusRead | drivers/net/dsa/lantiq_gsw_mdio.c:47-50 | an MDIO read of register 31 yields TBAR, and of register k yields internal register TBAR+k; the read is logged |
| GswMdio.Chip.BusWrite | drivers/net/dsa/lantiq_gsw_mdio.c:52-55 | an MDIO write of register 31 moves the window, and of register k stores the 16-bit data into internal register TBAR+k only |
| GswMdio.Chip.BusReadVolatile | drivers/net/dsa/lantiq_gsw_mdio.c:111-113 | a read of a window register whose hardware value has changed returns the new value |
| GswMdio.ReadTbar | drivers/net/dsa/lantiq_gsw_mdio.c:57-60 | returns TBAR with one read of register 31 |
| GswMdio.WriteTbar | drivers/net/dsa/lantiq_gsw_mdio.c:62-65 | sets TBAR with one write of register 31; no internal register changes |
| GswMdio.CheckWriteTbar | drivers/net/dsa/lantiq_gsw_mdio.c:67-82 | returns the base now in the hardware; the target lies within [base, base+30]; the base is the old TBAR when the target was inside and the target otherwise; the bus sees the TBAR read and, only when needed, the TBAR write |
| GswMdio.Read | drivers/net/dsa/lantiq_gsw_mdio.c:84-98 | returns the internal register at the address; no register changes; TBAR ends reconciled; the transactions are the reconciliation plus one read at the offset |
| GswMdio.Write | drivers/net/dsa/lantiq_gsw_mdio.c:119-131 | exactly the addressed internal register takes the 16-bit value; TBAR ends reconciled; the transactions are the reconciliation plus one write at the offset |
| GswMdio.NoCommonBitsIsBitwise | drivers/net/dsa/lantiq_gsw_mdio.c:112 | the test for `(a & b) == 0` holds if and only if no bit position is set in both operands |
| GswMdio.ClearedBitwise | drivers/net/dsa/lantiq_gsw_mdio.c:112 | the poll condition holds if and only if the value read has none of the bits of the mask set |
| GswMdio.PollStop | drivers/net/dsa/lantiq_gsw_mdio.c:111-113 | the poll stops at the first read whose value has no bit of the mask set, or at the extra read after the deadline check fails |
| GswMdio.PollSucceeds | drivers/net/dsa/lantiq_gsw_mdio.c:111-113 | the poll succeeds if and only if one of its reads, the post-deadline read included, has the masked bits clear |
| GswMdio.ReadTimeout | drivers/net/dsa/lantiq_gsw_mdio.c:100-117 | returns 0 on success and -ETIMEDOUT as a u32 otherwise; reconciles the window once and then reads only the same window register, once per poll step |
| GswMdio.WriteThenRead | drivers/net/dsa/lantiq_gsw_mdio.c:84-131 | reading right after writing the same address returns the written 16-bit value and issues no second TBAR write |
| GswMdio.WriteReadF396 | drivers/net/dsa/lantiq_gsw_mdio.c:76-79 | writing then reading register 0xF396 from TBAR 0 gives the exact five-transaction trace with a single TBAR write |
| TagMaxlinear.EgressPortMap | net/dsa/tag_maxlinear.c:86 | a port index from 8 on, which the byte cannot name, gives an empty port bitmap |
| TagMaxlinear.EgressPortMapBits | net/dsa/tag_maxlinear.c:86 | byte 3 selects exactly the egress port when its index is below 8, and no port otherwise |
| TagMaxlinear.TxTag | net/dsa/tag_maxlinear.c:83-90 | the TX tag is exactly 8 bytes long, the header length the tagger reserves |
| TagMaxlinear.TxTagLayout | net/dsa/tag_maxlinear.c:83-90 | the TX tag is 0x88 0xC3, a control byte with port-map-enable and force-no-learn only (0x90), the port bitmap, and four zero bytes |
| TagMaxlinear.Xmit | net/dsa/tag_maxlinear.c:78-90 | the tagged frame is 8 bytes longer: the MAC addresses, then the tag, then the rest of the frame unchanged |
| TagMaxlinear.IngressPort | net/dsa/tag_maxlinear.c:111-112 | the ingress port read from the RX tag is always a 4-bit port number 0..15 |
| TagMaxlinear.IngressPortNibble | net/dsa/tag_maxlinear.c:111-112 | the ingress port is the low nibble of byte 2 of the RX tag, as a number |
| TagMaxlinear.Strip | net/dsa/tag_maxlinear.c:120-122 | untagging removes the 8 bytes after the MAC addresses and keeps everything else in order |
| TagMaxlinear.TagRecognised | net/dsa/tag_maxlinear.c:101-108 | a frame passes the length and magic checks only if it holds the whole 8-byte tag after the MAC addresses and the tag starts with 0x88 0xC3 |
| TagMaxlinear.Rcv | net/dsa/tag_maxlinear.c:95-125 | a frame is delivered if and only if at least 8 bytes follow the Ethernet header, the magic is 0x88C3, and the port has a slave; delivery goes to that slave with the tag removed |
| TagMaxlinear.StripXmit | net/dsa/tag_maxlinear.c:78-90 | removing the tag that transmit inserted gives back the original frame |
| TagMaxlinear.RcvXmit | net/dsa/tag_maxlinear.c:104-122 | receiving a frame exactly as transmit tagged it restores the frame but always reports port 0 |
| TagMaxlinear.SkBuff.Push | net/dsa/tag_maxlinear.c:78 | skb_push moves the data start back by n bytes and grows the length by n |
| TagMaxlinear.SkBuff.Pull | net/dsa/tag_maxlinear.c:121 | skb_pull moves the data start forward by n bytes and shrinks the length by n |
| TagMaxlinear.Moved | net/dsa/tag_maxlinear.c:79 | after a memmove, only the destination range changes, and it holds the source bytes in order |
| TagMaxlinear.Overwrite | net/dsa/tag_maxlinear.c:83-90 | storing bytes at a position changes only that range |
| TagMaxlinear.Memmove | net/dsa/tag_maxlinear.c:79 | the array after the in-place copy is Moved of the array before |
| TagMaxlinear.FillTxTag | net/dsa/tag_maxlinear.c:82-90 | the byte stores leave the TX tag at the tag position and nothing else changed |
| TagMaxlinear.XmitInBuffer | net/dsa/tag_maxlinear.c:78-90 | moving the MAC addresses 8 bytes forward and storing the tag behind them turns the buffer region into Xmit of the packet |
| TagMaxlinear.TagInPlace | net/dsa/tag_maxlinear.c:79-90 | the array region from the new data start holds Xmit of the old packet; the bytes before and after it are unchanged |
| TagMaxlinear.TagXmit | net/dsa/tag_maxlinear.c:72-93 | after tagging, the packet starts 8 bytes earlier and its bytes are Xmit of the old packet for the slave's port; the buffer bytes before and after the packet are unchanged |
| TagMaxlinear.StripInPlace | net/dsa/tag_maxlinear.c:122 | after moving the MAC addresses 8 bytes up, the frame 8 bytes further on is Strip of the old frame, and the bytes outside are unchanged |
| TagMaxlinear.Deliver | net/dsa/tag_maxlinear.c:117-122 | the offload mark follows the slave's bridge membership, data moves 8 bytes past the tag, and the frame from the new MAC header on is the untagged frame; the buffer bytes before the new MAC header and after the packet are unchanged |
| TagMaxlinear.TagRcv | net/dsa/tag_maxlinear.c:95-125 | the frame is delivered if and only if Rcv delivers it; a delivered frame matches Rcv's frame and slave, with the mark set, and the buffer bytes outside the frame are unchanged; a dropped frame keeps its bytes and offsets, and the device becomes NULL exactly when the tag was recognised |

## Left out

- The MDIO bus mutex (lines 92, 109, 127 of the driver) is left out. The model runs one
  operation at a time, which is what the lock guarantees.
- Real time in the poll is left out. `sleep_us` and `timeout_us` become `budget`, the number
  of deadline checks that still find time left. The hardware's successive register values
  become `observed`. A `timeout_us` of 0 means "poll forever" in the poll helper; that case
  is not modelled.
- Bus errors are left out: a negative return from the bus read callback, and the bus write
  callback's result. The bus callbacks are not part of this model. The Chip class stands in
  for them.
- GswMdio.Read: internal addresses are 16-bit (`u16`). The driver's u32 address above
  0xFFFF, which TBAR could not hold, is not modelled.
- GswMdio.Chip.BusRead: the wrap of TBAR + k past 0xFFFF is a modelling choice for the
  hardware (modulo 0x10000). The driver never relies on it, because targets are at most
  0xFFFF.
- TagMaxlinear.TagXmit: it requires at least the 12 MAC-address bytes and 8 bytes of
  headroom. The transmit path gets both from the network stack and from the tagger's
  `needed_headroom` (net/dsa/tag_maxlinear.c:132); it does not check them itself. It also
  requires a port index below 32, because the model computes `BIT(index)` as a 32-bit shift.
  In the code `BIT()` is `1UL << nr`, 64 bits wide on 64-bit kernels. DSA port indices stay
  far below 32, and the masked byte is 0 from index 8 on in both widths.
- The checksum update of `skb_pull_rcsum` and the reallocation inside `pskb_may_pull` are
  left out. The buffer is linear and a may-pull succeeds exactly when enough bytes are
  present.
- The RX tag fields other than the ingress port (traffic class, PPPoE/IPv4 flags, IP
  offset, destination map, mirrored, known L2 entry, packet length) are never read by the
  code, so their definitions are not modelled.
- The TX fields the code never sets (traffic class, timestamp, source port, interrupt
  enable) are not modelled either; `TxTagLayout` proves they are zero.
- `dsa_master_find_slave` becomes a map from port number to slave.
  `dsa_default_offload_fwd_mark` is the slave's bridge membership. dsa_priv.h and the DSA
  core are not part of this model.
- Driver probe/remove, the device-tree match table, the `gsw_ops` registration and
  drivers/net/dsa/lantiq_gsw_platform.c are glue and are not modelled.
