/**
 * The MaxLinear GSW1xx special tag.
 *
 * Frames between the host and the switch carry an 8-byte tag right after the
 * destination and source MAC addresses. On transmit (the switch's "ingress"
 * special tag) the tag carries the magic 0x88 0xC3, a control byte and an
 * egress port bitmap; on receive (the switch's "egress" special tag) it
 * carries the magic and, in the low nibble of its byte 2, the port the frame
 * came in on. The two directions use different layouts.
 *
 * The first half of the module states both directions on byte sequences; the
 * second half is the socket buffer the tagger edits in place.
 */
module TagMaxlinear {

  datatype Option<T> = None | Some(value: T)

  // ---------------------------------------------------------------------------
  // Wire constants

  /** Length of a MAC address (ETH_ALEN). */
  const ETH_ALEN: nat := 6
  /** Length of an Ethernet header (ETH_HLEN). */
  const ETH_HLEN: nat := 14

  /** The default special-tag Ethertype, 0x88C3, byte by byte. */
  const ML_SPECIAL_TAG_ETHERTYPE_B1: bv8 := 0x88
  const ML_SPECIAL_TAG_ETHERTYPE_B2: bv8 := 0xC3

  /** TX tag, byte 2. */
  const MAXLINEAR_TX_HEADER_LEN: nat := 8
  const ML_TX_PORT_MAP_EN: bv8 := 1 << 7
  const ML_TX_TRAFF_CLASS_EN: bv8 := 1 << 6
  const ML_TX_TIME_STAMP_EN: bv8 := 1 << 5
  const ML_TX_FORCE_NO_LRN: bv8 := 1 << 4
  const ML_TX_TRAFF_CLASS_MASK: bv8 := 0x0F
  /** TX tag, byte 3: the egress port bitmap, GENMASK(7, 0) of BIT(port). */
  const ML_TX_EGRESS_PORT_MAP_MASK: bv32 := 0xFF

  /** RX tag, byte 2: the ingress port number in bits 3..0. */
  const MAXLINEAR_RX_HEADER_LEN: nat := 8
  const ML_RX_INGRESS_PORT_NUM_SHIFT: bv8 := 0
  const ML_RX_INGRESS_PORT_NUM_MASK: bv8 := 0x0F

  /** Bit `b` of `x`. */
  predicate Bit(x: bv8, b: nat)
    requires b < 8
  {
    x & ((1 as bv8) << b) != 0
  }

  // ---------------------------------------------------------------------------
  // Devices

  /**
   * The DSA port behind a slave network device: its index on the switch and
   * whether it is part of a bridge (which decides the offload forwarding mark).
   */
  datatype SlavePort = SlavePort(index: nat, bridged: bool)

  // ---------------------------------------------------------------------------
  // Transmit

  /** The egress port bitmap `BIT(index) & ML_TX_EGRESS_PORT_MAP_MASK`. */
  function EgressPortMap(index: nat): (m: bv8)
    requires index < 32
    ensures index >= 8 ==> m == 0
  {
    (((1 as bv32) << index) & ML_TX_EGRESS_PORT_MAP_MASK) as bv8
  }

  /**
   * The bitmap selects exactly the port `index` when it is one of the eight
   * the byte can name, and no port at all otherwise.
   */
  lemma EgressPortMapBits(index: nat)
    requires index < 32
    ensures index < 8 ==> forall b :: 0 <= b < 8 ==> (Bit(EgressPortMap(index), b) <==> b == index)
    ensures index >= 8 ==> EgressPortMap(index) == 0
  {
  }

  /** The 8-byte TX tag for egress port `index`. */
  function TxTag(index: nat): (t: seq<bv8>)
    requires index < 32
    ensures |t| == MAXLINEAR_TX_HEADER_LEN
  {
    [ML_SPECIAL_TAG_ETHERTYPE_B1, ML_SPECIAL_TAG_ETHERTYPE_B2,
     ML_TX_PORT_MAP_EN | ML_TX_FORCE_NO_LRN, EgressPortMap(index), 0, 0, 0, 0]
  }

  /**
   * The TX tag carries the magic, a control byte that enables the port map
   * and disables learning (and nothing else: no traffic class, no time
   * stamp), the port bitmap, and four zero bytes.
   */
  lemma TxTagLayout(index: nat)
    requires index < 32
    ensures var t := TxTag(index);
            && t[0] == 0x88 && t[1] == 0xC3
            && t[2] == 0x90
            && Bit(t[2], 7) && Bit(t[2], 4)
            && t[2] & ML_TX_TRAFF_CLASS_EN == 0 && t[2] & ML_TX_TIME_STAMP_EN == 0
            && t[2] & ML_TX_TRAFF_CLASS_MASK == 0
            && t[3] == EgressPortMap(index)
            && t[4] == 0 && t[5] == 0 && t[6] == 0 && t[7] == 0
  {
  }

  /** A frame as the tagger sends it: the TX tag inserted between the MAC addresses and the rest. */
  function Xmit(frame: seq<bv8>, index: nat): (r: seq<bv8>)
    requires |frame| >= 2 * ETH_ALEN && index < 32
    ensures |r| == |frame| + MAXLINEAR_TX_HEADER_LEN
    ensures forall i :: 0 <= i < 2 * ETH_ALEN ==> r[i] == frame[i]
    ensures forall i :: 0 <= i < MAXLINEAR_TX_HEADER_LEN ==> r[2 * ETH_ALEN + i] == TxTag(index)[i]
    ensures forall i :: 2 * ETH_ALEN + MAXLINEAR_TX_HEADER_LEN <= i < |r| ==> r[i] == frame[i - MAXLINEAR_TX_HEADER_LEN]
  {
    frame[..2 * ETH_ALEN] + TxTag(index) + frame[2 * ETH_ALEN..]
  }

  // ---------------------------------------------------------------------------
  // Receive

  /** The ingress port number carried in byte 2 of the RX tag. */
  function IngressPort(b: bv8): (port: int)
    ensures 0 <= port < 16
  {
    ((b & ML_RX_INGRESS_PORT_NUM_MASK) >> ML_RX_INGRESS_PORT_NUM_SHIFT) as int
  }

  /** The ingress port is the low nibble of the byte, read as a number. */
  lemma IngressPortNibble(b: bv8)
    ensures IngressPort(b) == (b as int) % 16
  {
    var hi := b >> 4;
    var lo := b & ML_RX_INGRESS_PORT_NUM_MASK;
    assert b == (hi << 4) | lo;
    assert (b as int) == (hi as int) * 16 + (lo as int);
  }

  /** Removes the 8 tag bytes that follow the MAC addresses. */
  function Strip(frame: seq<bv8>): (r: seq<bv8>)
    requires |frame| >= 2 * ETH_ALEN + MAXLINEAR_RX_HEADER_LEN
    ensures |r| == |frame| - MAXLINEAR_RX_HEADER_LEN
    ensures forall i :: 0 <= i < 2 * ETH_ALEN ==> r[i] == frame[i]
    ensures forall i :: 2 * ETH_ALEN <= i < |r| ==> r[i] == frame[i + MAXLINEAR_RX_HEADER_LEN]
  {
    frame[..2 * ETH_ALEN] + frame[2 * ETH_ALEN + MAXLINEAR_RX_HEADER_LEN..]
  }

  /** What the receive path makes of a frame: dropped (NULL), or delivered to a slave with the tag removed. */
  datatype RxResult = Dropped | Delivered(frame: seq<bv8>, slave: SlavePort)

  /**
   * A received frame, given from its MAC header on, passes the length and
   * magic checks. The length check counts from the end of the Ethernet
   * header, where the receive path finds the frame: 8 bytes must follow it.
   */
  predicate TagRecognised(frame: seq<bv8>)
    requires |frame| >= ETH_HLEN
    ensures TagRecognised(frame) ==> |frame| >= 2 * ETH_ALEN + MAXLINEAR_RX_HEADER_LEN
    ensures TagRecognised(frame) ==> frame[2 * ETH_ALEN..ETH_HLEN] == [0x88, 0xC3]
  {
    && |frame| - ETH_HLEN >= MAXLINEAR_RX_HEADER_LEN
    && frame[2 * ETH_ALEN] == ML_SPECIAL_TAG_ETHERTYPE_B1
    && frame[2 * ETH_ALEN + 1] == ML_SPECIAL_TAG_ETHERTYPE_B2
  }

  /**
   * The receive path on a frame given from its MAC header on, with the slave
   * devices of the switch given by port number.
   */
  function Rcv(frame: seq<bv8>, slaves: map<int, SlavePort>): (r: RxResult)
    requires |frame| >= ETH_HLEN
    ensures r.Delivered? <==> TagRecognised(frame) && IngressPort(frame[2 * ETH_ALEN + 2]) in slaves
    ensures |frame| < ETH_HLEN + MAXLINEAR_RX_HEADER_LEN ==> r == Dropped
    ensures frame[12] != 0x88 || frame[13] != 0xC3 ==> r == Dropped
    ensures r.Delivered? ==>
              && r.slave == slaves[IngressPort(frame[14])]
              && |r.frame| == |frame| - MAXLINEAR_RX_HEADER_LEN
              && r.frame[..2 * ETH_ALEN] == frame[..2 * ETH_ALEN]
              && r.frame[2 * ETH_ALEN..] == frame[2 * ETH_ALEN + MAXLINEAR_RX_HEADER_LEN..]
  {
    if !TagRecognised(frame) then Dropped
    else
      var port := IngressPort(frame[2 * ETH_ALEN + 2]);
      if port !in slaves then Dropped
      else Delivered(Strip(frame), slaves[port])
  }

  /** Removing what the transmit path inserted gives back the original frame. */
  lemma StripXmit(frame: seq<bv8>, index: nat)
    requires |frame| >= 2 * ETH_ALEN && index < 32
    ensures Strip(Xmit(frame, index)) == frame
  {
    var r := Strip(Xmit(frame, index));
    assert forall i :: 0 <= i < |frame| ==> r[i] == frame[i];
  }

  /**
   * Receiving a frame exactly as the transmit path tagged it restores the
   * frame, but always reports ingress port 0: the TX control byte 0x90 has a
   * zero low nibble, so the egress port index is not recovered.
   */
  lemma RcvXmit(frame: seq<bv8>, index: nat, slaves: map<int, SlavePort>)
    requires |frame| >= ETH_HLEN && index < 32
    ensures Rcv(Xmit(frame, index), slaves) == if 0 in slaves then Delivered(frame, slaves[0]) else Dropped
  {
    var tagged := Xmit(frame, index);
    assert tagged[14] == 0x90;
    assert IngressPort(0x90) == 0;
    StripXmit(frame, index);
  }

  // ---------------------------------------------------------------------------
  // The socket buffer

  /**
   * A linear socket buffer: the bytes from the buffer head to its end, the
   * offset of skb->data and skb->len, the device it belongs to (None is
   * NULL) and the offload forwarding mark.
   */
  class SkBuff {
    const buf: array<bv8>
    var data: nat
    var len: nat
    var dev: Option<SlavePort>
    var offloadFwdMark: bool

    ghost predicate Valid()
      reads this
    {
      data + len <= buf.Length
    }

    /** The packet bytes, skb->data onwards. */
    ghost function Bytes(): (s: seq<bv8>)
      reads this, buf
      requires Valid()
      ensures |s| == len
    {
      buf[data..data + len]
    }

    /** On receive: the frame from its MAC header on, ETH_HLEN bytes before skb->data. */
    ghost function MacFrame(): (s: seq<bv8>)
      reads this, buf
      requires Valid() && data >= ETH_HLEN
      ensures |s| == len + ETH_HLEN
    {
      buf[data - ETH_HLEN..data + len]
    }

    constructor (bytes: seq<bv8>, headroom: nat)
      ensures Valid() && fresh(buf)
      ensures data == headroom && Bytes() == bytes
      ensures dev == None && !offloadFwdMark
    {
      var a := new bv8[headroom + |bytes|]((i: int) requires 0 <= i < headroom + |bytes| =>
        if i < headroom then 0 else bytes[i - headroom]);
      buf, data, len := a, headroom, |bytes|;
      dev, offloadFwdMark := None, false;
    }

    /** skb_push: claims `n` bytes of headroom in front of the packet. */
    method Push(n: nat)
      requires Valid() && n <= data
      modifies this`data, this`len
      ensures Valid()
      ensures data == old(data) - n && len == old(len) + n
    {
      data, len := data - n, len + n;
    }

    /** skb_pull: drops `n` bytes from the front of the packet (the checksum update is not modelled). */
    method Pull(n: nat)
      requires Valid() && n <= len
      modifies this`data, this`len
      ensures Valid()
      ensures data == old(data) + n && len == old(len) - n
    {
      data, len := data + n, len - n;
    }
  }

  /** The contents of a buffer after `n` bytes are copied from `src` to `dst`, as memmove does. */
  function Moved(s: seq<bv8>, dst: nat, src: nat, n: nat): (r: seq<bv8>)
    requires dst + n <= |s| && src + n <= |s|
    ensures |r| == |s|
    ensures forall i :: 0 <= i < |s| && !(dst <= i < dst + n) ==> r[i] == s[i]
    ensures forall i :: dst <= i < dst + n ==> r[i] == s[src + (i - dst)]
  {
    seq(|s|, i requires 0 <= i < |s| => if dst <= i < dst + n then s[src + (i - dst)] else s[i])
  }

  /** The contents of a buffer after `t` is stored at `pos`. */
  function Overwrite(s: seq<bv8>, pos: nat, t: seq<bv8>): (r: seq<bv8>)
    requires pos + |t| <= |s|
    ensures |r| == |s|
    ensures forall i :: 0 <= i < |s| && !(pos <= i < pos + |t|) ==> r[i] == s[i]
    ensures forall i :: pos <= i < pos + |t| ==> r[i] == t[i - pos]
  {
    s[..pos] + t + s[pos + |t|..]
  }

  /** memmove within one buffer: copies `n` bytes from `src` to `dst` as if through a temporary. */
  method Memmove(a: array<bv8>, dst: nat, src: nat, n: nat)
    requires dst + n <= a.Length && src + n <= a.Length
    modifies a
    ensures a[..] == Moved(old(a[..]), dst, src, n)
  {
    var moved := a[src..src + n];
    forall i | dst <= i < dst + n {
      a[i] := moved[i - dst];
    }
    assert forall i :: 0 <= i < a.Length ==> a[..][i] == Moved(old(a[..]), dst, src, n)[i];
  }

  /** Stores the TX tag for egress port `index` byte by byte at `tag`. */
  method FillTxTag(a: array<bv8>, tag: nat, index: nat)
    requires tag + MAXLINEAR_TX_HEADER_LEN <= a.Length && index < 32
    modifies a
    ensures a[..] == Overwrite(old(a[..]), tag, TxTag(index))
  {
    a[tag] := ML_SPECIAL_TAG_ETHERTYPE_B1;
    a[tag + 1] := ML_SPECIAL_TAG_ETHERTYPE_B2;
    a[tag + 2] := ML_TX_PORT_MAP_EN | ML_TX_FORCE_NO_LRN;
    a[tag + 3] := EgressPortMap(index);
    a[tag + 4] := 0;
    a[tag + 5] := 0;
    a[tag + 6] := 0;
    a[tag + 7] := 0;
    assert forall i :: 0 <= i < a.Length ==> a[..][i] == Overwrite(old(a[..]), tag, TxTag(index))[i];
  }

  /**
   * In a buffer whose packet of `len` bytes starts at `d + 8`: moving the MAC
   * addresses 8 bytes forward and storing the tag behind them leaves, from `d`
   * on, the tagged frame.
   */
  lemma XmitInBuffer(s: seq<bv8>, d: nat, len: nat, index: nat)
    requires d + MAXLINEAR_TX_HEADER_LEN + len <= |s| && len >= 2 * ETH_ALEN && index < 32
    ensures var moved := Moved(s, d, d + MAXLINEAR_TX_HEADER_LEN, 2 * ETH_ALEN);
            var tagged := Overwrite(moved, d + 2 * ETH_ALEN, TxTag(index));
            tagged[d..d + MAXLINEAR_TX_HEADER_LEN + len] == Xmit(s[d + MAXLINEAR_TX_HEADER_LEN..d + MAXLINEAR_TX_HEADER_LEN + len], index)
  {
    var frame := s[d + MAXLINEAR_TX_HEADER_LEN..d + MAXLINEAR_TX_HEADER_LEN + len];
    var moved := Moved(s, d, d + MAXLINEAR_TX_HEADER_LEN, 2 * ETH_ALEN);
    var tagged := Overwrite(moved, d + 2 * ETH_ALEN, TxTag(index));
    var r := tagged[d..d + MAXLINEAR_TX_HEADER_LEN + len];
    var x := Xmit(frame, index);
    forall i | 0 <= i < |r|
      ensures r[i] == x[i]
    {
      assert r[i] == tagged[d + i];
      if i < 2 * ETH_ALEN {
        assert tagged[d + i] == moved[d + i] == s[d + MAXLINEAR_TX_HEADER_LEN + i];
        assert x[i] == frame[i] == s[d + MAXLINEAR_TX_HEADER_LEN + i];
      } else if i >= 2 * ETH_ALEN + MAXLINEAR_TX_HEADER_LEN {
        assert tagged[d + i] == moved[d + i] == s[d + i];
        assert x[i] == frame[i - MAXLINEAR_TX_HEADER_LEN] == s[d + i];
      } else {
        assert tagged[d + i] == TxTag(index)[i - 2 * ETH_ALEN];
        assert x[2 * ETH_ALEN + (i - 2 * ETH_ALEN)] == TxTag(index)[i - 2 * ETH_ALEN];
      }
    }
  }

  /**
   * The in-buffer part of tagging: with the packet of `len` bytes at `d + 8`,
   * moves the MAC addresses to `d` and stores the tag behind them.
   */
  method TagInPlace(a: array<bv8>, d: nat, len: nat, index: nat, ghost frame: seq<bv8>)
    requires d + MAXLINEAR_TX_HEADER_LEN + len <= a.Length && len >= 2 * ETH_ALEN && index < 32
    requires a[d + MAXLINEAR_TX_HEADER_LEN..d + MAXLINEAR_TX_HEADER_LEN + len] == frame
    modifies a
    ensures a[d..d + MAXLINEAR_TX_HEADER_LEN + len] == Xmit(frame, index)
    ensures a[..d] == old(a[..d]) && a[d + MAXLINEAR_TX_HEADER_LEN + len..] == old(a[d + MAXLINEAR_TX_HEADER_LEN + len..])
  {
    ghost var s := a[..];
    // dsa_alloc_etype_header: the MAC addresses move to the new front
    Memmove(a, d, d + MAXLINEAR_TX_HEADER_LEN, 2 * ETH_ALEN);
    // dsa_etype_header_pos_tx: the tag sits right behind them
    FillTxTag(a, d + 2 * ETH_ALEN, index);
    XmitInBuffer(s, d, len, index);
    ghost var after := a[..];
    assert a[d..d + MAXLINEAR_TX_HEADER_LEN + len] == after[d..d + MAXLINEAR_TX_HEADER_LEN + len];
  }

  /**
   * Tags a frame for egress through slave port `dev`: makes room in front,
   * moves the MAC addresses to the new front and fills in the tag behind them.
   */
  method TagXmit(skb: SkBuff, dev: SlavePort)
    requires skb.Valid() && MAXLINEAR_TX_HEADER_LEN <= skb.data
    requires skb.len >= 2 * ETH_ALEN && dev.index < 32
    modifies skb`data, skb`len, skb.buf
    ensures skb.Valid()
    ensures skb.data == old(skb.data) - MAXLINEAR_TX_HEADER_LEN
    ensures skb.Bytes() == Xmit(old(skb.Bytes()), dev.index)
    ensures skb.buf[..skb.data] == old(skb.buf[..])[..skb.data]
    ensures skb.buf[skb.data + skb.len..] == old(skb.buf[..])[skb.data + skb.len..]
  {
    ghost var frame := skb.Bytes();
    skb.Push(MAXLINEAR_TX_HEADER_LEN);
    TagInPlace(skb.buf, skb.data, skb.len - MAXLINEAR_TX_HEADER_LEN, dev.index, frame);
    assert skb.Bytes() == skb.buf[skb.data..skb.data + skb.len];
  }

  /**
   * The in-buffer part of untagging: with the frame of `len` bytes from its
   * MAC header at `mac`, moves the MAC addresses 8 bytes up over the tag, so
   * that the frame from `mac + 8` on is the untagged one.
   */
  method StripInPlace(a: array<bv8>, mac: nat, len: nat, ghost before: seq<bv8>, ghost frame: seq<bv8>)
    requires mac + len <= a.Length && len >= 2 * ETH_ALEN + MAXLINEAR_RX_HEADER_LEN
    requires a[..] == before && before[mac..mac + len] == frame
    modifies a
    ensures a[mac + MAXLINEAR_RX_HEADER_LEN..mac + len] == Strip(frame)
    ensures a[..mac + MAXLINEAR_RX_HEADER_LEN] == before[..mac + MAXLINEAR_RX_HEADER_LEN]
    ensures a[mac + len..] == before[mac + len..]
  {
    Memmove(a, mac + MAXLINEAR_RX_HEADER_LEN, mac, 2 * ETH_ALEN);
    ghost var r := a[mac + MAXLINEAR_RX_HEADER_LEN..mac + len];
    ghost var stripped := Strip(frame);
    forall i | 0 <= i < |r|
      ensures r[i] == stripped[i]
    {
      if i < 2 * ETH_ALEN {
        assert r[i] == before[mac + i] == frame[i];
      } else {
        assert r[i] == before[mac + MAXLINEAR_RX_HEADER_LEN + i] == frame[i + MAXLINEAR_RX_HEADER_LEN];
      }
    }
  }

  /**
   * The delivery half of the receive path: marks the frame as already
   * forwarded when the slave is bridged, pulls skb->data past the tag and
   * moves the MAC addresses up over it.
   */
  method Deliver(skb: SkBuff, slave: SlavePort, ghost bytes: seq<bv8>, ghost frame: seq<bv8>)
    requires skb.Valid() && ETH_HLEN <= skb.data && MAXLINEAR_RX_HEADER_LEN <= skb.len
    requires skb.buf[..] == bytes && skb.MacFrame() == frame
    modifies skb`data, skb`len, skb`offloadFwdMark, skb.buf
    ensures skb.Valid() && ETH_HLEN <= skb.data
    ensures skb.MacFrame() == Strip(frame)
    ensures skb.data == old(skb.data) + MAXLINEAR_RX_HEADER_LEN
    ensures skb.offloadFwdMark == slave.bridged
    ensures skb.buf[..skb.data - ETH_HLEN] == bytes[..skb.data - ETH_HLEN]
    ensures skb.buf[skb.data + skb.len..] == bytes[skb.data + skb.len..]
  {
    skb.offloadFwdMark := slave.bridged;
    // skb_pull_rcsum: skb->data moves past the tag
    skb.Pull(MAXLINEAR_RX_HEADER_LEN);
    var frameLen := ETH_HLEN + MAXLINEAR_RX_HEADER_LEN + skb.len;
    // dsa_strip_etype_header: the MAC addresses move up over the tag
    var mac := skb.data - ETH_HLEN - MAXLINEAR_RX_HEADER_LEN;
    StripInPlace(skb.buf, mac, frameLen, bytes, frame);
    assert skb.MacFrame() == skb.buf[mac + MAXLINEAR_RX_HEADER_LEN..mac + frameLen];
  }

  /**
   * Untags a received frame (skb->data is just past the Ethernet header).
   * Returns whether the frame is delivered (the source returns the skb) or
   * dropped (the source returns NULL).
   */
  method TagRcv(skb: SkBuff, slaves: map<int, SlavePort>) returns (delivered: bool)
    requires skb.Valid() && ETH_HLEN <= skb.data
    modifies skb`data, skb`len, skb`dev, skb`offloadFwdMark, skb.buf
    ensures skb.Valid() && ETH_HLEN <= skb.data
    ensures delivered <==> Rcv(old(skb.MacFrame()), slaves).Delivered?
    ensures delivered ==>
              var r := Rcv(old(skb.MacFrame()), slaves);
              && skb.MacFrame() == r.frame
              && skb.data == old(skb.data) + MAXLINEAR_RX_HEADER_LEN
              && skb.dev == Some(r.slave)
              && skb.offloadFwdMark == r.slave.bridged
    ensures delivered ==> skb.buf[..skb.data - ETH_HLEN] == old(skb.buf[..])[..skb.data - ETH_HLEN]
    ensures delivered ==> skb.buf[skb.data + skb.len..] == old(skb.buf[..])[skb.data + skb.len..]
    ensures !delivered ==>
              && skb.buf[..] == old(skb.buf[..])
              && skb.data == old(skb.data) && skb.len == old(skb.len)
              && skb.offloadFwdMark == old(skb.offloadFwdMark)
              && skb.dev == (if TagRecognised(old(skb.MacFrame())) then None else old(skb.dev))
  {
    ghost var frame := skb.MacFrame();
    ghost var bytes := skb.buf[..];
    // pskb_may_pull: 8 bytes must follow skb->data
    if skb.len < MAXLINEAR_RX_HEADER_LEN {
      assert !TagRecognised(frame);
      return false;
    }
    // dsa_etype_header_pos_rx: the tag starts 2 bytes before skb->data
    var tag := skb.data - 2;
    if skb.buf[tag] != ML_SPECIAL_TAG_ETHERTYPE_B1 || skb.buf[tag + 1] != ML_SPECIAL_TAG_ETHERTYPE_B2 {
      assert frame[2 * ETH_ALEN] == skb.buf[tag] && frame[2 * ETH_ALEN + 1] == skb.buf[tag + 1];
      return false;
    }
    assert TagRecognised(frame);
    var port := IngressPort(skb.buf[tag + 2]);
    assert skb.buf[tag + 2] == frame[2 * ETH_ALEN + 2];
    skb.dev := if port in slaves then Some(slaves[port]) else None;
    if skb.dev == None {
      return false;
    }
    assert Rcv(frame, slaves) == Delivered(Strip(frame), slaves[port]);
    assert skb.buf[..] == bytes && skb.MacFrame() == frame;
    Deliver(skb, skb.dev.value, bytes, frame);
    delivered := true;
  }
}
