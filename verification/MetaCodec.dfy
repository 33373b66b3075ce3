/** The binary forms of extents, inodes, dentries and snapshot items (metanode/kernel_inode.go,
    kernel_dentry.go, partition_item.go, proto/stream_key.go), read the way bytes.Buffer and
    encoding/binary read them. */
module MetaCodec {
  import opened BigEndian
  import opened Orders
  import opened StreamKeys
  import opened MetaFsm

  const UINT32 := 0x1_0000_0000
  const INT63 := 0x8000_0000_0000_0000

  /** What is left of a buffer after reading a value, or an error. */
  datatype Got<T> = Short | Have(v: T, rest: seq<Byte>)

  /** binary.Read of an unsigned integer: all its bytes or an error. */
  function ReadUint(buf: seq<Byte>, w: nat): Got<nat> {
    if |buf| < w then Short else Have(Val(buf[..w]), buf[w..])
  }

  /** Buffer.Read into a slice of n bytes: fails only on an empty buffer; a short one leaves zeros. */
  function ReadBytes(buf: seq<Byte>, n: nat): Got<seq<Byte>> {
    if n == 0 then Have([], buf)
    else if buf == [] then Short
    else if |buf| < n then Have(buf + seq(n - |buf|, i => 0), [])
    else Have(buf[..n], buf[n..])
  }

  lemma ReadUintOf(n: nat, w: nat, rest: seq<Byte>)
    requires n < Pow256(w)
    ensures ReadUint(Be(n, w) + rest, w) == Have(n, rest)
  {
    hide Be, Val;
    ValOfBe(n, w);
    var buf := Be(n, w) + rest;
    assert buf[..w] == Be(n, w) && buf[w..] == rest;
  }

  lemma ReadBytesOf(bs: seq<Byte>, rest: seq<Byte>)
    ensures ReadBytes(bs + rest, |bs|) == Have(bs, rest)
  {
    var buf := bs + rest;
    assert buf[..|bs|] == bs && buf[|bs|..] == rest;
  }

  // ----- signed times -----

  function Unsigned(t: int): nat
    requires -INT63 <= t < INT63
  {
    if t < 0 then t + UINT64 else t
  }

  function Signed(n: nat): int { if n < INT63 then n else n - UINT64 }

  // ----- extents -----

  predicate ExtentFits(k: ExtentKey) {
    k.partition < UINT32 && k.extent < UINT64 && k.size < UINT32 && k.crc < UINT32
  }

  function ExtentBytes(k: ExtentKey): (s: seq<Byte>)
    ensures |s| == 20
  {
    Be(k.partition, 4) + (Be(k.extent, 8) + (Be(k.size, 4) + Be(k.crc, 4)))
  }

  function ReadExtent(buf: seq<Byte>): Got<ExtentKey> {
    match ReadUint(buf, 4)
    case Short => Short
    case Have(p, b1) =>
      match ReadUint(b1, 8)
      case Short => Short
      case Have(e, b2) =>
        match ReadUint(b2, 4)
        case Short => Short
        case Have(s, b3) =>
          match ReadUint(b3, 4)
          case Short => Short
          case Have(c, b4) => Have(ExtentKey(p, e, s, c), b4)
  }

  lemma ReadExtentOf(k: ExtentKey, rest: seq<Byte>)
    requires ExtentFits(k)
    ensures ReadExtent(ExtentBytes(k) + rest) == Have(k, rest)
  {
    hide Be, Val, ReadUint;
    Widths();
    var b4 := rest;
    var b3 := Be(k.crc, 4) + b4;
    var b2 := Be(k.size, 4) + b3;
    var b1 := Be(k.extent, 8) + b2;
    assert ExtentBytes(k) + rest == Be(k.partition, 4) + b1;
    ReadUintOf(k.partition, 4, b1);
    ReadUintOf(k.extent, 8, b2);
    ReadUintOf(k.size, 4, b3);
    ReadUintOf(k.crc, 4, b4);
  }

  /** The layout of an extent: partition, extent, size and checksum. */
  lemma ExtentLayout(k: ExtentKey)
    requires ExtentFits(k)
    ensures var s := ExtentBytes(k);
      Val(s[..4]) == k.partition && Val(s[4..12]) == k.extent && Val(s[12..16]) == k.size && Val(s[16..]) == k.crc
  {
    hide Be, Val;
    Widths();
    ValOfBe(k.partition, 4); ValOfBe(k.extent, 8); ValOfBe(k.size, 4); ValOfBe(k.crc, 4);
    var s := ExtentBytes(k);
    assert s[..4] == Be(k.partition, 4) && s[4..12] == Be(k.extent, 8);
    assert s[12..16] == Be(k.size, 4) && s[16..] == Be(k.crc, 4);
  }

  /** StreamKey.MarshalBinary. */
  function ExtentsBytes(es: seq<ExtentKey>): (s: seq<Byte>)
    ensures |s| == 20 * |es|
  {
    if es == [] then [] else ExtentBytes(es[0]) + ExtentsBytes(es[1..])
  }

  /** StreamKey.UnmarshalBinary: extents until the buffer is empty. */
  function ReadExtents(buf: seq<Byte>): Got<seq<ExtentKey>>
    decreases |buf|
  {
    if buf == [] then Have([], []) else
      match ReadExtent(buf)
      case Short => Short
      case Have(k, rest) =>
        if |rest| >= |buf| then Short else
          match ReadExtents(rest) case Short => Short case Have(ks, r) => Have([k] + ks, r)
  }

  lemma {:induction false} ReadExtentsOf(es: seq<ExtentKey>)
    requires forall i :: 0 <= i < |es| ==> ExtentFits(es[i])
    ensures ReadExtents(ExtentsBytes(es)) == Have(es, [])
    decreases |es|
  {
    hide ReadExtent, ExtentBytes;
    if es != [] {
      ReadExtentOf(es[0], ExtentsBytes(es[1..]));
      ReadExtentsOf(es[1..]);
      assert es == [es[0]] + es[1..];
    }
  }

  // ----- inodes -----

  predicate InodeFits(v: Inode) {
    && v.mode < UINT32 && v.size < UINT64 && v.gen < UINT64
    && -INT63 <= v.ctime < INT63 && -INT63 <= v.atime < INT63 && -INT63 <= v.mtime < INT63
    && forall i :: 0 <= i < |v.extents| ==> ExtentFits(v.extents[i])
  }

  /** MarshalValue: the extents are written only if their total size is not zero. */
  function InodeBytes(v: Inode): seq<Byte>
    requires InodeFits(v)
  {
    Be(v.mode, 4) + (Be(v.size, 8) + (Be(v.gen, 8) + (Be(Unsigned(v.ctime), 8) + (Be(Unsigned(v.atime), 8) +
      (Be(Unsigned(v.mtime), 8) + if Sum(v.extents) % UINT64 != 0 then ExtentsBytes(v.extents) else [])))))
  }

  /** n stands for t in two's complement. */
  predicate Stands(n: nat, t: int) { n == t || n == t + UINT64 }

  /** The layout of an inode: mode, size, generation, three times, and the extents if any are kept. */
  lemma InodeLayout(v: Inode)
    requires InodeFits(v)
    ensures var s := InodeBytes(v);
      && |s| >= 44 && Val(s[..4]) == v.mode && Val(s[4..12]) == v.size && Val(s[12..20]) == v.gen
      && Stands(Val(s[20..28]), v.ctime) && Stands(Val(s[28..36]), v.atime) && Stands(Val(s[36..44]), v.mtime)
      && s[44..] == if Sum(v.extents) % UINT64 == 0 then [] else ExtentsBytes(v.extents)
  {
    hide Be, Val, ExtentsBytes, Sum;
    Widths();
    var ct, at, mt := Unsigned(v.ctime), Unsigned(v.atime), Unsigned(v.mtime);
    ValOfBe(v.mode, 4); ValOfBe(v.size, 8); ValOfBe(v.gen, 8); ValOfBe(ct, 8); ValOfBe(at, 8); ValOfBe(mt, 8);
    var s := InodeBytes(v);
    assert s[..4] == Be(v.mode, 4) && s[4..12] == Be(v.size, 8) && s[12..20] == Be(v.gen, 8);
    assert s[20..28] == Be(ct, 8) && s[28..36] == Be(at, 8) && s[36..44] == Be(mt, 8);
  }

  /** UnmarshalValue, into a new inode. */
  function ReadInode(buf: seq<Byte>): Got<Inode> {
    match ReadUint(buf, 4)
    case Short => Short
    case Have(mode, b1) =>
      match ReadUint(b1, 8)
      case Short => Short
      case Have(size, b2) =>
        match ReadUint(b2, 8)
        case Short => Short
        case Have(gen, b3) => ReadTimes(mode, size, gen, b3)
  }

  function ReadTimes(mode: nat, size: nat, gen: nat, buf: seq<Byte>): Got<Inode> {
    match ReadUint(buf, 8)
    case Short => Short
    case Have(ct, b1) =>
      match ReadUint(b1, 8)
      case Short => Short
      case Have(at, b2) =>
        match ReadUint(b2, 8)
        case Short => Short
        case Have(mt, b3) =>
          match ReadExtents(b3)
          case Short => Short
          case Have(es, r) => Have(Inode(mode, size, gen, Signed(ct), Signed(at), Signed(mt), es), r)
  }

  /** What a stored inode reads back as. */
  function Stored(v: Inode): Inode {
    if Sum(v.extents) % UINT64 != 0 then v else v.(extents := [])
  }

  lemma ReadInodeOf(v: Inode)
    requires InodeFits(v)
    ensures ReadInode(InodeBytes(v)) == Have(Stored(v), [])
  {
    hide Be, Val, ReadUint, ReadExtents, ExtentsBytes, Sum, ReadTimes;
    Widths();
    var tail := if Sum(v.extents) % UINT64 != 0 then ExtentsBytes(v.extents) else [];
    var times := Be(Unsigned(v.ctime), 8) + (Be(Unsigned(v.atime), 8) + (Be(Unsigned(v.mtime), 8) + tail));
    ReadUintOf(v.mode, 4, Be(v.size, 8) + (Be(v.gen, 8) + times));
    ReadUintOf(v.size, 8, Be(v.gen, 8) + times);
    ReadUintOf(v.gen, 8, times);
    ReadTimesOf(v, tail);
  }

  lemma ReadTimesOf(v: Inode, tail: seq<Byte>)
    requires InodeFits(v) && tail == if Sum(v.extents) % UINT64 != 0 then ExtentsBytes(v.extents) else []
    ensures ReadTimes(v.mode, v.size, v.gen,
      Be(Unsigned(v.ctime), 8) + (Be(Unsigned(v.atime), 8) + (Be(Unsigned(v.mtime), 8) + tail)))
         == Have(Stored(v), [])
  {
    hide Be, Val, ReadUint, ExtentsBytes, Sum;
    Widths();
    ReadUintOf(Unsigned(v.ctime), 8, Be(Unsigned(v.atime), 8) + (Be(Unsigned(v.mtime), 8) + tail));
    ReadUintOf(Unsigned(v.atime), 8, Be(Unsigned(v.mtime), 8) + tail);
    ReadUintOf(Unsigned(v.mtime), 8, tail);
    ReadExtentsOf(v.extents);
  }

  /** The inode codec is the identity exactly when there are no extents or their sizes do not add
      up to zero. */
  lemma InodeRoundTripExactly(v: Inode)
    requires InodeFits(v)
    ensures ReadInode(InodeBytes(v)) == Have(v, []) <==> v.extents == [] || Sum(v.extents) % UINT64 != 0
  {
    hide ReadInode, InodeBytes, Sum;
    ReadInodeOf(v);
    if v.extents == [] { assert v.(extents := []) == v; }
  }

  // ----- dentries -----

  predicate DentryFits(k: DentryKey, d: Dentry) {
    k.parent < UINT64 && d.inode < UINT64 && d.mode < UINT32
  }

  function DentryKeyBytes(k: DentryKey): seq<Byte> { Be(k.parent, 8) + k.name }

  function DentryBytes(d: Dentry): seq<Byte> { Be(d.inode, 8) + Be(d.mode, 4) }

  function ReadDentryKey(buf: seq<Byte>): Option<DentryKey> {
    match ReadUint(buf, 8) case Short => None case Have(p, rest) => Some(DentryKey(p, rest))
  }

  function ReadDentry(buf: seq<Byte>): Option<Dentry> {
    match ReadUint(buf, 8)
    case Short => None
    case Have(i, rest) => match ReadUint(rest, 4) case Short => None case Have(m, _) => Some(Dentry(i, m))
  }

  /** The layout of a dentry: parent and name as the key, inode and mode as the value. */
  lemma DentryLayout(k: DentryKey, d: Dentry)
    requires DentryFits(k, d)
    ensures var s := DentryKeyBytes(k); |s| == 8 + |k.name| && Val(s[..8]) == k.parent && s[8..] == k.name
    ensures var s := DentryBytes(d); |s| == 12 && Val(s[..8]) == d.inode && Val(s[8..]) == d.mode
  {
    hide Be, Val;
    Widths();
    ValOfBe(k.parent, 8); ValOfBe(d.inode, 8); ValOfBe(d.mode, 4);
    assert DentryKeyBytes(k)[..8] == Be(k.parent, 8) && DentryKeyBytes(k)[8..] == k.name;
    assert DentryBytes(d)[..8] == Be(d.inode, 8) && DentryBytes(d)[8..] == Be(d.mode, 4);
  }

  lemma DentryRoundTrip(k: DentryKey, d: Dentry)
    requires DentryFits(k, d)
    ensures ReadDentryKey(DentryKeyBytes(k)) == Some(k) && ReadDentry(DentryBytes(d)) == Some(d)
  {
    hide Be, Val, ReadUint;
    Widths();
    ReadUintOf(k.parent, 8, k.name);
    ReadUintOf(d.inode, 8, Be(d.mode, 4));
    assert Be(d.mode, 4) == Be(d.mode, 4) + [];
    ReadUintOf(d.mode, 4, []);
  }

  // ----- snapshot items -----

  datatype MetaItem = MetaItem(op: nat, k: seq<Byte>, v: seq<Byte>)

  predicate ItemFits(m: MetaItem) { m.op < UINT32 && |m.k| < UINT32 && |m.v| < UINT32 }

  function ItemBytes(m: MetaItem): seq<Byte> {
    Be(m.op, 4) + (Be(|m.k|, 4) + (m.k + (Be(|m.v|, 4) + m.v)))
  }

  function ReadItem(buf: seq<Byte>): Option<MetaItem> {
    match ReadUint(buf, 4)
    case Short => None
    case Have(op, b1) =>
      match ReadUint(b1, 4)
      case Short => None
      case Have(lenK, b2) =>
        match ReadBytes(b2, lenK)
        case Short => None
        case Have(k, b3) =>
          match ReadUint(b3, 4)
          case Short => None
          case Have(lenV, b4) =>
            match ReadBytes(b4, lenV) case Short => None case Have(v, _) => Some(MetaItem(op, k, v))
  }

  /** The layout of a frame: operation, key and value, both with their lengths before them. */
  lemma ItemLayout(m: MetaItem)
    requires ItemFits(m)
    ensures var s, n := ItemBytes(m), |m.k|;
      && |s| == 12 + n + |m.v| && Val(s[..4]) == m.op && Val(s[4..8]) == n && s[8..8 + n] == m.k
      && Val(s[8 + n..12 + n]) == |m.v| && s[12 + n..] == m.v
  {
    hide Be, Val;
    Widths();
    ValOfBe(m.op, 4); ValOfBe(|m.k|, 4); ValOfBe(|m.v|, 4);
    var s, n := ItemBytes(m), |m.k|;
    assert s[..4] == Be(m.op, 4) && s[4..8] == Be(n, 4) && s[8..8 + n] == m.k;
    assert s[8 + n..12 + n] == Be(|m.v|, 4) && s[12 + n..] == m.v;
  }

  lemma ItemRoundTrip(m: MetaItem)
    requires ItemFits(m)
    ensures ReadItem(ItemBytes(m)) == Some(m)
  {
    hide Be, Val, ReadUint, ReadBytes;
    Widths();
    var b4 := m.v;
    var b3 := Be(|m.v|, 4) + b4;
    var b2 := m.k + b3;
    var b1 := Be(|m.k|, 4) + b2;
    ReadUintOf(m.op, 4, b1);
    ReadUintOf(|m.k|, 4, b2);
    ReadBytesOf(m.k, b3);
    ReadUintOf(|m.v|, 4, b4);
    assert m.v == m.v + [];
    ReadBytesOf(m.v, []);
  }
}
