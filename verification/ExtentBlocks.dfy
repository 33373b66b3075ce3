/** Block checksums of an extent file (storage/extent.go): a header slot per 256k block, kept up to
    date by Write and trusted by Read when it reads a whole block. The checksum is any function. */
module ExtentBlocks {
  import opened BigEndian

  const BLOCK_SIZE := 262144
  const BLOCK_COUNT := 1024
  const CRC_INDEX := 8
  const CRC_SIZE := 4
  const HEADER_SIZE := 4105

  type Crc = x: nat | x < 0x1_0000_0000
  type Checksum = seq<Byte> -> Crc

  // ----- the header -----

  function Slot(header: seq<Byte>, b: nat): nat
    requires |header| == HEADER_SIZE && b < BLOCK_COUNT
  {
    Val(header[CRC_INDEX + b * CRC_SIZE..CRC_INDEX + (b + 1) * CRC_SIZE])
  }

  function WithSlot(header: seq<Byte>, b: nat, crc: nat): (h: seq<Byte>)
    requires |header| == HEADER_SIZE && b < BLOCK_COUNT
    ensures |h| == HEADER_SIZE
  {
    var i := CRC_INDEX + b * CRC_SIZE;
    header[..i] + Be(crc, CRC_SIZE) + header[i + CRC_SIZE..]
  }

  lemma SlotSet(header: seq<Byte>, b: nat, crc: Crc, c: nat)
    requires |header| == HEADER_SIZE && b < BLOCK_COUNT && c < BLOCK_COUNT
    ensures Slot(WithSlot(header, b, crc), c) == if c == b then crc else Slot(header, c)
  {
    hide Be, Val;
    var h, i, j := WithSlot(header, b, crc), CRC_INDEX + b * CRC_SIZE, CRC_INDEX + c * CRC_SIZE;
    if c == b {
      assert h[i..i + CRC_SIZE] == Be(crc, CRC_SIZE);
      Widths();
      ValOfBe(crc, CRC_SIZE);
    } else {
      assert h[j..j + CRC_SIZE] == header[j..j + CRC_SIZE];
    }
  }

  // ----- the data -----

  /** WriteAt: writing past the end leaves zeros in between. */
  function Written(data: seq<Byte>, offset: nat, bytes: seq<Byte>): (d: seq<Byte>)
    ensures |d| == if |data| < offset + |bytes| then offset + |bytes| else |data|
  {
    var padded := if |data| < offset then data + seq(offset - |data|, i => 0) else data;
    padded[..offset] + bytes + if offset + |bytes| < |data| then data[offset + |bytes|..] else []
  }

  /** What a file holds after bytes were put at offset: these bytes there, zeros in a gap before them,
      and what it held everywhere else. */
  ghost predicate Holds(d: seq<Byte>, data: seq<Byte>, offset: nat, bytes: seq<Byte>) {
    && |d| == (if |data| < offset + |bytes| then offset + |bytes| else |data|)
    && (forall i :: offset <= i < offset + |bytes| ==> d[i] == bytes[i - offset])
    && (forall i :: 0 <= i < |data| && !(offset <= i < offset + |bytes|) ==> d[i] == data[i])
    && (forall i :: |data| <= i < offset ==> d[i] == 0)
  }

  lemma WrittenHolds(data: seq<Byte>, offset: nat, bytes: seq<Byte>)
    ensures Holds(Written(data, offset, bytes), data, offset, bytes)
  {
  }

  /** Nothing else is left open. */
  lemma HoldsOnce(d: seq<Byte>, d': seq<Byte>, data: seq<Byte>, offset: nat, bytes: seq<Byte>)
    requires Holds(d, data, offset, bytes) && Holds(d', data, offset, bytes)
    ensures d == d'
  {
    forall i | 0 <= i < |d| ensures d[i] == d'[i] {
      if offset <= i < offset + |bytes| { assert d[i] == bytes[i - offset]; }
    }
  }

  /** The bytes present of block b. */
  function Block(data: seq<Byte>, b: nat): seq<Byte>
    requires b * BLOCK_SIZE <= |data|
  {
    data[b * BLOCK_SIZE..if |data| < (b + 1) * BLOCK_SIZE then |data| else (b + 1) * BLOCK_SIZE]
  }

  /** The first n blocks, one after the other. */
  function Joined(data: seq<Byte>, n: nat): seq<Byte>
    requires n == 0 || (n - 1) * BLOCK_SIZE <= |data|
  {
    if n == 0 then [] else Joined(data, n - 1) + Block(data, n - 1)
  }

  /** The blocks cut the data into pieces of full size and a rest, and leave nothing out. */
  lemma {:induction false} BlocksSpell(data: seq<Byte>, n: nat)
    requires n == 0 || (n - 1) * BLOCK_SIZE <= |data|
    ensures Joined(data, n) == data[..if |data| < n * BLOCK_SIZE then |data| else n * BLOCK_SIZE]
    ensures n > 0 ==>
      |Block(data, n - 1)| == if |data| < n * BLOCK_SIZE then |data| - (n - 1) * BLOCK_SIZE else BLOCK_SIZE
  {
    if n > 0 { BlocksSpell(data, n - 1); }
  }

  /** Every non-empty block's slot is the checksum of its bytes. */
  ghost predicate BlocksOk(crcOf: Checksum, header: seq<Byte>, data: seq<Byte>)
    requires |header| == HEADER_SIZE
  {
    forall b :: 0 <= b < BLOCK_COUNT && b * BLOCK_SIZE < |data| ==> Slot(header, b) == crcOf(Block(data, b))
  }

  /** A block of zeros, whose checksum a new extent has in all slots. */
  function ZeroBlock(): (z: seq<Byte>)
    ensures |z| == BLOCK_SIZE
  {
    seq(BLOCK_SIZE, i => 0)
  }

  /** The slot of every block that the data do not reach is still that of a new extent. */
  ghost predicate UnusedOk(crcOf: Checksum, header: seq<Byte>, data: seq<Byte>)
    requires |header| == HEADER_SIZE
  {
    forall b :: 0 <= b < BLOCK_COUNT && |data| <= b * BLOCK_SIZE ==> Slot(header, b) == crcOf(ZeroBlock())
  }

  /** What a header looks like that was written with right checksums only. */
  ghost predicate SlotsOk(crcOf: Checksum, header: seq<Byte>, data: seq<Byte>) {
    |header| == HEADER_SIZE && BlocksOk(crcOf, header, data) && UnusedOk(crcOf, header, data)
  }

  predicate Refused(offset: nat, size: nat) {
    offset + size > BLOCK_SIZE * BLOCK_COUNT || offset >= BLOCK_COUNT * BLOCK_SIZE || size == 0 || size > BLOCK_SIZE
  }

  /** Accepted is what is not empty, not larger than a block and within the 256 MiB of an extent. */
  lemma AcceptedExactly(offset: nat, size: nat)
    ensures !Refused(offset, size) <==> 0 < size <= 262144 && offset + size <= 268435456
  {
  }

  // ----- what a write does to the slots -----

  /** The header after writing, with the data already in place: the given checksum for a write at
      the start of a block, recomputed ones for the one or two blocks of any other write. */
  function Updated(crcOf: Checksum, header: seq<Byte>, data: seq<Byte>, offset: nat, size: nat,
      crc: nat): (h: seq<Byte>)
    requires |header| == HEADER_SIZE && !Refused(offset, size) && offset + size <= |data|
    ensures |h| == HEADER_SIZE
  {
    var b := offset / BLOCK_SIZE;
    if offset % BLOCK_SIZE == 0 then WithSlot(header, b, crc)
    else
      var h := WithSlot(header, b, crcOf(Block(data, b)));
      if offset % BLOCK_SIZE + size > BLOCK_SIZE then WithSlot(h, b + 1, crcOf(Block(data, b + 1))) else h
  }

  lemma UpdatedSlots(crcOf: Checksum, header: seq<Byte>, data: seq<Byte>, offset: nat, size: nat, crc: Crc, c: nat)
    requires |header| == HEADER_SIZE && !Refused(offset, size) && offset + size <= |data| && c < BLOCK_COUNT
    ensures var b := offset / BLOCK_SIZE;
      Slot(Updated(crcOf, header, data, offset, size, crc), c) ==
        if offset % BLOCK_SIZE == 0 then (if c == b then crc else Slot(header, c))
        else if c == b || (c == b + 1 && offset % BLOCK_SIZE + size > BLOCK_SIZE) then crcOf(Block(data, c))
        else Slot(header, c)
  {
    hide Slot, WithSlot, Block;
    var b := offset / BLOCK_SIZE;
    if offset % BLOCK_SIZE == 0 {
      SlotSet(header, b, crc, c);
    } else {
      var x := crcOf(Block(data, b));
      SlotSet(header, b, x, c);
      if offset % BLOCK_SIZE + size > BLOCK_SIZE {
        SlotSet(WithSlot(header, b, x), b + 1, crcOf(Block(data, b + 1)), c);
      }
    }
  }

  /** The write reaches block c: its first one, or the next if it crosses into it. */
  predicate Touches(offset: nat, size: nat, c: nat) {
    c == offset / BLOCK_SIZE || (c == offset / BLOCK_SIZE + 1 && offset % BLOCK_SIZE + size > BLOCK_SIZE)
  }

  /** What a caller can look at before the write. Within the data or at its end, a write from a block
      start must cover the block as far as it reaches; past the end, the data must end with a block,
      or the write must begin in the block where they end. */
  predicate KeepsSlots(size: nat, offset: nat, count: nat) {
    if offset <= size then offset % BLOCK_SIZE != 0 || size <= offset + count || count == BLOCK_SIZE
    else size % BLOCK_SIZE == 0 || size / BLOCK_SIZE == offset / BLOCK_SIZE
  }

  /** Whatever is written, slots beyond the data stay as they are in a new extent. */
  lemma UnusedKept(crcOf: Checksum, header: seq<Byte>, data: seq<Byte>, offset: nat, bytes: seq<Byte>, crc: Crc)
    requires |header| == HEADER_SIZE && !Refused(offset, |bytes|) && UnusedOk(crcOf, header, data)
    ensures var d := Written(data, offset, bytes); UnusedOk(crcOf, Updated(crcOf, header, d, offset, |bytes|, crc), d)
  {
    hide Slot, Block, Updated;
    var d := Written(data, offset, bytes);
    var h := Updated(crcOf, header, d, offset, |bytes|, crc);
    forall c | 0 <= c < BLOCK_COUNT && |d| <= c * BLOCK_SIZE ensures Slot(h, c) == crcOf(ZeroBlock()) {
      UpdatedSlots(crcOf, header, d, offset, |bytes|, crc, c);
    }
  }

  /** A block that such a write does not reach keeps its bytes, or is a hole of zeros. */
  lemma OtherBlocks(data: seq<Byte>, offset: nat, bytes: seq<Byte>, c: nat)
    requires !Refused(offset, |bytes|) && KeepsSlots(|data|, offset, |bytes|)
    requires c * BLOCK_SIZE < |Written(data, offset, bytes)| && !Touches(offset, |bytes|, c)
    ensures Block(Written(data, offset, bytes), c) == if c * BLOCK_SIZE < |data| then Block(data, c) else ZeroBlock()
  {
    hide Written;
    var d := Written(data, offset, bytes);
    WrittenHolds(data, offset, bytes);
    var lo, hi := c * BLOCK_SIZE, (c + 1) * BLOCK_SIZE;
    if c < offset / BLOCK_SIZE {
      assert hi <= offset;
      if lo < |data| {
        assert hi <= |data|;
        SameSlice(d, data, lo, hi);
      } else {
        assert d[lo..hi] == ZeroBlock();
      }
    } else {
      assert offset + |bytes| <= lo;
      SameSlice(d, data, lo, if |d| < hi then |d| else hi);
    }
  }

  lemma SameSlice(d: seq<Byte>, data: seq<Byte>, lo: nat, hi: nat)
    requires lo <= hi <= |d| && hi <= |data| && forall i :: lo <= i < hi ==> d[i] == data[i]
    ensures d[lo..hi] == data[lo..hi]
  {
  }

  lemma FirstBlock(data: seq<Byte>, offset: nat, bytes: seq<Byte>)
    requires !Refused(offset, |bytes|) && KeepsSlots(|data|, offset, |bytes|) && offset % BLOCK_SIZE == 0
    ensures offset / BLOCK_SIZE * BLOCK_SIZE <= |Written(data, offset, bytes)|
    ensures Block(Written(data, offset, bytes), offset / BLOCK_SIZE) == bytes
  {
    assert Written(data, offset, bytes)[offset..offset + |bytes|] == bytes;
  }

  /** Such a write, with the checksum of its bytes, keeps every slot right. */
  lemma SlotsKept(crcOf: Checksum, header: seq<Byte>, data: seq<Byte>, offset: nat, bytes: seq<Byte>)
    requires !Refused(offset, |bytes|) && KeepsSlots(|data|, offset, |bytes|) && SlotsOk(crcOf, header, data)
    ensures var d := Written(data, offset, bytes);
      SlotsOk(crcOf, Updated(crcOf, header, d, offset, |bytes|, crcOf(bytes)), d)
  {
    hide Slot, Block, Updated, Written, KeepsSlots, ZeroBlock;
    var d := Written(data, offset, bytes);
    var h := Updated(crcOf, header, d, offset, |bytes|, crcOf(bytes));
    UnusedKept(crcOf, header, data, offset, bytes, crcOf(bytes));
    forall c | 0 <= c < BLOCK_COUNT && c * BLOCK_SIZE < |d| ensures Slot(h, c) == crcOf(Block(d, c)) {
      UpdatedSlots(crcOf, header, d, offset, |bytes|, crcOf(bytes), c);
      if !Touches(offset, |bytes|, c) {
        OtherBlocks(data, offset, bytes, c);
      } else if offset % BLOCK_SIZE == 0 {
        FirstBlock(data, offset, bytes);
      }
    }
  }

  // ----- and when it does not -----

  /** A checksum that tells lengths apart. */
  function LengthSum(s: seq<Byte>): Crc { if |s| < 0x1_0000_0000 then |s| else 0 }

  /** A header whose first n slots are right for the data. */
  ghost function SoundHeader(crcOf: Checksum, data: seq<Byte>, n: nat): (h: seq<Byte>)
    requires n <= BLOCK_COUNT
    ensures |h| == HEADER_SIZE
  {
    if n == 0 then seq(HEADER_SIZE, i => 0)
    else
      var block := if (n - 1) * BLOCK_SIZE < |data| then Block(data, n - 1) else ZeroBlock();
      WithSlot(SoundHeader(crcOf, data, n - 1), n - 1, crcOf(block))
  }

  lemma {:induction false} SoundSlots(crcOf: Checksum, data: seq<Byte>, n: nat, c: nat)
    requires c < n <= BLOCK_COUNT
    ensures Slot(SoundHeader(crcOf, data, n), c) == crcOf(if c * BLOCK_SIZE < |data| then Block(data, c)
      else ZeroBlock())
    decreases n
  {
    hide Slot, WithSlot, Block, ZeroBlock;
    if c < n - 1 { SoundSlots(crcOf, data, n - 1, c); }
    var block := if (n - 1) * BLOCK_SIZE < |data| then Block(data, n - 1) else ZeroBlock();
    SlotSet(SoundHeader(crcOf, data, n - 1), n - 1, crcOf(block), c);
  }

  lemma SoundIsOk(crcOf: Checksum, data: seq<Byte>)
    ensures SlotsOk(crcOf, SoundHeader(crcOf, data, BLOCK_COUNT), data)
  {
    hide Slot, Block, SoundHeader, ZeroBlock;
    var h := SoundHeader(crcOf, data, BLOCK_COUNT);
    forall c | 0 <= c < BLOCK_COUNT
      ensures Slot(h, c) == crcOf(if c * BLOCK_SIZE < |data| then Block(data, c) else ZeroBlock())
    {
      SoundSlots(crcOf, data, BLOCK_COUNT, c);
    }
  }

  /** The failing family: a write from a block start that leaves bytes of the block behind it, or one
      that leaves a hole from the middle of a block up to another one. The slot of the block then has
      the wrong length. */
  lemma WrongSlot(data: seq<Byte>, offset: nat, bytes: seq<Byte>)
    requires !Refused(offset, |bytes|) && !KeepsSlots(|data|, offset, |bytes|)
    ensures var h, d := SoundHeader(LengthSum, data, BLOCK_COUNT), Written(data, offset, bytes);
      && SlotsOk(LengthSum, h, data)
      && !BlocksOk(LengthSum, Updated(LengthSum, h, d, offset, |bytes|, LengthSum(bytes)), d)
  {
    hide Slot, Updated, SoundHeader, Written, SlotsOk;
    var h, d := SoundHeader(LengthSum, data, BLOCK_COUNT), Written(data, offset, bytes);
    SoundIsOk(LengthSum, data);
    var c := if offset <= |data| then offset / BLOCK_SIZE else |data| / BLOCK_SIZE;
    assert c * BLOCK_SIZE < |d| && c < BLOCK_COUNT;
    SoundSlots(LengthSum, data, BLOCK_COUNT, c);
    UpdatedSlots(LengthSum, h, d, offset, |bytes|, LengthSum(bytes), c);
    var h' := Updated(LengthSum, h, d, offset, |bytes|, LengthSum(bytes));
    if offset <= |data| {
      assert Slot(h', c) == |bytes| < |Block(d, c)|;
    } else {
      assert (c + 1) * BLOCK_SIZE <= offset && |Block(d, c)| == BLOCK_SIZE;
      assert Slot(h', c) == |data| - c * BLOCK_SIZE < BLOCK_SIZE;
    }
  }

  ghost predicate StaysRight(crcOf: Checksum, header: seq<Byte>, data: seq<Byte>, offset: nat, bytes: seq<Byte>)
    requires |header| == HEADER_SIZE && !Refused(offset, |bytes|)
  {
    var d := Written(data, offset, bytes);
    BlocksOk(crcOf, Updated(crcOf, header, d, offset, |bytes|, crcOf(bytes)), d)
  }

  /** The exact condition, for all writes: the slots stay right for every checksum and every header
      that is right so far if and only if offset and sizes are of the kind that keeps them. */
  lemma WriteKeepsExactly(data: seq<Byte>, offset: nat, bytes: seq<Byte>)
    requires !Refused(offset, |bytes|)
    ensures KeepsSlots(|data|, offset, |bytes|) <==>
      forall crcOf: Checksum, header: seq<Byte> :: SlotsOk(crcOf, header, data) ==>
        StaysRight(crcOf, header, data, offset, bytes)
  {
    hide BlocksOk, UnusedOk, Updated, Written, SoundHeader, KeepsSlots;
    if KeepsSlots(|data|, offset, |bytes|) {
      forall crcOf: Checksum, header: seq<Byte> | SlotsOk(crcOf, header, data)
        ensures StaysRight(crcOf, header, data, offset, bytes)
      {
        SlotsKept(crcOf, header, data, offset, bytes);
      }
    } else {
      WrongSlot(data, offset, bytes);
      var h := SoundHeader(LengthSum, data, BLOCK_COUNT);
      assert SlotsOk(LengthSum, h, data) && !StaysRight(LengthSum, h, data, offset, bytes);
    }
  }

  /** In particular a byte written over the first of two is enough. */
  lemma ShortRewriteFails(x: Byte, y: Byte, z: Byte)
    ensures var h := SoundHeader(LengthSum, [x, y], BLOCK_COUNT);
      && Written([x, y], 0, [z]) == [z, y]
      && SlotsOk(LengthSum, h, [x, y]) && !StaysRight(LengthSum, h, [x, y], 0, [z])
  {
    hide BlocksOk, Updated, SoundHeader, SlotsOk;
    WrongSlot([x, y], 0, [z]);
  }

  // ----- the extent object -----

  class Extent {
    const sum: Checksum
    var header: seq<Byte>       // in memory
    var fileHeader: seq<Byte>   // the same bytes of the file
    var data: seq<Byte>         // the file after its header
    var dataSize: nat

    /** InitToFS: no data, and every slot the checksum of a block of zeros. */
    constructor (c: Checksum)
      ensures Sound() && sum == c && data == []
      ensures forall b :: 0 <= b < BLOCK_COUNT ==> Slot(header, b) == c(ZeroBlock())
    {
      sum := c;
      header, fileHeader, data, dataSize := seq(HEADER_SIZE, i => 0), seq(HEADER_SIZE, i => 0), [], 0;
      new;
      hide Slot, WithSlot;
      var b := 0;
      var empty := sum(ZeroBlock());
      while b < BLOCK_COUNT
        invariant b <= BLOCK_COUNT && Valid() && data == [] && sum == c
        invariant forall i :: 0 <= i < b ==> Slot(header, i) == empty
      {
        forall i | 0 <= i < BLOCK_COUNT
          ensures Slot(WithSlot(header, b, empty), i) == if i == b then empty else Slot(header, i)
        {
          SlotSet(header, b, empty, i);
        }
        UpdateBlockCrc(b, empty);
        b := b + 1;
      }
    }

    ghost predicate Valid()
      reads this
    {
      |header| == HEADER_SIZE && fileHeader == header && dataSize == |data|
    }

    ghost predicate Sound()
      reads this
    {
      Valid() && SlotsOk(sum, header, data)
    }

    method UpdateBlockCrc(b: nat, crc: Crc)
      requires |header| == HEADER_SIZE && fileHeader == header && b < BLOCK_COUNT
      modifies this`header, this`fileHeader
      ensures header == WithSlot(old(header), b, crc) && fileHeader == header
    {
      header := WithSlot(header, b, crc);
      var i := CRC_INDEX + b * CRC_SIZE;
      fileHeader := fileHeader[..i] + header[i..i + CRC_SIZE] + fileHeader[i + CRC_SIZE..];
      assert fileHeader == header;
    }

    /** Write. The checksum is the caller's; it is not compared with the data. */
    method Write(bytes: seq<Byte>, offset: nat, crc: Crc) returns (err: bool)
      requires Valid()
      modifies this
      ensures Valid() && (err <==> Refused(offset, |bytes|))
      ensures err ==> data == old(data) && header == old(header)
      ensures !err ==> Holds(data, old(data), offset, bytes)
      ensures !err ==>
        data == Written(old(data), offset, bytes) && header == Updated(sum, old(header), data, offset, |bytes|, crc)
      ensures !err && old(Sound()) && crc == sum(bytes) && KeepsSlots(old(|data|), offset, |bytes|) ==> Sound()
      ensures old(UnusedOk(sum, header, data)) ==> UnusedOk(sum, header, data)
    {
      hide BlocksOk, UnusedOk, Slot, WithSlot, Block, Written, Holds;
      var size := |bytes|;
      if Refused(offset, size) { return true; }
      WrittenHolds(data, offset, bytes);
      data := Written(data, offset, bytes);
      if dataSize < offset + size { dataSize := offset + size; }
      var b, inBlock := offset / BLOCK_SIZE, offset % BLOCK_SIZE;
      if inBlock == 0 {
        UpdateBlockCrc(b, crc);
      } else {
        Recompute(b, inBlock, size);
      }
      if old(UnusedOk(sum, header, data)) { UnusedKept(sum, old(header), old(data), offset, bytes, crc); }
      if old(Sound()) && crc == sum(bytes) && KeepsSlots(old(|data|), offset, |bytes|) {
        SlotsKept(sum, old(header), old(data), offset, bytes);
      }
      return false;
    }

    /** The loop of Write: blocks from b on until the written bytes are covered or the file ends. */
    method Recompute(b: nat, inBlock: nat, size: nat)
      requires Valid() && 0 < inBlock < BLOCK_SIZE && 0 < size <= BLOCK_SIZE &&
        b * BLOCK_SIZE + inBlock + size <= |data|
      requires b * BLOCK_SIZE + inBlock + size <= BLOCK_SIZE * BLOCK_COUNT
      modifies this`header, this`fileHeader
      ensures Valid()
      ensures header ==
        var h := WithSlot(old(header), b, sum(Block(data, b)));
        if inBlock + size > BLOCK_SIZE then WithSlot(h, b + 1, sum(Block(data, b + 1))) else h
    {
      hide WithSlot;
      var remain: int := inBlock + size;
      var k := b;
      while remain > 0
        invariant Valid() && b <= k <= b + 2 && remain == inBlock + size - (k - b) * BLOCK_SIZE
        invariant k == b ==> header == old(header)
        invariant k == b + 1 ==> header == WithSlot(old(header), b, sum(Block(data, b)))
        invariant k == b + 2 ==> remain <= 0 && inBlock + size > BLOCK_SIZE
        invariant k == b + 2 ==> header == WithSlot(WithSlot(old(header), b, sum(Block(data, b))), b + 1,
          sum(Block(data, b + 1)))
        decreases b + 2 - k
      {
        var block := Block(data, k);
        UpdateBlockCrc(k, sum(block));
        if |block| < BLOCK_SIZE { break; }
        remain := remain - BLOCK_SIZE;
        k := k + 1;
      }
    }

    /** Read into a buffer. A whole block takes its checksum from the header, anything else hashes
        the buffer, all of it. */
    method Read(buffer: seq<Byte>, offset: nat, size: nat) returns (err: bool, out: seq<Byte>, crc: nat)
      requires Valid() && size <= |buffer|
      ensures err <==> Refused(offset, size) || offset + size > |data|
      ensures !err ==> out == data[offset..offset + size] + buffer[size..]
      ensures !err ==>
        crc == if offset % BLOCK_SIZE == 0 && size == BLOCK_SIZE then Slot(header, offset / BLOCK_SIZE) else sum(out)
      ensures !err && Sound() && |buffer| == size ==> crc == sum(data[offset..offset + size])
    {
      hide Slot, WithSlot;
      out, crc := buffer, 0;
      if Refused(offset, size) || offset + size > |data| { return true, out, crc; }
      out := data[offset..offset + size] + buffer[size..];
      if offset % BLOCK_SIZE == 0 && size == BLOCK_SIZE {
        var b := offset / BLOCK_SIZE;
        crc := Slot(header, b);
        assert Block(data, b) == data[offset..offset + size];
        return false, out, crc;
      }
      crc := sum(out);
      assert |buffer| == size ==> out == data[offset..offset + size];
      return false, out, crc;
    }

    /** What was written is read back, whatever else the extent holds. A whole block comes with the
        checksum it was written with, anything else with that of its bytes. */
    method WriteThenRead(bytes: seq<Byte>, offset: nat, crc: Crc) returns (out: seq<Byte>, got: nat)
      requires Valid() && !Refused(offset, |bytes|)
      modifies this
      ensures Valid() && Holds(data, old(data), offset, bytes) && out == bytes
      ensures got == if offset % BLOCK_SIZE == 0 && |bytes| == BLOCK_SIZE then crc else sum(bytes)
    {
      hide Slot, WithSlot, Written, Updated, BlocksOk, UnusedOk;
      ghost var was := header;
      var err := Write(bytes, offset, crc);
      assert data[offset..offset + |bytes|] == bytes;
      UpdatedSlots(sum, was, data, offset, |bytes|, crc, offset / BLOCK_SIZE);
      err, out, got := Read(seq(|bytes|, i => 0), offset, |bytes|);
      assert out == bytes;
    }

    /** RestoreFromFS: header and size come back from the file. */
    method Restore()
      requires |fileHeader| == HEADER_SIZE
      modifies this`header, this`dataSize
      ensures Valid() && (old(Sound()) ==> Sound())
    {
      header := fileHeader;
      dataSize := |data|;
    }
  }
}
