/** Extent repair between the members of a data partition, one extent: the leader compares the sizes
    of all members, lets the shorter ones copy the missing tail from the longest, and lets followers
    create extents they miss. */
module ExtentRepair {
  import opened BigEndian
  import opened Orders

  const READ_BLOCK := 65536
  const TINY_CHUNKS := 1

  /** The replicas of one extent, the leader's first. */
  type Replicas = seq<Option<seq<Byte>>>

  function SizeOf(r: Option<seq<Byte>>): nat { if r.Some? then |r.value| else 0 }

  // ----- choosing the longest replica -----

  /** mapMaxSizeExtentToIndex for one extent: the first member with the largest size, the leader
      when all are empty. */
  function Longest(rs: Replicas): (m: nat)
    requires rs != [] && rs[0].Some?
    ensures m < |rs| && rs[m].Some?
    ensures forall i :: 0 <= i < |rs| ==> SizeOf(rs[i]) <= SizeOf(rs[m])
    ensures forall i :: 0 <= i < m ==> SizeOf(rs[i]) < SizeOf(rs[m])
  {
    if |rs| == 1 then 0 else
      var m := Longest(rs[..|rs| - 1]);
      if SizeOf(rs[m]) < SizeOf(rs[|rs| - 1]) then |rs| - 1 else m
  }

  // ----- copying a tail in blocks -----

  /** The blocks that bring `data` from offset on: full ones of 64k, then the rest, up to the first
      one that cannot be read. */
  function Blocks(data: seq<Byte>, offset: nat, size: nat): (bs: seq<seq<Byte>>)
    ensures forall i :: 0 <= i < |bs| ==> 0 < |bs[i]| <= READ_BLOCK
    decreases size
  {
    var n := if size < READ_BLOCK then size else READ_BLOCK;
    if size == 0 || offset + n > |data| then [] else [data[offset..offset + n]] + Blocks(data, offset + n, size - n)
  }

  function Concat(bs: seq<seq<Byte>>): seq<Byte> {
    if bs == [] then [] else bs[0] + Concat(bs[1..])
  }

  /** A range within the extent arrives whole and in order, in blocks of 64k and a rest. */
  lemma {:induction false} BlocksDeliver(data: seq<Byte>, offset: nat, size: nat)
    requires offset + size <= |data|
    ensures var bs := Blocks(data, offset, size);
      && Concat(bs) == data[offset..offset + size]
      && (forall i :: 0 <= i < |bs| - 1 ==> |bs[i]| == 65536) && |bs| == (size + 65535) / 65536
    decreases size
  {
    if size > 0 {
      var n := if size < READ_BLOCK then size else READ_BLOCK;
      var rest := Blocks(data, offset + n, size - n);
      BlocksDeliver(data, offset + n, size - n);
      assert ([data[offset..offset + n]] + rest)[1..] == rest;
    }
  }

  /** handleStreamRead: fails if and only if the range does not lie within the extent. */
  method StreamRead(data: seq<Byte>, offset: nat, size: nat) returns (err: bool, sent: seq<seq<Byte>>)
    ensures sent == Blocks(data, offset, size) && (err <==> size > 0 && offset + size > |data|)
  {
    hide Blocks;
    err, sent := false, [];
    NoBlocks(data, offset + size);
    var need: nat, off: nat := size, offset;
    while need > 0
      invariant off + need == offset + size && (need == 0 ==> off <= |data| || size == 0)
      invariant Blocks(data, offset, size) == sent + Blocks(data, off, need)
    {
      var n := if need < READ_BLOCK then need else READ_BLOCK;
      NextBlock(data, off, need);
      if off + n > |data| { return true, sent; }
      sent := sent + [data[off..off + n]];
      need, off := need - n, off + n;
    }
  }

  /** streamRepairExtent: append what arrives until the local size has reached the target. It
      succeeds if and only if the source has that much or nothing was missing. */
  method StreamRepair(local: seq<Byte>, source: seq<Byte>, target: nat) returns (err: bool, fixed: seq<Byte>)
    ensures err <==> |local| < target && |source| < target
    ensures !err ==> fixed == if |local| < target then local + source[|local|..target] else local
    ensures err ==> |fixed| < target && Extended(local, source, fixed)
  {
    hide Blocks, Extended;
    var failed, incoming := StreamRead(source, |local|, if |local| < target then target - |local| else 0);
    fixed := local;
    ExtendedFacts(local, source, fixed);
    while |fixed| < target
      invariant Extended(local, source, fixed) && (|local| < target ==> |fixed| <= target)
      invariant |local| >= target ==> fixed == local
      invariant |fixed| <= target ==> incoming == Blocks(source, |fixed|, target - |fixed|)
      decreases target - |fixed|
    {
      NextBlock(source, |fixed|, target - |fixed|);
      if incoming == [] { return true, fixed; }
      ExtendedStep(local, source, fixed, |incoming[0]|);
      fixed, incoming := fixed + incoming[0], incoming[1..];
    }
    ExtendedFacts(local, source, fixed);
    err := false;
  }

  /** `fixed` is `local`, perhaps with more of the source. */
  ghost predicate Extended(local: seq<Byte>, source: seq<Byte>, fixed: seq<Byte>) {
    fixed == local || (|local| < |fixed| <= |source| && fixed == local + source[|local|..|fixed|])
  }

  lemma ExtendedFacts(local: seq<Byte>, source: seq<Byte>, fixed: seq<Byte>)
    ensures Extended(local, source, local)
    ensures Extended(local, source, fixed) && |local| < |fixed| ==>
      |fixed| <= |source| && fixed == local + source[|local|..|fixed|]
    ensures Extended(local, source, fixed) && |local| >= |fixed| ==> fixed == local
  {
  }

  lemma ExtendedStep(local: seq<Byte>, source: seq<Byte>, fixed: seq<Byte>, n: nat)
    requires Extended(local, source, fixed) && 0 < n && |fixed| + n <= |source|
    ensures Extended(local, source, fixed + source[|fixed|..|fixed| + n])
  {
    if fixed != local {
      assert source[|local|..|fixed|] + source[|fixed|..|fixed| + n] == source[|local|..|fixed| + n];
    }
  }

  lemma NoBlocks(data: seq<Byte>, offset: nat)
    ensures Blocks(data, offset, 0) == []
  {
  }

  lemma NextBlock(data: seq<Byte>, offset: nat, size: nat)
    requires size > 0
    ensures var n := if size < READ_BLOCK then size else READ_BLOCK;
      Blocks(data, offset, size) == if offset + n > |data| then []
        else [data[offset..offset + n]] + Blocks(data, offset + n, size - n)
  {
  }

  // ----- rounds -----

  /** All replicas are prefixes of one append-only stream. */
  ghost predicate OfStream(rs: Replicas, stream: seq<Byte>) {
    forall i :: 0 <= i < |rs| && rs[i].Some? ==> rs[i].value <= stream
  }

  /** What a round leaves of one extent: existing replicas are as long as the longest; a missing one
      is created and has got some of the leader's bytes, perhaps none. */
  ghost predicate AfterRound(rs: Replicas, rs': Replicas)
    requires rs != [] && rs[0].Some?
  {
    && |rs'| == |rs|
    && (forall i :: 0 <= i < |rs| && rs[i].Some? ==> rs'[i] == rs[Longest(rs)])
    && (forall i :: 0 <= i < |rs| && rs[i].None? ==> rs'[i].Some? && rs'[i].value <= rs[0].value)
  }

  lemma SameLength(a: seq<Byte>, b: seq<Byte>, stream: seq<Byte>)
    requires a <= stream && b <= stream && |a| == |b|
    ensures a == b
  {
  }

  /** A round only extends replicas, along the stream. */
  lemma RoundExtends(rs: Replicas, rs': Replicas, stream: seq<Byte>)
    requires rs != [] && rs[0].Some? && OfStream(rs, stream) && AfterRound(rs, rs')
    ensures OfStream(rs', stream)
    ensures forall i :: 0 <= i < |rs| ==> rs'[i].Some? && (rs[i].Some? ==> rs[i].value <= rs'[i].value)
    ensures SizeOf(rs'[Longest(rs')]) == SizeOf(rs[Longest(rs)]) && rs'[Longest(rs')] == rs[Longest(rs)]
  {
    hide Longest;
    var m, m' := Longest(rs), Longest(rs');
    forall i | 0 <= i < |rs| ensures rs'[i].Some? && rs'[i].value <= stream && SizeOf(rs'[i]) <= SizeOf(rs[m]) {
      assert SizeOf(rs[0]) <= SizeOf(rs[m]);
    }
    forall i | 0 <= i < |rs| && rs[i].Some?
      ensures rs[i].value <= rs'[i].value
    {
      assert SizeOf(rs[i]) <= SizeOf(rs[m]);
    }
    assert SizeOf(rs'[0]) <= SizeOf(rs'[m']);
    SameLength(rs'[m'].value, rs[m].value, stream);
  }

  /** After two rounds every member holds the extent with the bytes of the longest replica, whatever
      the transfers to created replicas delivered. */
  lemma TwoRoundsConverge(rs: Replicas, rs': Replicas, rs'': Replicas, stream: seq<Byte>)
    requires rs != [] && rs[0].Some? && OfStream(rs, stream) && AfterRound(rs, rs') && AfterRound(rs', rs'')
    ensures forall i :: 0 <= i < |rs| ==> rs''[i] == rs[Longest(rs)]
  {
    hide Longest;
    RoundExtends(rs, rs', stream);
  }

  /** And a further round changes nothing. */
  lemma ConvergedStays(rs: Replicas, rs': Replicas, x: seq<Byte>)
    requires rs != [] && (forall i :: 0 <= i < |rs| ==> rs[i] == Some(x)) && AfterRound(rs, rs')
    ensures rs' == rs
  {
    hide Longest;
  }

  /** One round is enough exactly when no replica is missing or it got everything. */
  lemma OneRoundExactly(rs: Replicas, rs': Replicas, stream: seq<Byte>)
    requires rs != [] && rs[0].Some? && OfStream(rs, stream) && AfterRound(rs, rs')
    ensures (forall i :: 0 <= i < |rs| ==> rs'[i] == rs[Longest(rs)]) <==>
      forall i :: 0 <= i < |rs| && rs[i].None? ==> SizeOf(rs'[i]) == SizeOf(rs[Longest(rs)])
  {
    hide Longest;
    RoundExtends(rs, rs', stream);
    forall i | 0 <= i < |rs| && rs[i].None? && SizeOf(rs'[i]) == SizeOf(rs[Longest(rs)])
      ensures rs'[i] == rs[Longest(rs)]
    {
      SameLength(rs'[i].value, rs[Longest(rs)].value, stream);
    }
  }

  // ----- all extents of a partition -----

  type Member = map<nat, seq<Byte>>

  function Column(ms: seq<Member>, f: nat): (rs: Replicas)
    ensures |rs| == |ms|
  {
    seq(|ms|, i requires 0 <= i < |ms| => if f in ms[i] then Some(ms[i][f]) else None)
  }
}
