/** The extent list of a file (proto/stream_key.go): every Put keeps, for each (partition, extent)
    pair, the position of its first appearance and the largest size put so far. */
module StreamKeys {
  datatype Pair = Pair(partition: nat, extent: nat)
  datatype ExtentKey = ExtentKey(partition: nat, extent: nat, size: nat, crc: nat) {
    function At(): Pair { Pair(partition, extent) }
  }

  const UINT64 := 0x1_0000_0000_0000_0000

  /** The position that Put would update: the last key if it matches, else the first match. */
  function Match(es: seq<ExtentKey>, p: Pair): (i: nat)
    ensures i <= |es| && (i < |es| ==> es[i].At() == p)
    ensures i == |es| ==> forall j :: 0 <= j < |es| ==> es[j].At() != p
    ensures i + 1 < |es| ==> es[|es| - 1].At() != p && forall j :: 0 <= j < i ==> es[j].At() != p
  {
    if es != [] && es[|es| - 1].At() == p then |es| - 1 else First(es, p)
  }

  function First(es: seq<ExtentKey>, p: Pair): (i: nat)
    ensures i <= |es| && (i < |es| ==> es[i].At() == p)
    ensures forall j :: 0 <= j < i ==> es[j].At() != p
  {
    if es == [] || es[0].At() == p then 0 else 1 + First(es[1..], p)
  }

  function Max(a: nat, b: nat): nat { if a < b then b else a }

  function Merged(es: seq<ExtentKey>, k: ExtentKey): seq<ExtentKey> {
    var i := Match(es, k.At());
    if i == |es| then es + [k] else es[i := es[i].(size := Max(es[i].size, k.size))]
  }

  function MergedAll(es: seq<ExtentKey>, ks: seq<ExtentKey>): seq<ExtentKey>
    decreases |ks|
  {
    if ks == [] then es else Merged(MergedAll(es, ks[..|ks| - 1]), ks[|ks| - 1])
  }

  function Sum(es: seq<ExtentKey>): nat {
    if es == [] then 0 else Sum(es[..|es| - 1]) + es[|es| - 1].size
  }

  class StreamKey {
    var extents: seq<ExtentKey>

    constructor ()
      ensures extents == []
    {
      extents := [];
    }

    method Put(k: ExtentKey)
      modifies this
      ensures extents == Merged(old(extents), k)
    {
      if |extents| == 0 {
        extents := extents + [k];
        return;
      }
      var last := |extents| - 1;
      if extents[last].At() == k.At() {
        if k.size > extents[last].size { extents := extents[last := extents[last].(size := k.size)]; }
        return;
      }
      var i := 0;
      while i < |extents|
        invariant i <= |extents| && extents == old(extents)
        invariant forall j :: 0 <= j < i ==> extents[j].At() != k.At()
      {
        if extents[i].At() == k.At() {
          if k.size > extents[i].size { extents := extents[i := extents[i].(size := k.size)]; }
          return;
        }
        i := i + 1;
      }
      extents := extents + [k];
    }

    /** Size, a sum of 32-bit sizes in 64 bits. */
    method Size() returns (bytes: nat)
      ensures bytes == Sum(extents) % UINT64
    {
      bytes := 0;
      var i := 0;
      while i < |extents|
        invariant i <= |extents| && bytes == Sum(extents[..i]) % UINT64
      {
        bytes := (bytes + extents[i].size) % UINT64;
        assert extents[..i + 1][..i] == extents[..i];
        i := i + 1;
      }
      assert extents[..i] == extents;
    }
  }

  // ----- what a run of Put computes -----

  ghost predicate Distinct(es: seq<ExtentKey>) {
    forall i, j :: 0 <= i < j < |es| ==> es[i].At() != es[j].At()
  }

  /** The pairs of ks, each at its first appearance. */
  function Appearances(ks: seq<ExtentKey>): seq<Pair>
  {
    if ks == [] then [] else
      var a, p := Appearances(ks[..|ks| - 1]), ks[|ks| - 1].At();
      if p in a then a else a + [p]
  }

  function Largest(ks: seq<ExtentKey>, p: Pair): nat {
    if ks == [] then 0 else
      var m, k := Largest(ks[..|ks| - 1], p), ks[|ks| - 1];
      if k.At() == p then Max(m, k.size) else m
  }

  function Pairs(es: seq<ExtentKey>): (ps: seq<Pair>)
    ensures |ps| == |es| && forall i :: 0 <= i < |es| ==> ps[i] == es[i].At()
  {
    seq(|es|, i requires 0 <= i < |es| => es[i].At())
  }

  /** After any sequence of Put on an empty list: the pairs stand once each, in order of first
      appearance, and each size is the largest ever put for its pair. */
  lemma {:induction false} PutAllIsMaxMerge(ks: seq<ExtentKey>)
    ensures var es := MergedAll([], ks);
      && Distinct(es)
      && Pairs(es) == Appearances(ks)
      && forall i :: 0 <= i < |es| ==> es[i].size == Largest(ks, es[i].At())
    decreases |ks|
  {
    if ks != [] {
      var ks0, k := ks[..|ks| - 1], ks[|ks| - 1];
      PutAllIsMaxMerge(ks0);
      var es := MergedAll([], ks0);
      PutDistinct(es, k);
      var es' := Merged(es, k);
      if Match(es, k.At()) == |es| {
        assert k.At() !in Pairs(es);
        NotLargest(ks0, k.At());
        assert Pairs(es') == Pairs(es) + [k.At()];
      } else {
        assert Pairs(es)[Match(es, k.At())] == k.At();
        assert Pairs(es') == Pairs(es);
      }
    }
  }

  lemma {:induction false} FirstSnoc(ks: seq<ExtentKey>, k: ExtentKey, p: Pair)
    ensures First(ks + [k], p) == if First(ks, p) < |ks| then First(ks, p) else if k.At() == p then |ks| else |ks| + 1
  {
    if ks != [] && ks[0].At() != p {
      assert (ks + [k])[1..] == ks[1..] + [k];
      FirstSnoc(ks[1..], k, p);
    }
  }

  lemma {:induction false} NotFirst(ks: seq<ExtentKey>, p: Pair)
    requires p !in Appearances(ks)
    ensures First(ks, p) == |ks|
    decreases |ks|
  {
    if ks != [] {
      NotFirst(ks[..|ks| - 1], p);
      assert ks == ks[..|ks| - 1] + [ks[|ks| - 1]];
      FirstSnoc(ks[..|ks| - 1], ks[|ks| - 1], p);
    }
  }

  /** The checksum of a pair is the one that came with its first key. */
  lemma {:induction false} FirstCrcKept(ks: seq<ExtentKey>)
    ensures var es := MergedAll([], ks);
      forall i :: 0 <= i < |es| ==> First(ks, es[i].At()) < |ks| && es[i].crc == ks[First(ks, es[i].At())].crc
    decreases |ks|
  {
    if ks != [] {
      var ks0, k := ks[..|ks| - 1], ks[|ks| - 1];
      var es, es' := MergedAll([], ks0), MergedAll([], ks);
      FirstCrcKept(ks0);
      PutAllIsMaxMerge(ks0);
      assert ks == ks0 + [k];
      forall i | 0 <= i < |es'|
        ensures First(ks, es'[i].At()) < |ks| && es'[i].crc == ks[First(ks, es'[i].At())].crc
      {
        FirstSnoc(ks0, k, es'[i].At());
        if i < |es| {
          assert es'[i].At() == es[i].At() && es'[i].crc == es[i].crc;
        } else {
          assert k.At() !in Pairs(es);
          NotFirst(ks0, k.At());
        }
      }
    }
  }

  lemma {:induction false} NotLargest(ks: seq<ExtentKey>, p: Pair)
    requires p !in Appearances(ks)
    ensures Largest(ks, p) == 0
    decreases |ks|
  {
    if ks != [] { NotLargest(ks[..|ks| - 1], p); }
  }

  lemma PutDistinct(es: seq<ExtentKey>, k: ExtentKey)
    requires Distinct(es)
    ensures Distinct(Merged(es, k))
  {
  }

  lemma {:induction false} PutAllDistinct(es: seq<ExtentKey>, ks: seq<ExtentKey>)
    requires Distinct(es)
    ensures Distinct(MergedAll(es, ks))
    decreases |ks|
  {
    if ks != [] { PutAllDistinct(es, ks[..|ks| - 1]); PutDistinct(MergedAll(es, ks[..|ks| - 1]), ks[|ks| - 1]); }
  }

  // ----- size never shrinks -----

  lemma {:induction false} SumUpdate(es: seq<ExtentKey>, i: nat, n: nat)
    requires i < |es|
    ensures Sum(es[i := es[i].(size := n)]) == Sum(es) - es[i].size + n
    decreases |es|
  {
    var es' := es[i := es[i].(size := n)];
    var m := |es| - 1;
    if i == m {
      assert es'[..m] == es[..m];
    } else {
      assert es'[..m] == es[..m][i := es[i].(size := n)];
      SumUpdate(es[..m], i, n);
    }
  }

  /** The size of a file is the sum over its parts, down to single extents. */
  lemma {:induction false} SumConcat(a: seq<ExtentKey>, b: seq<ExtentKey>)
    ensures Sum(a + b) == Sum(a) + Sum(b)
    ensures |b| == 1 ==> Sum(b) == b[0].size
    decreases |b|
  {
    if b == [] {
      assert a + b == a;
    } else {
      assert (a + b)[..|a + b| - 1] == a + b[..|b| - 1];
      SumConcat(a, b[..|b| - 1]);
    }
  }

  lemma PutGrows(es: seq<ExtentKey>, k: ExtentKey)
    ensures Sum(es) <= Sum(Merged(es, k)) && |es| <= |Merged(es, k)|
  {
    var i := Match(es, k.At());
    if i < |es| {
      SumUpdate(es, i, Max(es[i].size, k.size));
    } else {
      assert (es + [k])[..|es|] == es;
    }
  }

  lemma {:induction false} PutAllGrows(es: seq<ExtentKey>, ks: seq<ExtentKey>)
    ensures Sum(es) <= Sum(MergedAll(es, ks))
    decreases |ks|
  {
    if ks != [] { PutAllGrows(es, ks[..|ks| - 1]); PutGrows(MergedAll(es, ks[..|ks| - 1]), ks[|ks| - 1]); }
  }

  /** With 32-bit sizes and at most 2^32 extents the 64-bit sum does not wrap, so Size() is the
      true total and never decreases. */
  lemma {:induction false} SizeDoesNotWrap(es: seq<ExtentKey>)
    requires forall i :: 0 <= i < |es| ==> es[i].size < 0x1_0000_0000
    ensures Sum(es) <= |es| * 0xFFFF_FFFF
    ensures |es| <= 0x1_0000_0000 ==> Sum(es) % UINT64 == Sum(es)
    decreases |es|
  {
    if es != [] { SizeDoesNotWrap(es[..|es| - 1]); }
  }

  // ----- putting again what was put changes nothing -----

  ghost predicate Covers(es: seq<ExtentKey>, k: ExtentKey) {
    exists i :: 0 <= i < |es| && es[i].At() == k.At() && es[i].size >= k.size
  }

  lemma PutCovered(es: seq<ExtentKey>, k: ExtentKey)
    requires Distinct(es) && Covers(es, k)
    ensures Merged(es, k) == es
  {
    var i :| 0 <= i < |es| && es[i].At() == k.At() && es[i].size >= k.size;
    assert Match(es, k.At()) == i;
  }

  lemma PutCovers(es: seq<ExtentKey>, k: ExtentKey, q: ExtentKey)
    requires q == k || Covers(es, q)
    ensures Covers(Merged(es, k), q)
  {
    var es', i := Merged(es, k), Match(es, k.At());
    if q == k {
      assert es'[i].At() == k.At() && es'[i].size >= k.size;
    } else {
      var j :| 0 <= j < |es| && es[j].At() == q.At() && es[j].size >= q.size;
      assert es'[j].At() == q.At() && es'[j].size >= q.size;
    }
  }

  lemma {:induction false} PutAllCovers(es: seq<ExtentKey>, ks: seq<ExtentKey>, q: ExtentKey)
    requires q in ks || Covers(es, q)
    ensures Covers(MergedAll(es, ks), q)
    decreases |ks|
  {
    if ks != [] {
      var ks0, k := ks[..|ks| - 1], ks[|ks| - 1];
      assert ks == ks0 + [k];
      if q in ks0 || Covers(es, q) { PutAllCovers(es, ks0, q); }
      PutCovers(MergedAll(es, ks0), k, q);
    }
  }

  lemma {:induction false} PutAllCovered(es: seq<ExtentKey>, ks: seq<ExtentKey>)
    requires Distinct(es) && forall k :: k in ks ==> Covers(es, k)
    ensures MergedAll(es, ks) == es
    decreases |ks|
  {
    if ks != [] {
      PutAllCovered(es, ks[..|ks| - 1]);
      PutCovered(es, ks[|ks| - 1]);
    }
  }

  lemma {:induction false} PutAllConcat(es: seq<ExtentKey>, a: seq<ExtentKey>, b: seq<ExtentKey>)
    ensures MergedAll(es, a + b) == MergedAll(MergedAll(es, a), b)
    decreases |b|
  {
    if b == [] {
      assert a + b == a;
    } else {
      assert (a + b)[..|a + b| - 1] == a + b[..|b| - 1];
      PutAllConcat(es, a, b[..|b| - 1]);
    }
  }

  /** Whatever was put may be put again, in any order and any number of times. */
  lemma PutAgain(es: seq<ExtentKey>, seen: seq<ExtentKey>, again: seq<ExtentKey>)
    requires Distinct(es) && forall k :: k in again ==> k in seen
    ensures MergedAll(MergedAll(es, seen), again) == MergedAll(es, seen)
  {
    PutAllDistinct(es, seen);
    forall k | k in again ensures Covers(MergedAll(es, seen), k) { PutAllCovers(es, seen, k); }
    PutAllCovered(MergedAll(es, seen), again);
  }
}
