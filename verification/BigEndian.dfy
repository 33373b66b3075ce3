/** Big-endian integers of a fixed width, as encoding/binary writes them. */
module BigEndian {
  type Byte = x: nat | x < 256

  function Pow256(w: nat): nat { if w == 0 then 1 else 256 * Pow256(w - 1) }

  function Be(n: nat, w: nat): (s: seq<Byte>)
    ensures |s| == w
  {
    if w == 0 then [] else Be(n / 256, w - 1) + [n % 256]
  }

  function Val(s: seq<Byte>): nat {
    if s == [] then 0 else Val(s[..|s| - 1]) * 256 + s[|s| - 1]
  }

  lemma {:induction false} ValOfBe(n: nat, w: nat)
    requires n < Pow256(w)
    ensures Val(Be(n, w)) == n
  {
    if w > 0 {
      assert n / 256 < Pow256(w - 1);
      ValOfBe(n / 256, w - 1);
      assert Be(n, w)[..w - 1] == Be(n / 256, w - 1);
    }
  }

  lemma {:induction false} BeOfVal(s: seq<Byte>)
    ensures Val(s) < Pow256(|s|) && Be(Val(s), |s|) == s
  {
    if s != [] {
      var t, b := s[..|s| - 1], s[|s| - 1];
      BeOfVal(t);
      assert Val(s) == Val(t) * 256 + b;
      assert Val(s) / 256 == Val(t) && Val(s) % 256 == b;
      assert Val(t) <= Pow256(|t|) - 1;
      assert s == t + [b];
    }
  }

  /** The bytes in front weigh more: a number is its upper part, shifted, plus its lower part. */
  lemma {:induction false} ValConcat(a: seq<Byte>, b: seq<Byte>)
    ensures Val(a + b) == Val(a) * Pow256(|b|) + Val(b)
    decreases |b|
  {
    if b == [] {
      assert a + b == a;
    } else {
      var m := |b| - 1;
      ValConcat(a, b[..m]);
      assert (a + b)[..|a + b| - 1] == a + b[..m];
      assert Val(a) * Pow256(m) * 256 == Val(a) * Pow256(|b|);
    }
  }

  lemma Widths()
    ensures Pow256(4) == 0x1_0000_0000 && Pow256(8) == 0x1_0000_0000_0000_0000
  {
    assert Pow256(1) == 256 && Pow256(2) == 65536 && Pow256(3) == 16777216;
    assert Pow256(4) == 0x1_0000_0000;
    assert Pow256(5) == 256 * Pow256(4) && Pow256(6) == 256 * Pow256(5) && Pow256(7) == 256 * Pow256(6);
  }
}
