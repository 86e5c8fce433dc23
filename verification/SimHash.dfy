/** Hamming distance of 64-bit fingerprints (internal/synthcluster/simhash.go) is a metric. A fingerprint is its
    sequence of bits; how it is computed from the text stays an arbitrary function. */
module SimHash {

  const BITS: nat := 64

  type Fingerprint = bits: seq<bool> | |bits| == BITS witness seq(BITS, _ => false)

  function Xor(a: Fingerprint, b: Fingerprint): (x: Fingerprint)
    ensures forall k :: 0 <= k < BITS ==> (x[k] <==> a[k] != b[k])
  {
    seq(BITS, k requires 0 <= k < BITS => a[k] != b[k])
  }

  function OnesCount(bits: seq<bool>): nat {
    if bits == [] then 0 else OnesCount(bits[..|bits| - 1]) + if bits[|bits| - 1] then 1 else 0
  }

  function HammingDistance(a: Fingerprint, b: Fingerprint): nat {
    OnesCount(Xor(a, b))
  }

  lemma {:induction false} OnesCountBounded(x: seq<bool>, y: seq<bool>, z: seq<bool>)
    requires |x| == |y| == |z|
    requires forall k :: 0 <= k < |z| && z[k] ==> x[k] || y[k]
    ensures OnesCount(z) <= OnesCount(x) + OnesCount(y)
  {
    if z != [] {
      var n := |z| - 1;
      OnesCountBounded(x[..n], y[..n], z[..n]);
    }
  }

  lemma {:induction false} OnesCountZero(x: seq<bool>)
    ensures OnesCount(x) == 0 <==> forall k :: 0 <= k < |x| ==> !x[k]
    ensures OnesCount(x) <= |x|
  {
    if x != [] {
      var n := |x| - 1;
      OnesCountZero(x[..n]);
      assert forall k :: 0 <= k < n ==> x[..n][k] == x[k];
    }
  }

  lemma HammingMetric(a: Fingerprint, b: Fingerprint, c: Fingerprint)
    ensures HammingDistance(a, b) == 0 <==> a == b
    ensures HammingDistance(a, b) == HammingDistance(b, a)
    ensures HammingDistance(a, b) <= BITS
    ensures HammingDistance(a, c) <= HammingDistance(a, b) + HammingDistance(b, c)
  {
    OnesCountZero(Xor(a, b));
    if HammingDistance(a, b) == 0 {
      assert forall k :: 0 <= k < BITS ==> !Xor(a, b)[k];
    }
    assert Xor(a, b) == Xor(b, a);
    OnesCountBounded(Xor(a, b), Xor(b, c), Xor(a, c));
  }

  /** The positions below `n` that hold a one. */
  function Ones(bits: seq<bool>, n: nat): set<nat>
    requires n <= |bits|
  {
    set k: nat | k < n && bits[k]
  }

  lemma {:induction false} OnesCountIsSize(bits: seq<bool>, n: nat)
    requires n <= |bits|
    ensures OnesCount(bits[..n]) == |Ones(bits, n)|
  {
    if n > 0 {
      OnesCountIsSize(bits, n - 1);
      assert bits[..n][..n - 1] == bits[..n - 1];
      assert Ones(bits, n) == Ones(bits, n - 1) + if bits[n - 1] then {n - 1} else {};
    }
  }

  /** The distance is the number of the 64 positions in which the fingerprints differ. */
  lemma DistanceCountsBits(a: Fingerprint, b: Fingerprint)
    ensures HammingDistance(a, b) == |set k: nat | k < 64 && a[k] != b[k]|
  {
    var x := Xor(a, b);
    assert x[..BITS] == x;
    OnesCountIsSize(x, BITS);
    assert Ones(x, BITS) == set k: nat | k < 64 && a[k] != b[k];
  }
}
