/** Big-endian numbers, the integers of TLS and DTLS headers. */
module BigEndian {
  import opened Bytes

  /** The number the bytes stand for. */
  function Value(s: seq<byte>): (v: nat)
    ensures v < Pow256(|s|)
  {
    if s == [] then 0 else 256 * Value(s[..|s| - 1]) + s[|s| - 1]
  }

  /** The low `n` bytes of `v`. */
  function Encode(v: nat, n: nat): (s: seq<byte>)
    ensures |s| == n
  {
    if n == 0 then [] else Encode(v / 256, n - 1) + [v % 256]
  }

  lemma {:induction false} ValueOfEncode(v: nat, n: nat)
    requires v < Pow256(n)
    ensures Value(Encode(v, n)) == v
  {
    if n > 0 {
      ValueOfEncode(v / 256, n - 1);
      assert Encode(v, n)[..n - 1] == Encode(v / 256, n - 1);
    }
  }

  lemma {:induction false} EncodeOfValue(s: seq<byte>)
    ensures Encode(Value(s), |s|) == s
    decreases |s|
  {
    if s != [] {
      var n := |s| - 1;
      EncodeOfValue(s[..n]);
      assert Value(s) / 256 == Value(s[..n]) && Value(s) % 256 == s[n];
      assert s == s[..n] + [s[n]];
    }
  }

  lemma {:induction false} ValueConcat(a: seq<byte>, b: seq<byte>)
    ensures Value(a + b) == Shifted(Value(a), |b|) + Value(b)
    decreases |b|
  {
    if b == [] {
      assert a + b == a;
    } else {
      assert (a + b)[..|a + b| - 1] == a + b[..|b| - 1];
      ValueConcat(a, b[..|b| - 1]);
    }
  }

  /** `v << (8 * n)`. */
  function Shifted(v: nat, n: nat): nat {
    if n == 0 then v else 256 * Shifted(v, n - 1)
  }
}
