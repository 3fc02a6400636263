/** Network byte order (Appendix B of RFC 791): the most significant byte first. */
module BigEndian {
  import opened Bytes

  /** The low `k` bytes of `n`. */
  function Digits(n: nat, k: nat): (s: seq<byte>)
    ensures |s| == k
  {
    if k == 0 then [] else Digits(n / 256, k - 1) + [n % 256]
  }

  function Number(s: seq<byte>): nat {
    if s == [] then 0 else Number(s[..|s| - 1]) * 256 + s[|s| - 1]
  }

  function Pow256(k: nat): (p: nat)
    ensures p > 0
  {
    if k == 0 then 1 else 256 * Pow256(k - 1)
  }

  lemma {:induction false} NumberBound(s: seq<byte>)
    ensures Number(s) < Pow256(|s|)
  {
    if s != [] {
      NumberBound(s[..|s| - 1]);
    }
  }

  /** Writing and reading k bytes keeps a number modulo 256^k. */
  lemma {:induction false} NumberOfDigits(n: nat, k: nat)
    ensures exists high: nat :: n == high * Pow256(k) + Number(Digits(n, k))
  {
    if k == 0 {
      assert n == n * Pow256(0) + Number(Digits(n, 0));
    } else {
      NumberOfDigits(n / 256, k - 1);
      var high: nat :| n / 256 == high * Pow256(k - 1) + Number(Digits(n / 256, k - 1));
      assert Digits(n, k)[..k - 1] == Digits(n / 256, k - 1);
      assert high * Pow256(k) == high * Pow256(k - 1) * 256;
      assert n == high * Pow256(k) + Number(Digits(n, k));
    }
  }

  /** Reading and writing as many bytes gives them back. */
  lemma {:induction false} DigitsOfNumber(s: seq<byte>)
    ensures Digits(Number(s), |s|) == s
  {
    if s != [] {
      var init := s[..|s| - 1];
      DigitsOfNumber(init);
      assert Number(s) / 256 == Number(init) && Number(s) % 256 == s[|s| - 1];
      assert s == init + [s[|s| - 1]];
    }
  }

  lemma NumberOfFour(s: seq<byte>)
    requires |s| == 4
    ensures Number(s) == ((s[0] as int * 256 + s[1]) * 256 + s[2]) * 256 + s[3]
  {
    assert s[..3][..2] == s[..2] && s[..2][..1] == s[..1] && s[..1][..0] == [];
    assert Number(s[..1]) == s[0];
    assert Number(s[..2]) == s[0] as int * 256 + s[1];
  }
}
