/**
 * The cryptography-based prefix-preserving map of Crypto-PAn on bit strings, for an arbitrary one-bit function of
 * the prefix. The code of panonymizer.c is shown to compute it on 32 and on 128 bits.
 */
module PrefixPreserving {
  type BitString = seq<bool>
  type PrefixBit = BitString -> bool

  // Bit i is changed if the function of the i bits before it says so.
  function Anonymized(f: PrefixBit, a: BitString): (b: BitString)
    ensures |b| == |a|
  {
    seq(|a|, i requires 0 <= i < |a| => a[i] != f(a[..i]))
  }

  // The inverse finds the bits one by one, each from the ones found before.
  function Deanonymized(f: PrefixBit, b: BitString): (a: BitString)
    ensures |a| == |b|
  {
    if b == [] then []
    else
      var a := Deanonymized(f, b[..|b| - 1]);
      a + [b[|b| - 1] != f(a)]
  }

  /** What happens to a prefix does not depend on the bits behind it. */
  lemma AnonymizedPrefix(f: PrefixBit, a: BitString, n: nat)
    requires n <= |a|
    ensures Anonymized(f, a)[..n] == Anonymized(f, a[..n])
  {
    forall i | 0 <= i < n
      ensures Anonymized(f, a)[..n][i] == Anonymized(f, a[..n])[i]
    {
      assert a[..n][..i] == a[..i];
    }
  }

  lemma {:induction false} DeanonymizedPrefix(f: PrefixBit, b: BitString, n: nat)
    requires n <= |b|
    ensures Deanonymized(f, b)[..n] == Deanonymized(f, b[..n])
  {
    if n < |b| {
      DeanonymizedPrefix(f, b[..|b| - 1], n);
      assert b[..|b| - 1][..n] == b[..n];
    } else {
      assert b[..n] == b;
    }
  }

  // the step of the inverse, from the front
  lemma DeanonymizedAt(f: PrefixBit, b: BitString, n: nat)
    requires n < |b|
    ensures Deanonymized(f, b)[n] == (b[n] != f(Deanonymized(f, b)[..n]))
  {
    DeanonymizedPrefix(f, b, n + 1);
    DeanonymizedPrefix(f, b, n);
    assert b[..n + 1][..n] == b[..n];
    assert Deanonymized(f, b)[n] == Deanonymized(f, b)[..n + 1][n];
  }

  /** The two maps are inverse to each other, so each is a bijection on the strings of any one length. */
  lemma {:induction false} DeanonymizeAnonymized(f: PrefixBit, a: BitString)
    ensures Deanonymized(f, Anonymized(f, a)) == a
  {
    if a != [] {
      var n := |a| - 1;
      AnonymizedPrefix(f, a, n);
      DeanonymizeAnonymized(f, a[..n]);
      assert a == a[..n] + [a[n]];
    }
  }

  lemma AnonymizeDeanonymized(f: PrefixBit, b: BitString)
    ensures Anonymized(f, Deanonymized(f, b)) == b
  {
    forall i | 0 <= i < |b|
      ensures Anonymized(f, Deanonymized(f, b))[i] == b[i]
    {
      DeanonymizedAt(f, b, i);
    }
  }

  /** Two strings agree on their first n bits exactly when their images do. */
  lemma PreservesPrefixes(f: PrefixBit, a: BitString, b: BitString, n: nat)
    requires n <= |a| && n <= |b|
    ensures a[..n] == b[..n] <==> Anonymized(f, a)[..n] == Anonymized(f, b)[..n]
  {
    AnonymizedPrefix(f, a, n);
    AnonymizedPrefix(f, b, n);
    DeanonymizeAnonymized(f, a[..n]);
    DeanonymizeAnonymized(f, b[..n]);
  }

  // the exact length of the longest common prefix
  ghost predicate IsCommonPrefixLength(a: BitString, b: BitString, n: nat) {
    && n <= |a| && n <= |b|
    && a[..n] == b[..n]
    && (n < |a| && n < |b| ==> a[n] != b[n])
  }

  /** Anonymization keeps the exact length of the longest common prefix. */
  lemma PreservesCommonPrefixLength(f: PrefixBit, a: BitString, b: BitString, n: nat)
    ensures IsCommonPrefixLength(a, b, n) <==> IsCommonPrefixLength(Anonymized(f, a), Anonymized(f, b), n)
  {
    if n <= |a| && n <= |b| {
      PreservesPrefixes(f, a, b, n);
      if n < |a| && n < |b| {
        assert a[..n] == b[..n] ==> (Anonymized(f, a)[n] == Anonymized(f, b)[n] <==> a[n] == b[n]);
      }
    }
  }
}
