/** The search order of the two biphase decoders. */
module Search {
  // After a header whose frame fails, they resume one entry past the end of the header, so a header that
  // begins exactly there is never tried.

  /** From p, trying every header found on the way and failing, the search comes to position k.
      h tells where headers are, and len is the length of a header. */
  ghost predicate Reaches(h: nat -> bool, len: nat, p: nat, k: nat)
    decreases k - p
  {
    if p >= k then p == k
    else if h(p) then Reaches(h, len, p + len + 1, k)
    else Reaches(h, len, p + 1, k)
  }

  ghost predicate Spaced(h: nat -> bool, len: nat) {
    forall a: nat, b: nat :: h(a) && h(b) && a < b ==> a + len <= b
  }

  /** Exactly one thing hides a header from the search: a header directly before it that was tried. */
  lemma {:induction false} HiddenBehindHeader(h: nat -> bool, len: nat, p: nat, k: nat)
    requires Spaced(h, len) && len > 0 && h(k) && p <= k
    ensures Reaches(h, len, p, k) <==> !(p + len <= k && h(k - len) && Reaches(h, len, p, k - len))
    decreases k - p
  {
    if p < k {
      assert p + len <= k && h(k - len) && p < k - len && h(p) ==> p + len <= k - len;
      if !h(p) {
        HiddenBehindHeader(h, len, p + 1, k);
      } else if p + len + 1 <= k {
        HiddenBehindHeader(h, len, p + len + 1, k);
      } else {
        assert p + len == k;
        assert Reaches(h, len, p, k - len);
      }
    }
  }

  lemma {:induction false} ReachesIsForward(h: nat -> bool, len: nat, p: nat, k: nat)
    requires Reaches(h, len, p, k)
    ensures p <= k
    decreases k - p
  {
  }

  /** How many headers stand directly before position k, each ending where the next begins. */
  ghost function Chain(h: nat -> bool, len: nat, k: nat): (n: nat)
    requires len > 0
  {
    if len <= k && h(k - len) then 1 + Chain(h, len, k - len) else 0
  }

  /** Of such a row of headers every second one is tried, so a header is missed if and only if an odd number
      of them stand directly before it. */
  lemma {:induction false} ReachesIffEven(h: nat -> bool, len: nat, k: nat)
    requires Spaced(h, len) && len > 0 && h(k)
    ensures Reaches(h, len, 0, k) <==> Chain(h, len, k) % 2 == 0
  {
    HiddenBehindHeader(h, len, 0, k);
    if len <= k && h(k - len) { ReachesIffEven(h, len, k - len); }
  }
}
