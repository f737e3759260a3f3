/**
 * Price samples and the "most recent n" slice that the tracker takes of a
 * sample list, both for the stored rolling history (`prices[-50:]`) and for
 * the recent-history block of a notification (`history[-5:]`).
 */
module History {

  /** One entry of a product's price history: the price seen and the UTC
      minute it was seen at, rendered as "YYYY-MM-DD HH:MM". */
  datatype Sample = Sample(price: real, date: string)

  function Min(a: int, b: int): int { if a <= b then a else b }

  /** The Python slice `s[-n:]` for a positive `n`: the last `n` elements of
      `s`, or all of `s` when it is shorter. */
  function LastN<T>(s: seq<T>, n: nat): (r: seq<T>)
    requires n > 0
    ensures |r| == Min(n, |s|)
    ensures r == s[|s| - |r|..]
  {
    if |s| <= n then s else s[|s| - n..]
  }

  /** Taking the last `n` after every append keeps exactly what taking the
      last `n` once, at the end, would keep: capping as the history grows
      loses nothing a single final cap would retain. */
  lemma LastNAppend<T>(s: seq<T>, x: T, n: nat)
    requires n > 0
    ensures LastN(LastN(s, n) + [x], n) == LastN(s + [x], n)
  {
    var a, b := LastN(LastN(s, n) + [x], n), LastN(s + [x], n);
    assert |a| == |b|;
    forall i | 0 <= i < |a| ensures a[i] == b[i] {
      if i == |a| - 1 {
      } else {
        assert a[i] == LastN(s, n)[|LastN(s, n)| + 1 - |a| + i];
      }
    }
  }
}
