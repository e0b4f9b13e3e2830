/**
 * The alternating signs of the two series. Both programs keep the sign in a
 * variable (`factor`, `my_sign`, `sign`) that starts from a parity test and
 * is negated after every term; the model compares it with (-1)^k.
 */
module Signs {

  /** (-1)^k for every integer k, defined by repeated negation. */
  function NegOnePow(k: int): real
    decreases if k < 0 then -k else k
  {
    if k == 0 then 1.0 else if k > 0 then -NegOnePow(k - 1) else -NegOnePow(k + 1)
  }

  /** (-1)^k is +1 exactly for even k and -1 exactly for odd k. */
  lemma {:induction false} NegOnePowParity(k: int)
    ensures NegOnePow(k) == if k % 2 == 0 then 1.0 else -1.0
    decreases if k < 0 then -k else k
  {
    if k > 0 {
      NegOnePowParity(k - 1);
    } else if k < 0 {
      NegOnePowParity(k + 1);
    }
  }

  /** Negating the sign moves it on by one index. */
  lemma NegOnePowNext(k: int)
    ensures NegOnePow(k + 1) == -NegOnePow(k)
  {
    NegOnePowParity(k);
    NegOnePowParity(k + 1);
  }
}
