/**
 * The serial reference of week7/examPthreads/serial.c:
 * ln(2) = 1 - 1/2 + 1/3 - ..., with term i carrying the sign (-1)^(i+1).
 * The loop runs `for (i = 1; i < n; i++)`, with an `int sign` that starts
 * at 1 and is negated after every term. The term value 1/i is the abstract
 * parameter `term`.
 */
module Ln2Serial {
  import opened Wrappers
  import opened Reduction
  import opened Signs

  /** The signed series term (-1)^(i+1) · term(i). */
  function LnSummand(term: int -> real): int -> real
  {
    i => NegOnePow(i + 1) * term(i)
  }

  /**
   * main's argument check: exactly one user argument (argc == 2), the number
   * of terms, read with strtoll (`toLong`) and not range-checked. None is the
   * `Usage` exit.
   */
  function SerialCommandLine(argv: seq<string>, toLong: string -> int): (r: Option<int>)
    ensures r.Some? <==> |argv| == 2
    ensures r.Some? ==> r.value == toLong(argv[1])
  {
    if |argv| != 2 then None else Some(toLong(argv[1]))
  }

  /** The loop between the "code to be parallelized" markers. */
  method SerialSum(term: int -> real, n: int) returns (sum: real)
    ensures sum == SumRange(LnSummand(term), 1, n)
    ensures n <= 1 ==> sum == 0.0
  {
    var sign: int := 1;
    sum := 0.0;
    var i := 1;
    while i < n
      invariant 1 <= i && (i <= n || i == 1)
      invariant sign as real == NegOnePow(i + 1)
      invariant sum == SumRange(LnSummand(term), 1, i)
    {
      sum := sum + (sign as real) * term(i);
      NegOnePowNext(i + 1);
      sign := -sign;
      i := i + 1;
    }
  }

}
