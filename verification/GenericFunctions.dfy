/** The descending prime search that every nonce interpretation uses. */
module GenericFunctions {
  import opened Bytes
  import opened Results
  import opened NumberTheory

  /** `closest_prime`; `previous` is what `*out` held before the call. */
  method FindClosestPrime(n: uint32, previous: uint32) returns (rc: RaResult, out: uint32)
    ensures 2 <= n ==> rc == Success && IsClosestPrime(out, n)
    ensures n < 2 ==> rc == ErrorGeneric && out == previous
  {
    if n < 2 {
      return ErrorGeneric, previous;
    }
    var big := n;
    while true
      invariant 2 <= big <= n
      invariant forall q :: big < q <= n ==> !IsPrime(q)
      decreases big
    {
      if IsPrime(big) {
        return Success, big;
      }
      big := big - 1;
    }
  }
}
