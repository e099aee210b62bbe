/** Optional values, the errors the sharing engine can raise, and a
    failure-compatible result type. */
module Wrappers {

  datatype Option<+T> = None | Some(value: T)

  /** Every way the modelled code can fail.  Each constructor names the
      Python failure it stands for. */
  datatype Error =
    | NotScalar          // `assert not self.is_vector`
    | NotVector          // `assert self.is_vector and other.is_vector`
    | OrderMismatch      // `assert self.order == other.order`
    | NotPowerOfTwo      // `assert k.is_integer()` after `math.log2(order)`
    | MathDomain         // `math.log2` of an order that is not positive
    | NoAbsentSlot       // the Party ID loop finds no absent slot, so `j` is never bound
    | TypeMismatch       // indexing the `None` that a vector keeps in `shares` (or a scalar in `vector_shares`)
    | NonFinite          // arithmetic with the infinity marker: the value is a float NaN or infinity
    | IndexOutOfRange    // list or array index past the end
    | EmptyShares        // `shares[0]` on an empty list in the MPC_Shares constructor
    | LengthMismatch     // vectors of different lengths
    | EmptyRange         // `random.randint(1, secret)` with `secret < 1`
    | InvalidMatchIndex  // `raise ValueError("ERROR - Invalid match index")`
    | DotProductMismatch // `raise ValueError("ERROR - MPC dot product is not equal ...")`

  datatype Result<+T> = Ok(value: T) | Err(error: Error) {
    predicate IsFailure() { Err? }

    function PropagateFailure<U>(): Result<U>
      requires Err?
    {
      Err(error)
    }

    function Extract(): T
      requires Ok?
    {
      value
    }
  }
}
