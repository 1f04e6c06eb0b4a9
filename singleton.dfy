/** `solid::singleton`: a static storage that can be mutably taken once. */
module Singleton {
  import opened Wrappers

  /** `AlreadyBorrowedError`. */
  datatype AlreadyBorrowedError = AlreadyBorrowedError
  {
    /** Its `Display` text. */
    function Display(): (s: string)
      ensures s == "already borrowed"
    {
      "already borrowed"
    }
  }

  /**
   * `LazyPinTakeCell<T>`: a take-once cell around uninitialised storage.
   * `inits` counts evaluations of the initialiser and `oks` successful
   * takes; `Valid` keeps `oks <= 1`, so over any sequence of calls at most
   * one `take` succeeds.
   */
  class LazyPinTakeCell<T> {
    var taken: bool
    var storage: Option<T>
    ghost var inits: nat
    ghost var oks: nat

    ghost predicate Valid() reads this {
      && oks == inits
      && oks <= 1
      && (taken <==> oks == 1)
      && (storage.Some? <==> taken)
    }

    /** `LazyPinTakeCell::new`: untaken, storage uninitialised. */
    constructor ()
      ensures Valid() && !taken && storage == None && inits == 0 && oks == 0
    {
      taken, storage, inits, oks := false, None, 0, 0;
    }

    /**
     * `LazyPinTakeCell::take`: the first call evaluates `init` into the
     * storage and returns it; every later call fails without evaluating it.
     */
    method Take(init: () -> T) returns (r: Result<T, AlreadyBorrowedError>)
      requires Valid()
      modifies this
      ensures Valid()
      ensures !old(taken) ==> r == Ok(init()) && storage == Some(init()) && inits == old(inits) + 1
      ensures old(taken) ==> r == Err(AlreadyBorrowedError) && storage == old(storage) && inits == old(inits)
      ensures taken
      ensures oks == old(oks) + (if r.Ok? then 1 else 0) <= 1
    {
      if taken {
        return Err(AlreadyBorrowedError);
      }
      taken := true;
      var v := init();
      inits := inits + 1;
      storage := Some(v);
      oks := oks + 1;
      r := Ok(v);
    }
  }
}
