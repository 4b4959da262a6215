/** Results that may be missing, and operations that may fail. */
module Wrappers {
  datatype Option<T> = None | Some(value: T) {
    function GetOr(default: T): T {
      if Some? then value else default
    }
  }

  datatype Result<T, E> = Ok(value: T) | Err(error: E)
}

/** Instants in nanoseconds, and the whole seconds most tables store. */
module Clock {
  const NANO: int := 1_000_000_000

  function Seconds(t: int): int {
    t / NANO
  }
}

module Numbers {
  function Min(a: int, b: int): int {
    if a < b then a else b
  }
}

module Sets {
  lemma {:induction false} SubsetSize<T>(a: set<T>, b: set<T>)
    requires a <= b
    ensures |a| <= |b|
  {
    if x :| x in a {
      SubsetSize(a - {x}, b - {x});
    }
  }
}
