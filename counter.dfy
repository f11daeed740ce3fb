// The innovation counter: a monotone source of fresh integer identifiers.
module Innovation {

  class Counter {
    var current: int

    /** `Counter::new` starts at 0. */
    constructor ()
      ensures current == 0
    {
      current := 0;
    }

    /** `get_innovation` increments the state and returns the new value. */
    method GetInnovation() returns (v: int)
      modifies this
      ensures v == old(current) + 1
      ensures current == v
    {
      current := current + 1;
      v := current;
    }
  }

  /** A fresh counter hands out 1, 2, 3, ... in that order. */
  method FirstInnovations() returns (a: int, b: int, c: int)
    ensures a == 1 && b == 2 && c == 3
  {
    var counter := new Counter();
    a := counter.GetInnovation();
    b := counter.GetInnovation();
    c := counter.GetInnovation();
  }
}
