/** One board cell as a mutable object holding a piece kind. */
module CheckerCell {
  import opened Enums

  class Checker {
    var kind: CheckerType

    /** A cell holding `t`. */
    constructor (t: CheckerType)
      ensures kind == t
    {
      kind := t;
    }

    /** The kind currently stored. */
    function Type(): (t: CheckerType)
      reads this
      ensures t == kind
    {
      kind
    }

    /**
     * Overwrites the stored kind. The new state depends on `t` alone, so
     * doing it twice with the same `t` leaves the cell as doing it once.
     */
    method ChangeType(t: CheckerType)
      modifies this
      ensures kind == t
      ensures Type() == t
    {
      kind := t;
    }
  }

  /** Two successive `ChangeType(t)` calls end in the state one call gives. */
  method ChangeTypeTwice(c: Checker, t: CheckerType)
    modifies c
    ensures c.Type() == t
  {
    c.ChangeType(t);
    c.ChangeType(t);
  }
}
