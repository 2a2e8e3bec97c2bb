/** Choosing from a set, the way Python's iteration over a set yields some element. */
module Sets {

  /** A set that is not empty has an element. */
  lemma NonEmptyHasElement<T>(s: set<T>)
    requires s != {}
    ensures exists x :: x in s
  {
    assert (forall x :: x !in s) ==> s == {};
  }

  /** Some element of a non-empty set; which one is left open. */
  method Pick<T>(s: set<T>) returns (x: T)
    requires s != {}
    ensures x in s
  {
    NonEmptyHasElement(s);
    x :| x in s;
  }
}
