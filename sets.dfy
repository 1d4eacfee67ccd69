/** Facts about finite sets that the loops over them need. */
module Sets {
  /** A non-empty set has an element, so `var x :| x in s` is well defined. */
  lemma NonEmptyHas<T>(s: set<T>)
    requires s != {}
    ensures exists x :: x in s
  {
    if forall x :: x !in s {
      assert false;
    }
  }
}
