/** Facts about Dafny's collections that the loops over a map's keys rely on. */
module Collections {

  /** A set is empty or has an element. */
  lemma EmptyOrInhabited<T>(s: set<T>)
    ensures s == {} || exists x :: x in s
  {
    if forall x :: x !in s {
      assert s == {};
    }
  }

  /** An element of a non-empty set: the witness a loop needs to pick the next key of a map. */
  lemma Inhabitant<T>(s: set<T>) returns (x: T)
    requires s != {}
    ensures x in s
  {
    EmptyOrInhabited(s);
    x :| x in s;
  }
}
