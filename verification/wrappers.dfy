/** Option and Result values standing in for the Java code's `null` returns and thrown exceptions, and one
    fact about finite sets that several modules use. */
module Wrappers {

  /** `None` plays the role of a Java `null` reference. */
  datatype Option<+T> = None | Some(value: T)

  /** The exceptions the modelled code can throw. */
  datatype Error =
    | NullArgument       // org.springframework Assert.notNull failed
    | IllegalState       // Assert.state failed, or an IllegalStateException was thrown
    | IndexOutOfBounds   // an array or list was indexed out of range
    | NullDereference    // a method was invoked on a null reference

  datatype Result<+T> = Success(value: T) | Failure(error: Error)

  /** A subset is no larger than the set containing it. */
  lemma SubsetSize<T>(a: set<T>, b: set<T>)
    requires a <= b
    ensures |a| <= |b|
  {
    assert b == a + (b - a);
  }
}
