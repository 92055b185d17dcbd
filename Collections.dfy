/**
 * `ICollectionExtensions`: the null/empty tests on a collection. A collection reference is
 * an `Option` of the sequence of its elements (`None` is `null`).
 */
module Collections {
  import opened Wrappers

  /** `collection.IsNullOrEmpty()` */
  predicate IsNullOrEmpty<T>(collection: Option<seq<T>>) {
    collection.None? || |collection.value| == 0
  }

  /** `collection.IsNotNullOrEmpty()` */
  predicate IsNotNullOrEmpty<T>(collection: Option<seq<T>>) {
    collection.Some? && |collection.value| > 0
  }

  /** The two tests are exact complements, and each is decided by null-ness and length alone. */
  lemma NullOrEmptyComplement<T>(collection: Option<seq<T>>)
    ensures IsNullOrEmpty(collection) <==> !IsNotNullOrEmpty(collection)
    ensures IsNotNullOrEmpty(collection) <==> exists x :: collection.Some? && x in collection.value
  {
    if IsNotNullOrEmpty(collection) {
      assert collection.value[0] in collection.value;
    }
  }
}
