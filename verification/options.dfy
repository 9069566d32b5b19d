/** Optional values and error results, used where the C# code produces NaN or throws. */
module Options {

  datatype Option<+T> = None | Some(value: T)

  datatype Result<+T, +E> = Success(value: T) | Failure(error: E)

  /** The exception `List<T>`'s indexer throws for an index outside `[0, Count)`. */
  datatype ListError = ArgumentOutOfRange
}
