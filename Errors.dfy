/** The failures the embedding core can raise, and the result type that carries them. */
module Errors {

  /** One constructor per exception the core lets escape to its caller. */
  datatype Error =
    | EmptyText                      // ValueError: the text to embed strips to nothing
    | ProviderFailure(reason: string) // whatever the embedding provider raised, re-raised unchanged
    | MissingEmbedding               // IndexError: the provider answered a single text with no vector
    | DimensionMismatch              // ValueError from the dot product of vectors of different lengths
    | TextIndexOutOfRange            // IndexError: a passing candidate has no text at its index

  datatype Result<+T> = Success(value: T) | Failure(error: Error)
}
