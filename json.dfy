/**
  `JSON.stringify` / `JSON.parse` for one value type, taken as a pair of
  functions. The properties the app relies on are stated as predicates that
  the lemmas assume; nothing here fixes the concrete text format.
*/
module Json {
  import opened Wrappers

  /** A serialiser and its parser; `parse` fails with the parser's message. */
  datatype Codec<!T> = Codec(stringify: T -> string, parse: string -> Result<T, string>)

  /** Parsing what was serialised gives back the same value. */
  ghost predicate RoundTrips<T(!new)>(c: Codec<T>) {
    forall x :: c.parse(c.stringify(x)) == Success(x)
  }

  /** Serialised text is never the empty string (JSON for an object or array never is). */
  ghost predicate NeverEmpty<T(!new)>(c: Codec<T>) {
    forall x :: c.stringify(x) != ""
  }
}
