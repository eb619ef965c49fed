/** Results of operations that the service reports by returning None or by raising. */
module Wrappers {
  datatype Option<+T> = None | Some(value: T)

  /** The service's exception classes, and the database's refusal of a second row with a unique key. */
  datatype Error =
    | NotFound
    | Invalid
    | RuleViolation
    | AlreadyClosed
    | ClassFull
    | SlotTaken
    | DuplicateKey

  datatype Result<+T> = Ok(value: T) | Err(error: Error)
}

/** Facts about slices that loops over sequences need. */
module Sequences {
  lemma PrefixSnoc<T>(s: seq<T>, n: nat)
    requires n < |s|
    ensures s[..n + 1] == s[..n] + [s[n]]
  {
  }

  lemma PrefixAll<T>(s: seq<T>)
    ensures s[..|s|] == s
  {
  }

  lemma ConcatAssociative<T>(a: seq<T>, b: seq<T>, c: seq<T>)
    ensures a + (b + c) == (a + b) + c
    ensures a + [] == a
  {
  }
}

module Arithmetic {
  function Max(a: int, b: int): int { if a >= b then a else b }

  function Min(a: int, b: int): int { if a <= b then a else b }
}
