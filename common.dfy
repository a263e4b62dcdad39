/** Identifiers, the error taxonomy of the backend and small sequence facts
    shared by every other module. */
module Common {

  /** User and workspace ids are compared as strings (`String(id)`) by the
      backend, and a mention id is the raw text found in a message, so both
      are modelled as strings. */
  type UserId = string
  type WorkspaceId = string

  datatype Option<T> = None | Some(value: T)

  /** The exceptions the backend throws: `UnauthorizedException`,
      `NotFoundException`, and the validation error a document store raises
      when a record breaks its schema. */
  datatype Error =
    | Unauthorized(reason: string)
    | NotFound(reason: string)
    | ValidationFailed(reason: string)

  datatype Result<T> = Ok(value: T) | Err(error: Error)

  predicate NoDuplicates<T(==)>(xs: seq<T>) {
    forall i, j :: 0 <= i < j < |xs| ==> xs[i] != xs[j]
  }

  /** Position of the first occurrence of `x` in `xs`. */
  function FirstIndex<T(==)>(xs: seq<T>, x: T): (k: nat)
    requires x in xs
    ensures k < |xs| && xs[k] == x
    ensures forall j :: 0 <= j < k ==> xs[j] != x
  {
    if xs[0] == x then 0 else 1 + FirstIndex(xs[1..], x)
  }

  /** In a sequence without duplicates every element occurs exactly once. */
  lemma {:induction false} NoDuplicatesCount<T>(xs: seq<T>, x: T)
    requires NoDuplicates(xs)
    ensures multiset(xs)[x] == if x in xs then 1 else 0
  {
    if xs != [] {
      assert xs == [xs[0]] + xs[1..];
      assert NoDuplicates(xs[1..]) by {
        forall i, j | 0 <= i < j < |xs[1..]| ensures xs[1..][i] != xs[1..][j] {
          assert xs[1..][i] == xs[i + 1] && xs[1..][j] == xs[j + 1];
        }
      }
      NoDuplicatesCount(xs[1..], x);
      assert xs[0] !in xs[1..] by {
        forall j | 0 <= j < |xs[1..]| ensures xs[1..][j] != xs[0] {
          assert xs[1..][j] == xs[j + 1];
        }
      }
      calc {
        multiset(xs)[x];
        multiset([xs[0]])[x] + multiset(xs[1..])[x];
      }
    }
  }
}
