/** Java references that may be null, and the one failure the zipper raises on them. */
module Nullable {

  /** A Java reference: `None` is `null`. */
  datatype Option<+T> = None | Some(value: T)

  /** The only exception the zipper raises on its own inputs. */
  datatype Error = NullPointer

  /** The outcome of a `void` Java method: it returns normally or throws. */
  datatype Outcome = Pass | Fail(error: Error)

  /** The outcome of a value-returning Java method. */
  datatype Result<+R> = Ok(value: R) | Err(error: Error)

  /** No element of `refs` is null. */
  predicate NoNulls<T>(refs: seq<Option<T>>)
  {
    forall i :: 0 <= i < |refs| ==> refs[i].Some?
  }

  /** The referenced values of a list that holds no null. */
  function Values<T>(refs: seq<Option<T>>): (vs: seq<T>)
    requires NoNulls(refs)
    ensures |vs| == |refs|
    ensures forall i :: 0 <= i < |refs| ==> refs[i] == Some(vs[i])
  {
    seq(|refs|, i requires 0 <= i < |refs| => refs[i].value)
  }

  lemma ValuesPrefix<T>(refs: seq<Option<T>>, n: nat)
    requires NoNulls(refs) && n < |refs|
    ensures NoNulls(refs[..n + 1]) && NoNulls(refs[..n])
    ensures Values(refs[..n + 1]) == Values(refs[..n]) + [refs[n].value]
  {
  }
}
