/** Failure-carrying datatypes shared by the launcher model. */
module Wrappers {

  /** Kotlin's nullable `T?`. */
  datatype Option<+T> = None | Some(value: T)

  /** What calling a piece of extension code gives: its value, or an exception. */
  datatype Outcome<+T> = Ok(value: T) | Throws

  /** Kotlin's `Result<T>`: a value or the failure it carries. */
  datatype Result<+T, +E> = Success(value: T) | Failure(error: E)

  /** The hook outcome `o` contributes `x`: it returned a non-null `x` without throwing. */
  ghost predicate Yields<T>(o: Outcome<Option<T>>, x: T) {
    o.Ok? && o.value.Some? && o.value.value == x
  }

  /**
   * `mapNotNull { try { hook() } catch (e: Exception) { null } }`: the non-null
   * values of the outcomes that did not throw, in their original order.
   */
  function Values<T>(os: seq<Outcome<Option<T>>>): (r: seq<T>)
    ensures |r| <= |os|
    ensures forall i :: 0 <= i < |os| && os[i].Ok? && os[i].value.Some? ==> os[i].value.value in r
    ensures forall x :: x in r ==> exists i :: 0 <= i < |os| && Yields(os[i], x)
  {
    if os == [] then []
    else
      var rest := Values(os[..|os| - 1]);
      var last := os[|os| - 1];
      assert forall i :: 0 <= i < |os| - 1 ==> os[..|os| - 1][i] == os[i];
      if last.Ok? && last.value.Some? then rest + [last.value.value] else rest
  }

  /** When no outcome yields anything, nothing is collected. */
  lemma {:induction false} ValuesOfSilent<T>(os: seq<Outcome<Option<T>>>)
    requires forall i :: 0 <= i < |os| ==> os[i] == Throws || os[i] == Ok(None)
    ensures Values(os) == []
  {
    if os != [] {
      ValuesOfSilent(os[..|os| - 1]);
    }
  }

  /** Collecting is compositional: the values of a concatenation are the concatenated values. */
  lemma {:induction false} ValuesConcat<T>(a: seq<Outcome<Option<T>>>, b: seq<Outcome<Option<T>>>)
    ensures Values(a + b) == Values(a) + Values(b)
    decreases |b|
  {
    if b == [] {
      assert a + b == a;
    } else {
      assert (a + b)[..|a + b| - 1] == a + b[..|b| - 1];
      ValuesConcat(a, b[..|b| - 1]);
    }
  }

  /** An outcome that throws contributes nothing, and the outcomes around it are still collected. */
  lemma ValuesSkipThrows<T>(a: seq<Outcome<Option<T>>>, b: seq<Outcome<Option<T>>>)
    ensures Values(a + [Throws] + b) == Values(a) + Values(b)
  {
    ValuesConcat(a + [Throws], b);
    ValuesConcat(a, [Throws]);
  }
}
