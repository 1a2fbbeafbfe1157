/** Vocabulary shared by the models. */
module Readings {

  datatype Option<+T> = None | Some(value: T)

  /** `Undefined` marks a C++ operation with undefined behaviour, such as
      erasing `end()`, calling `front()` on an empty list, or writing past an array. */
  datatype Outcome<+T> = Defined(value: T) | Undefined

  /** Several statements of the program differ from what they are evidently for
      (`=` for `==`, for instance).  Such a statement is modelled under both readings. */
  datatype Reading = AsWritten | AsMeant

  lemma Associate<T>(a: seq<T>, b: seq<T>, c: seq<T>)
    ensures a + b + c == a + (b + c)
  {
  }

  // The numbers below `n`.
  function Below(n: nat): (s: set<nat>)
    ensures |s| == n && forall i: nat :: i in s <==> i < n
  {
    if n == 0 then {} else Below(n - 1) + {n - 1}
  }
}
