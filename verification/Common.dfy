/** Small vocabulary shared by the other modules. */
module Common {
  datatype Option<+T> = None | Some(value: T)

  /** Nanoseconds. */
  const Second: int := 1_000_000_000

  /** Where a database error strikes: not at all, before a statement ran, or after it, losing the answer. */
  datatype Fault = NoFault | NotRun | AnswerLost

  function Max(a: int, b: int): (r: int)
    ensures r >= a && r >= b && (r == a || r == b)
  {
    if a >= b then a else b
  }

  /** Concatenation of a sequence of sequences, in order. */
  function Concat<T>(parts: seq<seq<T>>): seq<T> {
    if parts == [] then [] else Concat(parts[..|parts| - 1]) + parts[|parts| - 1]
  }

  /** a can be read off b by skipping elements: idx gives the positions used. */
  ghost predicate SubsequenceAt<T>(a: seq<T>, b: seq<T>, idx: seq<nat>) {
    && |idx| == |a|
    && (forall i :: 0 <= i < |idx| ==> idx[i] < |b| && b[idx[i]] == a[i])
    && (forall i, j :: 0 <= i < j < |idx| ==> idx[i] < idx[j])
  }

  ghost predicate IsSubsequence<T>(a: seq<T>, b: seq<T>) {
    exists idx :: SubsequenceAt(a, b, idx)
  }

  lemma {:induction false} SubsequenceSkip<T>(a: seq<T>, b: seq<T>, idx: seq<nat>, x: T)
    requires SubsequenceAt(a, b, idx)
    ensures SubsequenceAt(a, b + [x], idx) && SubsequenceAt(a + [x], b + [x], idx + [|b|])
  {
  }
}
