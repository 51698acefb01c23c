/** A result that may be missing. */
module Options {
  datatype Option<T> = None | Some(value: T)
}

/** Concatenation of sequences. */
module Sequences {
  lemma Regroup<T>(a: seq<T>, b: seq<T>, c: seq<T>)
    ensures a + b + c == a + (b + c)
  {
  }

  lemma DropConcat<T>(a: seq<T>, b: seq<T>, k: nat)
    requires |a| <= k <= |a| + |b|
    ensures (a + b)[k..] == b[k - |a|..]
    ensures k < |a| + |b| ==> (a + b)[k] == b[k - |a|]
  {
  }
}

/** Facts about quotients of reals. */
module Fractions {
  lemma DivideMonotone(a: real, b: real, n: real)
    requires a <= b && n > 0.0
    ensures a / n <= b / n
  {
  }

  lemma UnitFraction(a: real, d: real)
    requires 0.0 <= a <= d && d > 0.0
    ensures 0.0 <= a / d <= 1.0
    ensures a > 0.0 ==> a / d > 0.0
  {
  }

  lemma FullFraction(d: real)
    requires d > 0.0
    ensures d / d == 1.0
  {
  }

  lemma Quotient(n: real, d: real)
    requires d > 0.0
    ensures n / d * d == n
  {
  }
}
