/** What several modules share. */
module Options {
  datatype Option<T> = None | Some(value: T)
}

/** Multiplying inequalities. */
module RealArithmetic {
  lemma Scale(a: real, b: real, s: real)
    requires a <= b && s >= 0.0
    ensures a * s <= b * s
  {
    assert (b - a) * s >= 0.0;
  }

  lemma ScaleStrictly(a: real, b: real, s: real)
    requires a < b && s > 0.0
    ensures a * s < b * s
  {
    assert (b - a) * s > 0.0;
  }

  lemma Distribute(p: real, v: real, s: real)
    ensures p * (v + s) == p * v + p * s
  {}
}
