module Numbers {
  function Min(a: nat, b: nat): nat { if a <= b then a else b }

  function Max(a: nat, b: nat): nat { if a >= b then a else b }

  /** Subtraction of counters: `fetch_sub` of a `usize`, or `checked_sub` in a `fetch_update`,
      which does nothing below zero. Where a counter uses it, a lemma shows that it is never
      cut off. */
  function Minus(a: nat, b: nat): nat { if a >= b then a - b else 0 }
}
