/** Integer helpers shared by the services: Python's `min(a, b)` and `max(0, x)`. */
module Numbers {

  function Min(a: int, b: int): int { if a < b then a else b }

  function Max0(x: int): int { if x > 0 then x else 0 }
}
