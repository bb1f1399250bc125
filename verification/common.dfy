/** Small shared vocabulary: an Option type and PHP's truthiness of strings. */
module Common {

  datatype Option<+T> = None | Some(value: T)

  /** PHP converts a string to `false` exactly when it is "" or "0". */
  predicate Truthy(s: string) {
    s != "" && s != "0"
  }

  function Min(a: int, b: int): int { if a <= b then a else b }

  function Max(a: int, b: int): int { if a >= b then a else b }
}
