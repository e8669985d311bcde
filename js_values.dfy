/** JavaScript values as the cart store and the curator form receive them from
    their callers, and the two coercions both files apply to them: `x || d`
    (falsy becomes a default) and `parseFloat(x) || 0`. */
module JsValues {

  datatype Option<+T> = None | Some(value: T)

  /** A numeric field of a caller-supplied record: absent (`undefined` or
      `null`), not a number, or an integer. For the ticket counts, which go
      through `parseFloat`, `NotANumber` is any value that parses to `NaN`.
      For the requested quantity and the price, which are only read with
      `x || d`, it is the value `NaN` itself (falsy); a non-numeric string
      there is not modelled. Fractional values are not modelled. */
  datatype NumInput = Missing | NotANumber | Number(value: int)

  /** JavaScript truthiness of a numeric field: `undefined`, `null`, `NaN`
      and `0` are falsy. */
  predicate Truthy(x: NumInput) {
    x.Number? && x.value != 0
  }

  /** `x || d` on a numeric field. */
  function OrDefault(x: NumInput, d: int): int {
    if Truthy(x) then x.value else d
  }

  /** `parseFloat(x) || 0`: a missing or non-numeric field becomes 0. */
  function OrZero(x: NumInput): int {
    OrDefault(x, 0)
  }

  /** JavaScript truthiness of an optional string: absent and `""` are falsy. */
  predicate TruthyText(s: Option<string>) {
    s.Some? && s.value != ""
  }

  function Max(a: int, b: int): int { if a < b then b else a }

  function Min(a: int, b: int): int { if a < b then a else b }

  /** Cutting position `k > 0` out of `s` is keeping the head and cutting
      position `k - 1` out of the tail; both files' filters recurse this way. */
  lemma {:induction false} CutOutOfTail<T>(s: seq<T>, k: int)
    requires 0 < k < |s|
    ensures [s[0]] + (s[1..][..k - 1] + s[1..][k..]) == s[..k] + s[k + 1..]
  {
    assert s[1..][..k - 1] == s[1..k];
    assert s[1..][k..] == s[k + 1..];
    assert [s[0]] + s[1..k] == s[..k];
  }
}
