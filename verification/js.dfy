/**
 * JavaScript value conventions shared by the storefront and admin models.
 *
 * Optional record fields (`field?: T` in TypeScript, or a field the REST
 * backend may omit) are `Option<T>`. JavaScript's `a || b` picks `a` only
 * when `a` is truthy: for numbers that excludes `0` (and `undefined`), for
 * strings it excludes `""`. `NaN` is not modelled: every number is an `int`.
 */
module Js {

  datatype Option<+T> = None | Some(value: T)

  /** `x` is truthy as a JavaScript number: present and non-zero. */
  predicate NumTruthy(x: Option<int>) {
    x.Some? && x.value != 0
  }

  /** `x || fallback` for an optional number. */
  function NumOr(x: Option<int>, fallback: int): int {
    if NumTruthy(x) then x.value else fallback
  }

  /** `x` is truthy as a JavaScript string: present and non-empty. */
  predicate StrTruthy(x: Option<string>) {
    x.Some? && x.value != ""
  }

  /** `x || fallback` for an optional string. */
  function StrOr(x: Option<string>, fallback: string): string {
    if StrTruthy(x) then x.value else fallback
  }
}
