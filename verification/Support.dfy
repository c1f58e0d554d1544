/** Small datatypes and sequence facts shared by the component models. */
module Support {

  datatype Option<+T> = None | Some(value: T)

  /** A string that is neither missing nor empty. */
  function Truthy(o: Option<string>): bool {
    o.Some? && o.value != ""
  }

  function Get<K, V>(m: map<K, V>, k: K): Option<V> {
    if k in m then Some(m[k]) else None
  }

  /** `a ?? b`. */
  function Or<T>(a: Option<T>, b: Option<T>): Option<T> {
    if a.Some? then a else b
  }

  function Min(a: nat, b: nat): nat {
    if a < b then a else b
  }

  /** 2^n, the step between neighbouring CIDR blocks and the growth factor of the reconnect backoff. */
  function Pow2(n: nat): (p: nat)
    ensures p > 0
  {
    if n == 0 then 1 else 2 * Pow2(n - 1)
  }

  lemma {:induction false} Pow2Grows(m: nat, n: nat)
    requires m <= n
    ensures Pow2(m) <= Pow2(n)
    decreases n
  {
    if m < n {
      Pow2Grows(m, n - 1);
    }
  }
}
