// Small shared definitions.
module Basics {
  datatype Option<+T> = None | Some(value: T)

  function MaxInt(a: int, b: int): int { if a < b then b else a }

  function MinInt(a: int, b: int): int { if b < a then b else a }

  function MaxReal(a: real, b: real): real { if a < b then b else a }

  function MinReal(a: real, b: real): real { if b < a then b else a }

  function AbsReal(x: real): real { if x < 0.0 then -x else x }

  /** The entry of a dictionary, or None: Python's `get`. */
  function Lookup<K, V>(m: map<K, V>, k: K): Option<V> {
    if k in m then Some(m[k]) else None
  }
}
