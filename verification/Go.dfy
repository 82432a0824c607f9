/**
 The parts of Go that the modelled code leans on: machine integers, and the three
 ways a call can end.

 A Go string and a Go []byte are both sequences of bytes.  Both are modelled as a
 `string`, one character per byte.
 */
module Go {

  const TWO_63: int := 0x8000_0000_0000_0000
  const TWO_64: int := 0x1_0000_0000_0000_0000

  type int64 = x: int | -0x8000_0000_0000_0000 <= x < 0x8000_0000_0000_0000
  type int8 = x: int | -128 <= x < 128
  type uint8 = x: int | 0 <= x < 256
  type uint16 = x: int | 0 <= x < 0x1_0000
  type uint32 = x: int | 0 <= x < 0x1_0000_0000
  type uint64 = x: int | 0 <= x < 0x1_0000_0000_0000_0000

  /** Truncation of an integer to a signed 64-bit word. */
  function Wrap64(x: int): (r: int64)
    ensures -TWO_63 <= x < TWO_63 ==> r == x
  {
    (x + TWO_63) % TWO_64 - TWO_63
  }

  /** Truncation of an integer to a signed 8-bit word. */
  function Wrap8(x: int): (r: int8)
    ensures -128 <= x < 128 ==> r == x
  {
    (x + 128) % 256 - 128
  }

  datatype Option<+T> = None | Some(value: T)

  /** The sentinel a returned error wraps; `Other` when it wraps none of the package's own. */
  datatype Error = InvalidParameter | Internal | Other

  /** How a call ends: with a result, with an error value, or in a run-time panic. */
  datatype Outcome<+T> = Ok(value: T) | Err(error: Error) | Panic {
    predicate IsFailure() {
      !Ok?
    }

    function PropagateFailure<U>(): Outcome<U>
      requires !Ok?
    {
      if Err? then Outcome<U>.Err(error) else Outcome<U>.Panic
    }

    function Extract(): T
      requires Ok?
    {
      value
    }
  }

  /** A result list with `xs` in front of it; a failure stays a failure. */
  function After<T>(xs: seq<T>, r: Outcome<seq<T>>): (s: Outcome<seq<T>>)
    ensures xs == [] ==> s == r
    ensures r == Ok([]) ==> s == Ok(xs)
  {
    if r.Ok? then
      assert [] + r.value == r.value && xs + [] == xs;
      Ok(xs + r.value)
    else r
  }

  lemma AfterOne<T>(xs: seq<T>, x: T, r: Outcome<seq<T>>)
    ensures After(xs, After([x], r)) == After(xs + [x], r)
  {
    if r.Ok? {
      assert xs + ([x] + r.value) == (xs + [x]) + r.value;
    }
  }

  lemma Associate<T>(a: seq<T>, b: seq<T>, c: seq<T>)
    ensures (a + b) + c == a + (b + c)
  {
  }

  predicate Distinct<T(==)>(s: seq<T>) {
    forall i, j :: 0 <= i < j < |s| ==> s[i] != s[j]
  }
}
