/** The dynamically typed Python values the checker's entry points accept. */
module PyValues {

  datatype PyValue =
    | PyStr(s: string)
    | PyInt(n: int)
    | PyBool(b: bool)
    | PyIntSub(m: int) // an instance of a subclass of int other than bool, such as an IntEnum member
    | PyNone
    | PyOther          // any other object: float, list, bytes, ...

  /** `v is True` */
  predicate IsTrue(v: PyValue) { v == PyBool(true) }

  /** `v is False` */
  predicate IsFalse(v: PyValue) { v == PyBool(false) }

  /** `isinstance(v, int)`: bool and every other subclass of int pass. */
  predicate IsInstanceInt(v: PyValue) { v.PyInt? || v.PyBool? || v.PyIntSub? }

  /** The integer an `isinstance(v, int)` value stands for (True is 1, False is 0). */
  function IntValue(v: PyValue): int
    requires IsInstanceInt(v)
  {
    if v.PyInt? then v.n else if v.PyIntSub? then v.m else if v.b then 1 else 0
  }
}
