/** SQL's three-valued logic, and the rule that a CHECK constraint admits `unknown`. */
module SqlLogic {

  datatype Option<+T> = None | Some(value: T)

  datatype Sql = True | False | Unknown

  function FromBool(b: bool): (r: Sql) {
    if b then True else False
  }

  function And(a: Sql, b: Sql): (r: Sql) {
    if a == False || b == False then False
    else if a == True && b == True then True
    else Unknown
  }

  function Or(a: Sql, b: Sql): (r: Sql) {
    if a == True || b == True then True
    else if a == False && b == False then False
    else Unknown
  }

  /** A row violates a CHECK only when the expression is definitely false. */
  predicate CheckPasses(r: Sql) {
    r != False
  }

  function IsNull<T>(a: Option<T>): (r: Sql) {
    FromBool(a.None?)
  }

  function IsNotNull<T>(a: Option<T>): (r: Sql) {
    FromBool(a.Some?)
  }

  function Equals<T(==)>(a: Option<T>, b: Option<T>): (r: Sql) {
    if a.None? || b.None? then Unknown else FromBool(a.value == b.value)
  }

  function In<T(==)>(a: Option<T>, values: set<T>): (r: Sql) {
    if a.None? then Unknown else FromBool(a.value in values)
  }

  function GreaterThan(a: Option<int>, bound: int): (r: Sql) {
    if a.None? then Unknown else FromBool(a.value > bound)
  }

  /** Text concatenation is null as soon as one side is. */
  function Cat(a: Option<string>, b: Option<string>): (r: Option<string>) {
    if a.None? || b.None? then None else Some(a.value + b.value)
  }
}
