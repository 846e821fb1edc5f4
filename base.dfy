/** Failure-compatible wrappers shared by every module of the model. */
module Base {

  datatype Option<+T> = None | Some(value: T)

  /** Success value or the error the source would throw. */
  datatype Result<+R, +E> = Success(value: R) | Failure(error: E)

  /** Pass, or the error a guard throws. */
  datatype Outcome<+E> = Pass | Fail(error: E)

  /**
   * A thrown JavaScript `Error`: its message and, where the source sets one,
   * its `code` property.
   */
  datatype Error = Error(message: string, code: Option<string>)

  /**
   * The members every object literal inherits from `Object.prototype`: a
   * lookup `obj[key]` with one of these names finds the inherited value
   * (a function, or the prototype itself for `__proto__`) instead of
   * `undefined`.
   */
  const ObjectPrototypeKeys: set<string> :=
    {"constructor", "toString", "toLocaleString", "valueOf", "hasOwnProperty", "isPrototypeOf",
     "propertyIsEnumerable", "__defineGetter__", "__defineSetter__", "__lookupGetter__",
     "__lookupSetter__", "__proto__"}

  /** An `Error` built with `new Error(message)` and nothing else. */
  function Plain(message: string): Error
  {
    Error(message, None)
  }
}
