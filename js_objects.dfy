/**
 * What the browser page's plain objects (`{}`) bring with them. A property
 * name that an object literal inherits from `Object.prototype` is already
 * "present" before anything is stored under it, which changes the page's
 * counting idiom `counts[o] = (counts[o] || 0) + 1`:
 *
 * - for `"__proto__"` the read yields the prototype object and the write goes
 *   to the prototype setter, which ignores a non-object, so no own property
 *   is ever created;
 * - for every other inherited name the read yields an inherited function, so
 *   `function + 1` concatenates to a string, and every later `+ 1` appends to
 *   that string; the count then compares as `NaN`.
 */
module JsObjects {

  /** The property names every object literal inherits from `Object.prototype`. */
  const InheritedNames: set<string> := {
    "constructor", "__proto__", "toString", "toLocaleString", "valueOf",
    "hasOwnProperty", "isPrototypeOf", "propertyIsEnumerable",
    "__defineGetter__", "__defineSetter__", "__lookupGetter__", "__lookupSetter__"
  }

  /** An inherited name whose count becomes a non-numeric string. */
  predicate CountsAsString(o: string)
  {
    o in InheritedNames && o != "__proto__"
  }

  /** The JavaScript numbers the page's consensus can produce. */
  datatype JsNumber = Finite(value: real) | NaN | NegativeInfinity

  /** `x >= threshold` for a finite threshold: false for `NaN` and for `-Infinity`. */
  predicate AtLeast(x: JsNumber, threshold: real)
  {
    x.Finite? && x.value >= threshold
  }
}
