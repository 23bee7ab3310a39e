/** Ruby's nil and blank, as the models and services test them. */
module Presence {

  /** A value that may be nil. */
  datatype Option<+T> = None | Some(value: T) {
    /** `value || default` */
    function GetOr(default: T): T {
      if Some? then value else default
    }
  }

  /** The characters String#blank? treats as white space: `[[:space:]]`,
      the Unicode White_Space code points. */
  predicate IsSpace(c: char) {
    var n := c as int;
    (0x09 <= n <= 0x0D) || n == 0x20 || n == 0x85 || n == 0xA0 || n == 0x1680 ||
    (0x2000 <= n <= 0x200A) || n == 0x2028 || n == 0x2029 || n == 0x202F ||
    n == 0x205F || n == 0x3000
  }

  /** String#blank?: empty or white space only. */
  predicate Blank(s: string) {
    forall i :: 0 <= i < |s| ==> IsSpace(s[i])
  }

  /** Object#present? on an optional string. */
  predicate Present(v: Option<string>) {
    v.Some? && !Blank(v.value)
  }
}
