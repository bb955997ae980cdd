/** The small part of JavaScript's value semantics that the handlers and the
    todo page depend on: absent values, thrown errors, truthiness of a string
    field, the `\s` character class and `String.prototype.trim`. */
module Js {

  datatype Option<+T> = None | Some(value: T)

  /** A thrown JavaScript `Error`: the optional numeric `code` (MongoDB puts
      11000 there for a duplicate key) and its `message`. */
  datatype Error = Error(code: Option<int>, message: string)

  /** The value of an operation that either returns or throws. */
  datatype Result<+T> = Ok(value: T) | Err(error: Error)

  /** A field destructured from a parsed JSON body: `undefined` or a string. */
  type Field = Option<string>

  /** JavaScript truthiness of a field: `undefined` and `''` are falsy. */
  predicate Falsy(f: Field) {
    f.None? || f.value == ""
  }

  /** The characters matched by `\s` and removed by `trim()`: the
      WhiteSpace and LineTerminator code points of ECMAScript. */
  predicate IsWhitespace(c: char) {
    var n := c as int;
    (0x09 <= n <= 0x0D) || n == 0x20 || n == 0xA0 || n == 0x1680
    || (0x2000 <= n <= 0x200A) || n == 0x2028 || n == 0x2029
    || n == 0x202F || n == 0x205F || n == 0x3000 || n == 0xFEFF
  }

  /** Every character of `s` is white space (true of the empty string). */
  predicate Blank(s: string) {
    forall i :: 0 <= i < |s| ==> IsWhitespace(s[i])
  }

  /** `s` with its leading white space removed. */
  function TrimStart(s: string): (r: string)
    ensures |r| <= |s| && r == s[|s| - |r|..]
    ensures r != [] ==> !IsWhitespace(r[0])
    ensures Blank(s[..|s| - |r|])
  {
    if s != [] && IsWhitespace(s[0]) then
      var r := TrimStart(s[1..]);
      assert s[1..][..|s[1..]| - |r|] == s[1..|s| - |r|];
      r
    else s
  }

  /** `s` with its trailing white space removed. */
  function TrimEnd(s: string): (r: string)
    ensures |r| <= |s| && r == s[..|r|]
    ensures r != [] ==> !IsWhitespace(r[|r| - 1])
    ensures Blank(s[|r|..])
  {
    if s != [] && IsWhitespace(s[|s| - 1]) then
      var r := TrimEnd(s[..|s| - 1]);
      assert s[..|s| - 1][|r|..] == s[|r|..|s| - 1];
      r
    else s
  }

  /** `s.trim()`. */
  function Trim(s: string): string {
    TrimEnd(TrimStart(s))
  }

  /** `s.trim() !== ''` holds exactly when `s` has a character that is not
      white space; this is the test both todo actions apply to their input. */
  lemma {:induction false} TrimEmptyIffBlank(s: string)
    ensures Trim(s) == "" <==> Blank(s)
  {
    var t := TrimStart(s);
    if Trim(s) == "" {
      assert Blank(t[0..]);
      assert t == [];
      assert s[..|s| - |t|] == s;
    }
  }
}
