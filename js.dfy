/** The slice of the JavaScript runtime that the client's handlers depend on:
    thrown values as the error handlers inspect them, the outcome of an awaited
    external call, and the two string operations the handlers use
    (`String.prototype.includes` and `String.prototype.toLowerCase`). */
module Js {

  datatype Option<+T> = None | Some(value: T)

  /** A JavaScript value, as far as the error handlers look into one.
      Numbers are integers here: the only number ever compared is the wallet's
      error code 4001. */
  datatype JsValue =
    | Undefined
    | Null
    | Bool(b: bool)
    | Num(n: int)
    | Str(s: string)
    | Obj(props: map<string, JsValue>)

  /** What an awaited external call (wallet, contract, HTTP) yields: its value,
      or the value it threw. */
  datatype Reply<+T> = Ok(value: T) | Threw(error: JsValue)

  /** `null` and `undefined`: reading a property of one throws a TypeError. */
  predicate IsNullish(v: JsValue) {
    v.Undefined? || v.Null?
  }

  /** `v[key]` for a value that is not nullish. The keys read by the handlers
      ("code" and "message") are own properties of error objects and are
      provided by no primitive's prototype, so a primitive yields `undefined`. */
  function Prop(v: JsValue, key: string): (r: JsValue)
    requires !IsNullish(v)
  {
    match v
    case Obj(props) => if key in props then props[key] else Undefined
    case _ => Undefined
  }

  /** A JavaScript `Error` object built with `new Error(message)`. */
  function ErrorWithMessage(message: string): (e: JsValue) {
    Obj(map["message" := Str(message)])
  }

  // ---------------------------------------------------------------------------
  // String.prototype.includes

  predicate StartsWith(s: string, prefix: string) {
    |prefix| <= |s| && s[..|prefix|] == prefix
  }

  /** `s.includes(sub)`: `sub` occurs in `s` at some position (the empty
      string occurs everywhere). */
  predicate Contains(s: string, sub: string)
    decreases |s|
  {
    StartsWith(s, sub) || (|s| > 0 && Contains(s[1..], sub))
  }

  /** `sub` occurs in `s` starting at index `i`. */
  predicate OccursAt(s: string, sub: string, i: int) {
    0 <= i && i + |sub| <= |s| && s[i..i + |sub|] == sub
  }

  /** The scan above finds `sub` exactly when some window of `s` equals it. */
  lemma {:induction false} ContainsIff(s: string, sub: string)
    ensures Contains(s, sub) <==> exists i :: OccursAt(s, sub, i)
  {
    if Contains(s, sub) {
      if StartsWith(s, sub) {
        assert OccursAt(s, sub, 0);
      } else {
        ContainsIff(s[1..], sub);
        var j :| OccursAt(s[1..], sub, j);
        assert s[j + 1..j + 1 + |sub|] == s[1..][j..j + |sub|];
        assert OccursAt(s, sub, j + 1);
      }
    }
    if exists i :: OccursAt(s, sub, i) {
      var i :| OccursAt(s, sub, i);
      if i == 0 {
        assert StartsWith(s, sub);
      } else {
        assert s[1..][i - 1..i - 1 + |sub|] == s[i..i + |sub|];
        assert OccursAt(s[1..], sub, i - 1);
        ContainsIff(s[1..], sub);
      }
    }
  }

  /** A needle with a character the haystack lacks is not found in it. */
  lemma MissingCharNotContained(s: string, sub: string, c: char)
    requires c in sub && c !in s
    ensures !Contains(s, sub)
  {
    var k :| 0 <= k < |sub| && sub[k] == c;
    forall i | 0 <= i && i + |sub| <= |s|
      ensures !OccursAt(s, sub, i)
    {
      assert s[i..i + |sub|][k] == s[i + k];
    }
    ContainsIff(s, sub);
  }

  // ---------------------------------------------------------------------------
  // String.prototype.toLowerCase, on the ASCII letters

  function LowerChar(c: char): (r: char) {
    if 'A' <= c <= 'Z' then (c as int + 32) as char else c
  }

  predicate IsUpper(c: char) {
    'A' <= c <= 'Z'
  }

  function ToLower(s: string): (r: string) {
    seq(|s|, i requires 0 <= i < |s| => LowerChar(s[i]))
  }

  /** Lower-casing keeps the length, leaves no capital letter behind, changes
      nothing but capital letters, and is idempotent. */
  lemma ToLowerProperties(s: string)
    ensures |ToLower(s)| == |s|
    ensures forall i :: 0 <= i < |s| ==> !IsUpper(ToLower(s)[i])
    ensures forall i :: 0 <= i < |s| && !IsUpper(s[i]) ==> ToLower(s)[i] == s[i]
    ensures ToLower(ToLower(s)) == ToLower(s)
  {
  }

  /** Lower-casing works character by character: it commutes with appending one. */
  lemma ToLowerSnoc(s: string, c: char)
    ensures ToLower(s + [c]) == ToLower(s) + [LowerChar(c)]
  {
  }
}
