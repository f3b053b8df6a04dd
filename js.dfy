/**
 * The JavaScript values a sensor payload can carry, and the few language
 * operations the server applies to them: truthiness, the `|| -999` default,
 * conversion to text inside a template literal, and `String.prototype.split`
 * on a one-character separator together with its inverse, joining.
 */
module Js {

  datatype Option<T> = None | Some(value: T)

  /** A JSON-decoded field value. A number is kept as the text JavaScript's
      ToString gives it ("12.5", "0", "NaN", "-999"); its arithmetic is not
      modelled. Objects and arrays are not modelled. */
  datatype JsValue =
    | Undefined
    | Null
    | Bool(b: bool)
    | Num(text: string)
    | Str(s: string)

  /** JavaScript's ToBoolean: undefined, null, false, 0, -0, NaN and "" are falsy.
      -0 prints as "0", so a falsy number has the text "0" or "NaN". */
  predicate Truthy(v: JsValue)
  {
    match v
    case Undefined => false
    case Null => false
    case Bool(b) => b
    case Num(t) => t != "0" && t != "NaN"
    case Str(s) => s != ""
  }

  /** The sentinel the server writes in place of a missing value. */
  const Sentinel: JsValue := Num("-999")

  /** `v || -999`: the value itself when it is truthy, the sentinel otherwise. */
  function OrSentinel(v: JsValue): (r: JsValue)
    ensures Truthy(r)
    ensures Truthy(v) <==> r == v
    ensures !Truthy(v) ==> r == Sentinel
  {
    if Truthy(v) then v else Sentinel
  }

  /** What `${v}` produces inside a template literal. */
  function Text(v: JsValue): string
  {
    match v
    case Undefined => "undefined"
    case Null => "null"
    case Bool(b) => if b then "true" else "false"
    case Num(t) => t
    case Str(s) => s
  }

  /** `s.split(c)` for a one-character separator: the maximal pieces between
      occurrences of `c`, so there is always at least one piece and an empty
      string splits into one empty piece. */
  function Split(s: string, c: char): (r: seq<string>)
    ensures |r| >= 1
    ensures forall i :: 0 <= i < |r| ==> c !in r[i]
    ensures |r| == 1 <==> c !in s
  {
    if |s| == 0 then [""]
    else
      var rest := Split(s[1..], c);
      if s[0] == c then [""] + rest
      else [[s[0]] + rest[0]] + rest[1..]
  }

  /** `parts.join(c)`. */
  function Join(parts: seq<string>, c: char): string
  {
    if |parts| == 0 then ""
    else if |parts| == 1 then parts[0]
    else parts[0] + [c] + Join(parts[1..], c)
  }

  /** Joining the pieces of a split gives back the string. */
  lemma {:induction false} JoinSplit(s: string, c: char)
    ensures Join(Split(s, c), c) == s
  {
    if |s| > 0 {
      JoinSplit(s[1..], c);
      var rest := Split(s[1..], c);
      if s[0] == c {
        assert Split(s, c) == [""] + rest;
        assert Join([""] + rest, c) == "" + [c] + Join(rest, c);
        assert s == [s[0]] + s[1..];
      } else {
        var r := Split(s, c);
        assert r == [[s[0]] + rest[0]] + rest[1..];
        if |rest| == 1 {
          assert r == [[s[0]] + rest[0]];
          assert rest == [rest[0]];
        } else {
          assert r[1..] == rest[1..];
          assert Join(rest, c) == rest[0] + [c] + Join(rest[1..], c);
          assert Join(r, c) == [s[0]] + rest[0] + [c] + Join(rest[1..], c);
        }
        assert s == [s[0]] + s[1..];
      }
    }
  }

  /** A string without the separator is one piece. */
  lemma {:induction false} SplitNoSeparator(x: string, c: char)
    requires c !in x
    ensures Split(x, c) == [x]
  {
    if |x| > 0 {
      SplitNoSeparator(x[1..], c);
      assert [x[0]] + x[1..] == x;
    }
  }

  /** Splitting `x + c + y` where `x` has no separator peels off `x`. */
  lemma {:induction false} SplitAfterPiece(x: string, c: char, y: string)
    requires c !in x
    ensures Split(x + [c] + y, c) == [x] + Split(y, c)
  {
    if |x| == 0 {
      assert x + [c] + y == [c] + y;
      assert ([c] + y)[1..] == y;
    } else {
      var s := x + [c] + y;
      assert s[0] == x[0];
      assert s[1..] == x[1..] + [c] + y;
      SplitAfterPiece(x[1..], c, y);
      assert [x[0]] + x[1..] == x;
    }
  }

  /** Splitting a join of separator-free pieces gives back the pieces: a row
      whose fields contain no comma is read back field by field. */
  lemma {:induction false} SplitJoin(parts: seq<string>, c: char)
    requires |parts| >= 1
    requires forall i :: 0 <= i < |parts| ==> c !in parts[i]
    ensures Split(Join(parts, c), c) == parts
  {
    if |parts| == 1 {
      SplitNoSeparator(parts[0], c);
    } else {
      SplitJoin(parts[1..], c);
      SplitAfterPiece(parts[0], c, Join(parts[1..], c));
      assert [parts[0]] + parts[1..] == parts;
    }
  }

  /** `s.split(c)[0]`: the longest prefix of `s` without `c`; when it is
      shorter than `s`, the next character is the separator. */
  function FirstPiece(s: string, c: char): (r: string)
    ensures c !in r
    ensures |r| <= |s| && r == s[..|r|]
    ensures |r| < |s| ==> s[|r|] == c
  {
    PrefixBeforeFacts(s, c);
    Split(s, c)[0]
  }

  lemma {:induction false} PrefixBeforeFacts(s: string, c: char)
    ensures |Split(s, c)[0]| <= |s|
    ensures Split(s, c)[0] == s[..|Split(s, c)[0]|]
    ensures |Split(s, c)[0]| < |s| ==> s[|Split(s, c)[0]|] == c
  {
    if |s| > 0 {
      PrefixBeforeFacts(s[1..], c);
    }
  }

  /** `Array.prototype.reverse`: the same elements in the opposite order. */
  function Reverse<T>(s: seq<T>): (r: seq<T>)
    ensures |r| == |s|
    ensures forall i :: 0 <= i < |s| ==> r[i] == s[|s| - 1 - i]
  {
    if |s| == 0 then [] else Reverse(s[1..]) + [s[0]]
  }
}
