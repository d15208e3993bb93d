/**
 * The fragment of JavaScript semantics the context manager relies on:
 * runtime values and strict equality (`===`), truthiness of optional
 * strings (`x || d`), `Array.prototype.indexOf` and
 * `String.prototype.split` with a one-character separator.
 */
module Js {
  import opened Wrappers

  /**
   * A JavaScript runtime value as it can appear as a context parameter's
   * value or as a value returned by a context provider. Numbers are exact
   * reals plus a separate `NaN`; objects are compared by identity, so an
   * object is represented by its reference.
   */
  datatype Value =
    | Undefined
    | Null
    | Boolean(b: bool)
    | Number(x: real)
    | NaN
    | Str(s: string)
    | Object(ref: nat)

  /**
   * `a === b`, following the Strict Equality Comparison algorithm of
   * ECMA-262: values of different types are never equal, NaN is equal to
   * nothing, objects are equal only to themselves.
   */
  function StrictEquals(a: Value, b: Value): (r: bool)
    ensures r <==> a == b && !a.NaN?
  {
    match (a, b)
    case (Undefined, Undefined) => true
    case (Null, Null) => true
    case (Boolean(x), Boolean(y)) => x == y
    case (Number(x), Number(y)) => x == y
    case (Str(x), Str(y)) => x == y
    case (Object(x), Object(y)) => x == y
    case _ => false
  }

  /** `x` as a JavaScript condition, for an optional string property. */
  predicate Truthy(x: Option<string>) {
    x.Some? && x.value != ""
  }

  /** `x || d` for an optional string property and a string default. */
  function OrElse(x: Option<string>, d: string): (r: string)
    ensures Truthy(x) ==> r == x.value
    ensures !Truthy(x) ==> r == d
  {
    if Truthy(x) then x.value else d
  }

  /**
   * `xs.indexOf(x)`: the first position of `x` in `xs`, or -1 when `x`
   * does not occur.
   */
  function IndexOf<T(==)>(xs: seq<T>, x: T): (k: int)
    ensures -1 <= k < |xs|
    ensures k == -1 <==> x !in xs
    ensures 0 <= k ==> xs[k] == x && forall m :: 0 <= m < k ==> xs[m] != x
    decreases |xs|
  {
    if xs == [] then -1
    else if xs[0] == x then 0
    else
      var k := IndexOf(xs[1..], x);
      if k == -1 then -1 else k + 1
  }

  /** An index holding `x` with no earlier `x` is the one `IndexOf` finds. */
  lemma IndexOfFirst<T>(xs: seq<T>, x: T, k: nat)
    requires k < |xs| && xs[k] == x
    requires forall m :: 0 <= m < k ==> xs[m] != x
    ensures IndexOf(xs, x) == k
  {
    var i := IndexOf(xs, x);
    assert xs[i] == x;
  }

  /** Appending elements after the first occurrence does not move it. */
  lemma IndexOfPrefix<T>(a: seq<T>, b: seq<T>, x: T)
    requires x in a
    ensures IndexOf(a + b, x) == IndexOf(a, x)
  {
    IndexOfFirst(a + b, x, IndexOf(a, x));
  }

  /** An element that first occurs right after `a` has index `|a|`. */
  lemma IndexOfAfter<T>(a: seq<T>, x: T)
    requires x !in a
    ensures IndexOf(a + [x], x) == |a|
  {
    IndexOfFirst(a + [x], x, |a|);
  }

  /**
   * `s.split(sep)` for a one-character separator: the maximal pieces of
   * `s` between separators, so "a,,b" gives ["a", "", "b"] and "" gives
   * [""]. The result is never empty.
   */
  function Split(s: string, sep: char): (pieces: seq<string>)
    ensures |pieces| >= 1
    decreases |s|
  {
    if s == [] then [""]
    else
      var rest := Split(s[1..], sep);
      if s[0] == sep then [""] + rest
      else [[s[0]] + rest[0]] + rest[1..]
  }

  /** `pieces.join(sep)` for a non-empty list of pieces. */
  function Join(pieces: seq<string>, sep: char): string
    requires |pieces| >= 1
    decreases |pieces|
  {
    if |pieces| == 1 then pieces[0]
    else pieces[0] + [sep] + Join(pieces[1..], sep)
  }

  /** Joining the pieces of a split gives back the original string. */
  lemma {:induction false} JoinSplit(s: string, sep: char)
    ensures Join(Split(s, sep), sep) == s
    decreases |s|
  {
    if s != [] {
      var rest := Split(s[1..], sep);
      JoinSplit(s[1..], sep);
      if s[0] == sep {
        assert ([""] + rest)[1..] == rest;
      } else {
        var pieces := [[s[0]] + rest[0]] + rest[1..];
        if |rest| > 1 {
          assert pieces[1..] == rest[1..];
        }
      }
    }
  }

  /** No piece of a split contains the separator. */
  lemma {:induction false} SplitPiecesAvoidSeparator(s: string, sep: char)
    ensures forall k :: 0 <= k < |Split(s, sep)| ==> sep !in Split(s, sep)[k]
    decreases |s|
  {
    if s != [] {
      SplitPiecesAvoidSeparator(s[1..], sep);
      var rest := Split(s[1..], sep);
      if s[0] != sep {
        assert sep !in rest[0];
        assert sep !in [s[0]] + rest[0];
      }
    }
  }

  /** A separator-free prefix is glued onto the first piece of what follows. */
  lemma {:induction false} SplitFreePrefix(a: string, t: string, sep: char)
    requires sep !in a
    ensures Split(a + t, sep) == [a + Split(t, sep)[0]] + Split(t, sep)[1..]
    decreases |a|
  {
    if a == [] {
      assert a + t == t;
      assert a + Split(t, sep)[0] == Split(t, sep)[0];
    } else {
      SplitFreePrefix(a[1..], t, sep);
      assert (a + t)[0] == a[0];
      assert (a + t)[1..] == a[1..] + t;
      assert [a[0]] + (a[1..] + Split(t, sep)[0]) == a + Split(t, sep)[0];
    }
  }

  /** Splitting a join of separator-free pieces gives back the pieces. */
  lemma {:induction false} SplitJoin(pieces: seq<string>, sep: char)
    requires |pieces| >= 1
    requires forall k :: 0 <= k < |pieces| ==> sep !in pieces[k]
    ensures Split(Join(pieces, sep), sep) == pieces
    decreases |pieces|
  {
    if |pieces| == 1 {
      SplitFreePrefix(pieces[0], "", sep);
      assert pieces[0] + "" == pieces[0];
    } else {
      var tail := Join(pieces[1..], sep);
      SplitJoin(pieces[1..], sep);
      var t := [sep] + tail;
      assert t[1..] == tail;
      assert Split(t, sep) == [""] + pieces[1..];
      SplitFreePrefix(pieces[0], t, sep);
      assert pieces[0] + [sep] + tail == pieces[0] + t;
      assert pieces[0] + "" == pieces[0];
      assert ([""] + pieces[1..])[1..] == pieces[1..];
      assert [pieces[0]] + pieces[1..] == pieces;
    }
  }
}
