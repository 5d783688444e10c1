/**
 * Stand-ins for the library calls the stub engine makes.
 *
 * String splitting has a fixed, well-known meaning and is modelled concretely:
 * `components(separatedBy:)` keeps empty pieces, Swift's `split` drops them.
 * Regular-expression matching, URL parsing and SwiftMocktail's method equality are
 * foreign: they are the fields of a `Platform` value, so every property proved about
 * the engine holds whatever those libraries do.
 */
module Foundation {
  import opened Wrappers

  /** True when `d` occurs somewhere in `s`. */
  predicate Contains(s: string, d: string)
    decreases |s|
  {
    |d| <= |s| && (s[..|d|] == d || Contains(s[1..], d))
  }

  /** Re-assembles pieces with `d` between consecutive ones. */
  function Join(parts: seq<string>, d: string): string
    requires |parts| >= 1
    decreases |parts|
  {
    if |parts| == 1 then parts[0] else parts[0] + d + Join(parts[1..], d)
  }

  lemma {:induction false} JoinStartsWithFirst(parts: seq<string>, d: string)
    requires |parts| >= 1
    ensures |parts[0]| <= |Join(parts, d)|
    ensures Join(parts, d)[..|parts[0]|] == parts[0]
  {
    if |parts| > 1 {
      assert Join(parts, d) == parts[0] + (d + Join(parts[1..], d));
    }
  }

  /**
   * `s.components(separatedBy: d)`: the pieces between the occurrences of `d`, found
   * left to right, empty pieces included. Gluing them back with `d` gives `s`, and no
   * piece contains `d`.
   */
  function Components(s: string, d: string): (parts: seq<string>)
    requires |d| > 0
    ensures |parts| >= 1
    ensures Join(parts, d) == s
    ensures forall i :: 0 <= i < |parts| ==> !Contains(parts[i], d)
    decreases |s|
  {
    if |s| < |d| then [s]
    else if s[..|d|] == d then
      var rest := Components(s[|d|..], d);
      assert Join([[]] + rest, d) == d + Join(rest, d) by {
        assert ([[]] + rest)[1..] == rest;
      }
      [[]] + rest
    else
      var rest := Components(s[1..], d);
      var first := [s[0]] + rest[0];
      var parts := [first] + rest[1..];
      assert Join(parts, d) == s by {
        if |rest| > 1 {
          assert parts[1..] == rest[1..];
        }
      }
      assert !Contains(first, d) by {
        JoinStartsWithFirst(rest, d);
        assert first[1..] == rest[0];
        if |d| <= |first| {
          assert first[..|d|] == s[..|d|];
        }
      }
      parts
  }

  /** The last element of a non-empty sequence. */
  function Last<T>(xs: seq<T>): T
    requires |xs| >= 1
  {
    xs[|xs| - 1]
  }

  lemma {:induction false} JoinEndsWithLast(parts: seq<string>, d: string)
    requires |parts| >= 1
    ensures |Last(parts)| <= |Join(parts, d)|
    ensures Join(parts, d)[|Join(parts, d)| - |Last(parts)|..] == Last(parts)
    decreases |parts|
  {
    if |parts| > 1 {
      var tail := Join(parts[1..], d);
      JoinEndsWithLast(parts[1..], d);
      assert Last(parts[1..]) == Last(parts);
      assert Join(parts, d) == (parts[0] + d) + tail;
    }
  }

  lemma {:induction false} ComponentsOfDelimitedFree(s: string, d: string)
    requires |d| > 0 && !Contains(s, d)
    ensures Components(s, d) == [s]
    decreases |s|
  {
    if |s| >= |d| {
      ComponentsOfDelimitedFree(s[1..], d);
    }
  }

  /**
   * No proper prefix of `d` is also a suffix of it, so two occurrences of `d` never
   * overlap. Every one-character delimiter has this, and so has the two-character `\?`.
   */
  predicate BorderFree(d: string)
  {
    forall k :: 0 < k < |d| ==> d[..k] != d[|d| - k..]
  }

  lemma OverlapIsBorder(a: string, d: string, b: string)
    requires 0 < |a| < |d| && (a + d + b)[..|d|] == d
    ensures d[..|d| - |a|] == d[|d| - (|d| - |a|)..]
  {
    var s := a + d + b;
    assert s[|a|..|d|] == d[..|d| - |a|];
    assert s[..|d|][|a|..] == d[|a|..];
  }

  /** A piece free of `d`, then `d`: the first component is that piece. */
  lemma {:induction false} ComponentsOfPrefix(a: string, d: string, b: string)
    requires |d| > 0 && BorderFree(d) && !Contains(a, d)
    ensures Components(a + d + b, d) == [a] + Components(b, d)
    decreases |a|
  {
    var s := a + d + b;
    if a == [] {
      assert s[..|d|] == d && s[|d|..] == b;
    } else {
      assert s[..|d|] != d by {
        if |d| <= |a| {
          assert s[..|d|] == a[..|d|];
        } else if s[..|d|] == d {
          // d would start at 0 and again at |a|: a border of length |d| - |a|
          OverlapIsBorder(a, d, b);
          assert false;
        }
      }
      assert s[1..] == a[1..] + d + b;
      assert !Contains(a[1..], d);
      ComponentsOfPrefix(a[1..], d, b);
      var rest := Components(s[1..], d);
      assert rest[1..] == Components(b, d);
      assert [s[0]] + rest[0] == a;
      assert Components(s, d) == [[s[0]] + rest[0]] + rest[1..];
    }
  }

  /** One step of `Components` on a text at least as long as the delimiter. */
  lemma ComponentsStep(s: string, d: string)
    requires |d| > 0 && |s| >= |d|
    ensures s[..|d|] == d ==> Components(s, d) == [[]] + Components(s[|d|..], d)
    ensures s[..|d|] != d ==>
      Components(s, d) == [[s[0]] + Components(s[1..], d)[0]] + Components(s[1..], d)[1..]
  {
  }

  lemma {:induction false} ContainsInfix(x: string, d: string, y: string)
    ensures Contains(x + d + y, d)
    decreases |x|
  {
    if x == [] {
      assert (x + d + y)[..|d|] == d;
    } else {
      assert (x + d + y)[1..] == x[1..] + d + y;
      ContainsInfix(x[1..], d, y);
    }
  }

  /** A string holding `d` has at least two components. */
  lemma SeveralComponents(s: string, d: string)
    requires |d| > 0 && Contains(s, d)
    ensures |Components(s, d)| >= 2
  {
  }

  /** Whatever precedes the last `d`, the last component is the `d`-free text after it. */
  lemma {:induction false} LastComponent(a: string, d: string, q: string)
    requires |d| > 0 && BorderFree(d) && !Contains(q, d)
    ensures Last(Components(a + d + q, d)) == q
    decreases |a|, 1
  {
    var s := a + d + q;
    if a == [] {
      ComponentsOfPrefix(a, d, q);
      ComponentsOfDelimitedFree(q, d);
    } else if s[..|d|] == d {
      LastComponentAfterDelimiter(a, d, q);
    } else {
      LastComponentAfterCharacter(a, d, q);
    }
  }

  /** `a + d + q` starts with `d`: the first component is empty and the rest decides. */
  lemma {:induction false} LastComponentAfterDelimiter(a: string, d: string, q: string)
    requires |d| > 0 && BorderFree(d) && !Contains(q, d)
    requires a != [] && (a + d + q)[..|d|] == d
    ensures Last(Components(a + d + q, d)) == q
    decreases |a|, 0
  {
    var s := a + d + q;
    if |a| < |d| {
      OverlapIsBorder(a, d, q);
      assert false;
    }
    assert s[|d|..] == a[|d|..] + d + q;
    LastComponent(a[|d|..], d, q);
    ComponentsStep(s, d);
    var rest := Components(s[|d|..], d);
    assert Last([[]] + rest) == Last(rest);
  }

  /** `a + d + q` does not start with `d`: its first character joins the first component of the rest. */
  lemma {:induction false} LastComponentAfterCharacter(a: string, d: string, q: string)
    requires |d| > 0 && BorderFree(d) && !Contains(q, d)
    requires a != [] && (a + d + q)[..|d|] != d
    ensures Last(Components(a + d + q, d)) == q
    decreases |a|, 0
  {
    var s := a + d + q;
    assert s[1..] == a[1..] + d + q;
    LastComponent(a[1..], d, q);
    ContainsInfix(a[1..], d, q);
    SeveralComponents(s[1..], d);
    ComponentsStep(s, d);
    var rest := Components(s[1..], d);
    assert Last([[s[0]] + rest[0]] + rest[1..]) == Last(rest);
  }

  lemma {:induction false} ContainsOne(s: string, c: char)
    ensures Contains(s, [c]) <==> c in s
    decreases |s|
  {
    if s != [] {
      ContainsOne(s[1..], c);
      assert s == [s[0]] + s[1..];
    }
  }

  /** The pieces that are not empty, in order. */
  function NonEmpty(parts: seq<string>): (r: seq<string>)
    ensures forall i :: 0 <= i < |r| ==> |r[i]| > 0
    ensures forall x :: x in r ==> x in parts
  {
    if parts == [] then []
    else (if |parts[0]| > 0 then [parts[0]] else []) + NonEmpty(parts[1..])
  }

  /** The pieces glued together with nothing between them. */
  function Flatten(parts: seq<string>): string
  {
    if parts == [] then [] else parts[0] + Flatten(parts[1..])
  }

  /** `s` with every occurrence of `c` deleted. */
  function Without(s: string, c: char): string
  {
    if s == [] then [] else (if s[0] == c then [] else [s[0]]) + Without(s[1..], c)
  }

  lemma {:induction false} WithoutAppend(x: string, y: string, c: char)
    ensures Without(x + y, c) == Without(x, c) + Without(y, c)
    decreases |x|
  {
    if x != [] {
      assert (x + y)[1..] == x[1..] + y;
      WithoutAppend(x[1..], y, c);
    } else {
      assert x + y == y;
    }
  }

  lemma {:induction false} WithoutAbsent(x: string, c: char)
    requires c !in x
    ensures Without(x, c) == x
    decreases |x|
  {
    if x != [] {
      WithoutAbsent(x[1..], c);
    }
  }

  /** Deleting the separators from the joined pieces leaves the pieces run together. */
  lemma {:induction false} WithoutJoin(parts: seq<string>, c: char)
    requires |parts| >= 1
    requires forall i :: 0 <= i < |parts| ==> c !in parts[i]
    ensures Without(Join(parts, [c]), c) == Flatten(parts)
    decreases |parts|
  {
    WithoutAbsent(parts[0], c);
    if |parts| == 1 {
      assert Flatten(parts) == parts[0] + Flatten([]);
    } else {
      WithoutJoin(parts[1..], c);
      WithoutAppend(parts[0] + [c], Join(parts[1..], [c]), c);
      WithoutAppend(parts[0], [c], c);
    }
  }

  lemma {:induction false} FlattenNonEmpty(parts: seq<string>)
    ensures Flatten(NonEmpty(parts)) == Flatten(parts)
    decreases |parts|
  {
    if parts != [] {
      FlattenNonEmpty(parts[1..]);
      var head := if |parts[0]| > 0 then [parts[0]] else [];
      FlattenAppend(head, NonEmpty(parts[1..]));
      if |parts[0]| > 0 {
        assert Flatten(head) == parts[0] + Flatten([]);
      }
    }
  }

  lemma {:induction false} FlattenAppend(xs: seq<string>, ys: seq<string>)
    ensures Flatten(xs + ys) == Flatten(xs) + Flatten(ys)
    decreases |xs|
  {
    if xs != [] {
      assert (xs + ys)[1..] == xs[1..] + ys;
      FlattenAppend(xs[1..], ys);
    } else {
      assert xs + ys == ys;
    }
  }

  /**
   * Swift's `split(separator)` with its default of omitting empty subsequences, which
   * is what Swifter's `String.split(_:)` calls: the non-empty runs between separators.
   * Run together, the pieces are `s` with its separators deleted.
   */
  function Split(s: string, separator: char): (pieces: seq<string>)
    ensures forall i :: 0 <= i < |pieces| ==> |pieces[i]| > 0 && separator !in pieces[i]
    ensures Flatten(pieces) == Without(s, separator)
  {
    var parts := Components(s, [separator]);
    var pieces := NonEmpty(parts);
    assert forall i :: 0 <= i < |parts| ==> separator !in parts[i] by {
      forall i | 0 <= i < |parts| ensures separator !in parts[i] {
        ContainsOne(parts[i], separator);
      }
    }
    assert forall x :: x in pieces ==> separator !in x by {
      forall x | x in pieces ensures separator !in x {
        var i :| 0 <= i < |parts| && parts[i] == x;
      }
    }
    WithoutJoin(parts, separator);
    FlattenNonEmpty(parts);
    pieces
  }

  lemma SplitEmpty(separator: char)
    ensures Split("", separator) == []
  {
    assert Components("", [separator]) == [""];
    assert NonEmpty([""]) == [] + NonEmpty([""][1..]);
  }

  /** A non-empty run free of the separator is one piece. */
  lemma SplitOfRun(a: string, separator: char)
    requires |a| > 0 && separator !in a
    ensures Split(a, separator) == [a]
  {
    ContainsOne(a, separator);
    ComponentsOfDelimitedFree(a, [separator]);
    assert NonEmpty([a]) == [a] + NonEmpty([a][1..]);
  }

  /** A non-empty run free of the separator, then the separator: the first piece is that run. */
  lemma SplitOfPrefix(a: string, separator: char, b: string)
    requires |a| > 0 && separator !in a
    ensures Split(a + [separator] + b, separator) == [a] + Split(b, separator)
  {
    ContainsOne(a, separator);
    ComponentsOfPrefix(a, [separator], b);
    var parts := Components(a + [separator] + b, [separator]);
    assert parts[1..] == Components(b, [separator]);
  }

  /** A separator at the start adds no piece. */
  lemma LeadingSeparator(separator: char, b: string)
    ensures Split([separator] + b, separator) == Split(b, separator)
  {
    var s := [separator] + b;
    assert s[..1] == [separator] && s[1..] == b;
    var rest := Components(b, [separator]);
    assert Components(s, [separator]) == [[]] + rest;
    assert NonEmpty([[]] + rest) == [] + NonEmpty(([[]] + rest)[1..]);
    assert ([[]] + rest)[1..] == rest;
  }

  /** Two separators in a row after a piece split like one: the empty run between them is dropped. */
  lemma DoubledSeparator(a: string, separator: char, b: string)
    requires |a| > 0 && separator !in a
    ensures Split(a + [separator, separator] + b, separator) == Split(a + [separator] + b, separator)
  {
    assert a + [separator, separator] + b == a + [separator] + ([separator] + b);
    SplitOfPrefix(a, separator, [separator] + b);
    LeadingSeparator(separator, b);
    SplitOfPrefix(a, separator, b);
  }

  /** A line terminator of ICU regular expressions: `.` does not match these characters. */
  predicate IsLineTerminator(c: char)
  {
    c in {'\n', '\U{0B}', '\U{0C}', '\r', '\U{85}', '\U{2028}', '\U{2029}'}
  }

  /** One item of `NSURLComponents.queryItems`: a name, and a value unless the item had no `=`. */
  datatype QueryItem = QueryItem(name: string, value: Option<string>)

  /**
   * The foreign calls of the engine, as total functions.
   *  - sameMethod(requestMethod, stubMethod): SwiftMocktail's `Method.other(requestMethod) == stubMethod`;
   *  - methodsEqual(a, b): SwiftMocktail's `==` between the methods of two stubs;
   *  - regexCompiles(pattern): `NSRegularExpression(pattern:options: .caseInsensitive)` does not throw;
   *  - regexFinds(pattern, text): that expression's `firstMatch` over `NSMakeRange(0, text.count)` is
   *    not nil; the model takes that range to be the whole of `text` (see the README on strings);
   *  - urlPath(s): `NSURLComponents(string: s)?.path`;
   *  - queryItems(s): `NSURLComponents(string: s)?.queryItems`.
   */
  datatype Platform = Platform(
    sameMethod: (string, string) -> bool,
    methodsEqual: (string, string) -> bool,
    regexCompiles: string -> bool,
    regexFinds: (string, string) -> bool,
    urlPath: string -> Option<string>,
    queryItems: string -> Option<seq<QueryItem>>)
}
