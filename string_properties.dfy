/**
 * `String.asPropertyDictionary()`: the parser of the directive mini-language used in the
 * `stub-set` and `stub-only-if` headers, `key=value` pairs separated by commas.
 */
module StringProperties {
  import opened Wrappers
  import opened Foundation

  /**
   * The closure given to `flatMap`: an empty piece gives nothing; a piece that splits on
   * `=` into exactly two parts gives those parts; any other piece is a key whose value is
   * the empty string.
   */
  function PieceProperty(keyValue: string): (r: Option<(string, string)>)
    ensures r.None? <==> |keyValue| == 0
    ensures r.Some? ==> |r.value.0| > 0
    ensures r.Some? && r.value.1 == "" ==> r.value.0 == keyValue
    ensures r.Some? && r.value.1 != "" ==> '=' !in r.value.0 && '=' !in r.value.1
  {
    if |keyValue| == 0 then None
    else
      var splitKeyValue := Split(keyValue, '=');
      if |splitKeyValue| != 2 then Some((keyValue, ""))
      else Some((splitKeyValue[0], splitKeyValue[1]))
  }

  /** `flatMap` with an optional result: the properties of the pieces that give one, in order. */
  function CompactProperties(pieces: seq<string>): (r: seq<(string, string)>)
    ensures |r| <= |pieces|
    ensures (forall i :: 0 <= i < |pieces| ==> |pieces[i]| > 0) ==>
      |r| == |pieces| && forall i :: 0 <= i < |r| ==> PieceProperty(pieces[i]) == Some(r[i])
  {
    if pieces == [] then []
    else
      match PieceProperty(pieces[0])
      case None => CompactProperties(pieces[1..])
      case Some(p) => [p] + CompactProperties(pieces[1..])
  }

  /**
   * `Dictionary(_:uniquingKeysWith:)`: the pairs are inserted in order; when a key is
   * already present, `combine(existing, new)` gives its value.
   */
  function UniquingKeys(pairs: seq<(string, string)>, combine: (string, string) -> string): (m: map<string, string>)
    ensures m.Keys == set i | 0 <= i < |pairs| :: pairs[i].0
    decreases |pairs|
  {
    if pairs == [] then map[]
    else
      var m := UniquingKeys(pairs[..|pairs| - 1], combine);
      var (key, value) := pairs[|pairs| - 1];
      assert forall i :: 0 <= i < |pairs| - 1 ==> pairs[..|pairs| - 1][i] == pairs[i];
      if key in m then m[key := combine(m[key], value)] else m[key := value]
  }

  /** The merge closure `{ key, value in return key }`: it returns its first argument, the existing value. */
  function KeepExisting(existing: string, incoming: string): string
  {
    existing
  }

  /** The properties of a directive string, in the order they appear. */
  function DirectiveProperties(s: string): seq<(string, string)>
  {
    CompactProperties(Split(s, ','))
  }

  /** `asPropertyDictionary()`. No entry has an empty name. */
  function AsPropertyDictionary(s: string): (m: map<string, string>)
    ensures forall k :: k in m ==> |k| > 0
  {
    var pairs := DirectiveProperties(s);
    var m := UniquingKeys(pairs, KeepExisting);
    assert forall k :: k in m ==> |k| > 0 by {
      forall k | k in m ensures |k| > 0 {
        var i :| 0 <= i < |pairs| && pairs[i].0 == k;
        var pieces := Split(s, ',');
        assert PieceProperty(pieces[i]) == Some(pairs[i]);
      }
    }
    m
  }

  /** With the merge closure of the source, a key keeps the value of its first occurrence. */
  lemma {:induction false} KeepExistingKeepsFirst(pairs: seq<(string, string)>, i: nat)
    requires i < |pairs|
    requires forall j :: 0 <= j < i ==> pairs[j].0 != pairs[i].0
    ensures pairs[i].0 in UniquingKeys(pairs, KeepExisting)
    ensures UniquingKeys(pairs, KeepExisting)[pairs[i].0] == pairs[i].1
    decreases |pairs|
  {
    var prefix := pairs[..|pairs| - 1];
    if i == |pairs| - 1 {
      assert pairs[i].0 !in UniquingKeys(prefix, KeepExisting);
    } else {
      assert prefix[i] == pairs[i];
      KeepExistingKeepsFirst(prefix, i);
    }
  }

  /** The parsed keys are exactly the keys of the non-empty pieces: nothing else is added. */
  lemma PropertyDictionaryKeys(s: string, k: string)
    ensures k in AsPropertyDictionary(s) <==>
      exists piece :: piece in Split(s, ',') && PieceProperty(piece).value.0 == k
  {
    var pieces := Split(s, ',');
    var pairs := DirectiveProperties(s);
    if k in AsPropertyDictionary(s) {
      var i :| 0 <= i < |pairs| && pairs[i].0 == k;
      assert PieceProperty(pieces[i]).value.0 == k;
    }
    if exists piece :: piece in pieces && PieceProperty(piece).value.0 == k {
      var piece :| piece in pieces && PieceProperty(piece).value.0 == k;
      var i :| 0 <= i < |pieces| && pieces[i] == piece;
      assert pairs[i].0 == k;
    }
  }

  /** On duplicate keys the first occurrence's value is kept. */
  lemma PropertyDictionaryFirstWins(s: string, i: nat)
    requires i < |DirectiveProperties(s)|
    requires forall j :: 0 <= j < i ==> DirectiveProperties(s)[j].0 != DirectiveProperties(s)[i].0
    ensures AsPropertyDictionary(s)[DirectiveProperties(s)[i].0] == DirectiveProperties(s)[i].1
  {
    KeepExistingKeepsFirst(DirectiveProperties(s), i);
  }

  /** An empty header value yields an empty dictionary. */
  lemma EmptyStringParsesEmpty()
    ensures AsPropertyDictionary("") == map[]
  {
    SplitEmpty(',');
  }

  /** `k=v` with non-empty `k` and `v` free of `=` gives the pair `(k, v)`. */
  lemma PieceOfPair(k: string, v: string)
    requires |k| > 0 && |v| > 0 && '=' !in k && '=' !in v
    ensures PieceProperty(k + "=" + v) == Some((k, v))
  {
    SplitOfPrefix(k, '=', v);
    SplitOfRun(v, '=');
  }

  /** A bare key gives the key with the empty value. */
  lemma PieceOfBareKey(key: string)
    requires |key| > 0 && '=' !in key
    ensures PieceProperty(key) == Some((key, ""))
  {
    SplitOfRun(key, '=');
  }

  /** `a=b=c` splits into three parts, so the whole piece is the key and the value is empty. */
  lemma PieceOfChainedPairs(a: string, b: string, c: string)
    requires |a| > 0 && |b| > 0 && |c| > 0 && '=' !in a && '=' !in b && '=' !in c
    ensures PieceProperty(a + "=" + b + "=" + c) == Some((a + "=" + b + "=" + c, ""))
  {
    SplitOfPrefix(a, '=', b + "=" + c);
    SplitOfPrefix(b, '=', c);
    SplitOfRun(c, '=');
    assert a + "=" + b + "=" + c == a + ['='] + (b + ['='] + c);
  }

  lemma UniquingTwo(a: (string, string), b: (string, string), combine: (string, string) -> string)
    requires a.0 != b.0
    ensures UniquingKeys([a, b], combine) == map[a.0 := a.1, b.0 := b.1]
  {
    assert [a, b][..1] == [a];
    assert [a][..0] == [];
  }

  lemma CompactTwo(p1: string, p2: string)
    requires |p1| > 0 && |p2| > 0
    ensures CompactProperties([p1, p2]) == [PieceProperty(p1).value, PieceProperty(p2).value]
  {
    assert [p1, p2][1..] == [p2];
    assert [p2][1..] == [];
  }

  /** Two well-formed pieces with different keys parse to a two-entry dictionary. */
  lemma {:induction false} TwoPairs(k1: string, v1: string, k2: string, v2: string)
    requires |k1| > 0 && |v1| > 0 && '=' !in k1 && '=' !in v1 && ',' !in k1 + "=" + v1
    requires |k2| > 0 && |v2| > 0 && '=' !in k2 && '=' !in v2 && ',' !in k2 + "=" + v2
    requires k1 != k2
    ensures AsPropertyDictionary(k1 + "=" + v1 + "," + k2 + "=" + v2) == map[k1 := v1, k2 := v2]
  {
    var p1, p2 := k1 + "=" + v1, k2 + "=" + v2;
    var s := k1 + "=" + v1 + "," + k2 + "=" + v2;
    assert s == p1 + [','] + p2;
    SplitOfPrefix(p1, ',', p2);
    SplitOfRun(p2, ',');
    assert Split(s, ',') == [p1, p2];
    PieceOfPair(k1, v1);
    PieceOfPair(k2, v2);
    CompactTwo(p1, p2);
    UniquingTwo((k1, v1), (k2, v2), KeepExisting);
  }

  /** A comma at the start of a directive list is ignored. */
  lemma LeadingCommaIgnored(b: string)
    ensures AsPropertyDictionary("," + b) == AsPropertyDictionary(b)
  {
    LeadingSeparator(',', b);
  }

  /** Two commas in a row after a piece parse like one: `a=1,,b=2` is `a=1,b=2`. */
  lemma DoubledCommaIgnored(a: string, b: string)
    requires |a| > 0 && ',' !in a
    ensures AsPropertyDictionary(a + ",," + b) == AsPropertyDictionary(a + "," + b)
  {
    DoubledSeparator(a, ',', b);
  }

  /**
   * The directive list of the register tests, `variable1=value1,variable3=value3`,
   * with the literals passed in as parameters pinned by the precondition.
   */
  lemma ParsesTwoVariables(k1: string, v1: string, k2: string, v2: string)
    requires k1 == "variable1" && v1 == "value1" && k2 == "variable3" && v2 == "value3"
    ensures AsPropertyDictionary(k1 + "=" + v1 + "," + k2 + "=" + v2) == map[k1 := v1, k2 := v2]
  {
    assert k1 != k2 by { assert k1[8] != k2[8]; }
    TwoPairs(k1, v1, k2, v2);
  }
}
