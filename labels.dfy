/**
 * The label set of a sample key, a `BTreeMap<String, String>` in the
 * source: its entries in iteration order (ascending key), `insert` with
 * replace semantics, `format_labels`, and a reader for the label text.
 */
module LabelMaps {
  import opened Wrappers
  import opened Text

  type Label = (string, string)

  /** Keys strictly ascending in the order of `String`. */
  predicate SortedKeys(ps: seq<Label>) {
    forall i, j :: 0 <= i < j < |ps| ==> Less(ps[i].0, ps[j].0)
  }

  /** A `BTreeMap<String, String>`, as the list of its entries in iteration order. */
  type LabelMap = ps: seq<Label> | SortedKeys(ps)

  /** The mapping a list of entries stands for (for a repeated key, the first entry wins). */
  function ToMap(ps: seq<Label>): map<string, string>
    decreases |ps|
  {
    if ps == [] then map[] else ToMap(ps[1..])[ps[0].0 := ps[0].1]
  }

  /** The keys of the mapping are exactly the keys of the entries. */
  lemma {:induction false} ToMapKeys(ps: seq<Label>)
    ensures forall i :: 0 <= i < |ps| ==> ps[i].0 in ToMap(ps)
    ensures forall k :: k in ToMap(ps) ==> exists i :: 0 <= i < |ps| && ps[i].0 == k
    decreases |ps|
  {
    if ps != [] {
      ToMapKeys(ps[1..]);
      forall k | k in ToMap(ps) ensures exists i :: 0 <= i < |ps| && ps[i].0 == k {
        if k != ps[0].0 {
          var i :| 0 <= i < |ps[1..]| && ps[1..][i].0 == k;
          assert ps[i + 1].0 == k;
        }
      }
    }
  }

  /** In a sorted list every later key is above the first one. */
  lemma HeadBelowTail(l: LabelMap, k: string)
    requires |l| > 0 && k in ToMap(l[1..])
    ensures Less(l[0].0, k)
  {
    ToMapKeys(l[1..]);
    var i :| 0 <= i < |l[1..]| && l[1..][i].0 == k;
    assert l[i + 1].0 == k;
  }

  /**
   * A label map is determined by the mapping it stands for: two maps with
   * the same entries are the same list, so whatever is rendered from the
   * list depends only on the mapping.
   */
  lemma {:induction false} Canonical(a: LabelMap, b: LabelMap)
    requires ToMap(a) == ToMap(b)
    ensures a == b
    decreases |a|
  {
    if a != [] && b != [] {
      var ka, kb := a[0].0, b[0].0;
      assert ka == kb by {
        if ka != kb {
          assert ToMap(a) == ToMap(a[1..])[ka := a[0].1];
          assert ToMap(b) == ToMap(b[1..])[kb := b[0].1];
          assert ka in ToMap(a) && kb in ToMap(b);
          assert ka in ToMap(b) && kb in ToMap(a);
          assert ka in ToMap(b[1..]) && kb in ToMap(a[1..]);
          HeadBelowTail(b, ka);
          HeadBelowTail(a, kb);
          LessTotal(ka, kb);
        }
      }
      assert a[0].1 == ToMap(a)[ka] == ToMap(b)[kb] == b[0].1;
      assert ka !in ToMap(a[1..]) by {
        if ka in ToMap(a[1..]) {
          HeadBelowTail(a, ka);
          LessIrreflexive(ka);
        }
      }
      assert kb !in ToMap(b[1..]) by {
        if kb in ToMap(b[1..]) {
          HeadBelowTail(b, kb);
          LessIrreflexive(kb);
        }
      }
      assert ToMap(a[1..]) == ToMap(a) - {ka};
      assert ToMap(b[1..]) == ToMap(b) - {kb};
      Canonical(a[1..], b[1..]);
      assert a == [a[0]] + a[1..] && b == [b[0]] + b[1..];
    } else {
      ToMapKeys(a);
      ToMapKeys(b);
    }
  }

  /**
   * `BTreeMap::insert(k, v)`: afterwards `k` maps to `v` (an earlier value
   * for `k` is replaced) and every other key keeps its value; the entry for
   * `k` lands in its sorted position.
   */
  function Insert(l: LabelMap, k: string, v: string): (r: LabelMap)
    ensures ToMap(r) == ToMap(l)[k := v]
    decreases |l|
  {
    if |l| == 0 then [(k, v)]
    else if l[0].0 == k then
      ReplaceFirst(l, v);
      [(k, v)] + l[1..]
    else if Less(k, l[0].0) then
      PrependBelow(l, k, v);
      [(k, v)] + l
    else
      var rest := Insert(l[1..], k, v);
      KeepFirst(l, k, v, rest);
      KeepFirstMap(l, k, v, rest);
      [l[0]] + rest
  }

  /** Replacing the value of the first key keeps the list sorted. */
  lemma ReplaceFirst(l: LabelMap, v: string)
    requires |l| > 0
    ensures SortedKeys([(l[0].0, v)] + l[1..])
    ensures ToMap([(l[0].0, v)] + l[1..]) == ToMap(l)[l[0].0 := v]
  {
    var k := l[0].0;
    assert ([(k, v)] + l[1..])[1..] == l[1..];
    assert ToMap(l) == ToMap(l[1..])[k := l[0].1];
    assert ToMap(l)[k := v] == ToMap(l[1..])[k := v];
  }

  /** A key below the first one goes in front. */
  lemma PrependBelow(l: LabelMap, k: string, v: string)
    requires |l| > 0 && Less(k, l[0].0)
    ensures SortedKeys([(k, v)] + l)
    ensures ToMap([(k, v)] + l) == ToMap(l)[k := v]
  {
    forall j | 0 < j < |l| ensures Less(k, l[j].0) {
      LessTransitive(k, l[0].0, l[j].0);
    }
    assert ([(k, v)] + l)[1..] == l;
  }

  /** A key above the first one goes into the rest; the first entry stays in front. */
  lemma KeepFirst(l: LabelMap, k: string, v: string, rest: LabelMap)
    requires |l| > 0 && l[0].0 != k && !Less(k, l[0].0)
    requires ToMap(rest) == ToMap(l[1..])[k := v]
    ensures SortedKeys([l[0]] + rest)
  {
    var r := [l[0]] + rest;
    assert Less(l[0].0, k) by {
      LessTotal(k, l[0].0);
    }
    ToMapKeys(rest);
    forall j | 0 <= j < |rest| ensures Less(l[0].0, rest[j].0) {
      if rest[j].0 != k {
        assert rest[j].0 in ToMap(l[1..]);
        HeadBelowTail(l, rest[j].0);
      }
    }
    assert forall j :: 0 < j < |r| ==> r[j] == rest[j - 1];
  }

  /** Inserting behind the first entry commutes with the first entry's own update. */
  lemma KeepFirstMap(l: LabelMap, k: string, v: string, rest: seq<Label>)
    requires |l| > 0 && l[0].0 != k
    requires ToMap(rest) == ToMap(l[1..])[k := v]
    ensures ToMap([l[0]] + rest) == ToMap(l)[k := v]
  {
    assert ([l[0]] + rest)[1..] == rest;
    var m := ToMap(l[1..]);
    assert ToMap([l[0]] + rest) == m[k := v][l[0].0 := l[0].1];
    assert m[k := v][l[0].0 := l[0].1] == m[l[0].0 := l[0].1][k := v];
  }

  /** Every entry after an insert is the inserted one or an entry from before. */
  lemma {:induction false} InsertEntries(l: LabelMap, k: string, v: string)
    ensures forall j :: 0 <= j < |Insert(l, k, v)| ==> Insert(l, k, v)[j] == (k, v) || Insert(l, k, v)[j] in l
    decreases |l|
  {
    if |l| > 0 && l[0].0 != k && !Less(k, l[0].0) {
      InsertEntries(l[1..], k, v);
      var rest := Insert(l[1..], k, v);
      assert Insert(l, k, v) == [l[0]] + rest;
      forall j | 0 <= j < |rest| ensures rest[j] == (k, v) || rest[j] in l {
        if rest[j] != (k, v) {
          var i :| 0 <= i < |l[1..]| && l[1..][i] == rest[j];
          assert l[i + 1] == rest[j];
        }
      }
    }
  }

  /** One entry as `key="value"`; the value is written verbatim, without escaping. */
  function LabelText(p: Label): string {
    p.0 + "=\"" + p.1 + "\""
  }

  function LabelTexts(ps: seq<Label>): seq<string> {
    seq(|ps|, i requires 0 <= i < |ps| => LabelText(ps[i]))
  }

  /**
   * `format_labels`: the empty string for an empty map, and otherwise the
   * `key="value"` entries in ascending key order joined by commas.
   */
  function FormatLabels(l: LabelMap): (r: string)
    ensures r == "" <==> |l| == 0
  {
    if |l| == 0 then "" else Join(",", LabelTexts(l))
  }

  predicate LabelNameChar(c: char) {
    'a' <= c <= 'z' || 'A' <= c <= 'Z' || '0' <= c <= '9' || c == '_'
  }

  /** A label name of the exposition format: letters, digits and underscores, not empty. */
  predicate IsLabelName(k: string) {
    |k| > 0 && forall i :: 0 <= i < |k| ==> LabelNameChar(k[i])
  }

  /** Entries whose text reads back unambiguously: proper names, values free of `"`. */
  predicate Readable(ps: seq<Label>) {
    forall i :: 0 <= i < |ps| ==> IsLabelName(ps[i].0) && Avoids(ps[i].1, {'"'})
  }

  /** Reads one `key="value"` entry and returns what follows it. */
  function ParseLabel(s: string): (r: Option<(Label, string)>)
    ensures r.Some? ==> |r.value.1| < |s|
  {
    var (k, afterKey) := Span(s, {'='});
    if |afterKey| < 2 || afterKey[1] != '"' then None
    else
      var (v, afterValue) := Span(afterKey[2..], {'"'});
      if afterValue == [] then None else Some(((k, v), afterValue[1..]))
  }

  /** Reads comma-separated entries, stopping at the first entry not followed by a comma. */
  function ParseLabelList(s: string): (r: Option<(seq<Label>, string)>)
    ensures r.Some? ==> |r.value.1| < |s|
    decreases |s|
  {
    match ParseLabel(s)
    case None => None
    case Some((p, rest)) =>
      if |rest| > 0 && rest[0] == ',' then
        match ParseLabelList(rest[1..])
        case None => None
        case Some((ps, rest')) => Some(([p] + ps, rest'))
      else Some(([p], rest))
  }

  lemma ParseLabelOfText(p: Label, rest: string)
    requires IsLabelName(p.0) && Avoids(p.1, {'"'})
    ensures ParseLabel(LabelText(p) + rest) == Some((p, rest))
  {
    var afterKey := "=\"" + p.1 + "\"" + rest;
    assert LabelText(p) + rest == p.0 + afterKey;
    SpanOf(p.0, afterKey, {'='});
    assert afterKey[2..] == p.1 + ("\"" + rest);
    SpanOf(p.1, "\"" + rest, {'"'});
  }

  lemma JoinLabelTexts(ps: seq<Label>)
    requires |ps| > 1
    ensures Join(",", LabelTexts(ps)) == LabelText(ps[0]) + "," + Join(",", LabelTexts(ps[1..]))
  {
    assert LabelTexts(ps)[1..] == LabelTexts(ps[1..]);
  }

  /** The text of a nonempty readable entry list reads back as that list, leaving what follows. */
  lemma {:induction false} ParseLabelListOfText(ps: seq<Label>, rest: string)
    requires |ps| > 0 && Readable(ps)
    requires rest == [] || rest[0] != ','
    ensures ParseLabelList(Join(",", LabelTexts(ps)) + rest) == Some((ps, rest))
    decreases |ps|
  {
    if |ps| == 1 {
      assert Join(",", LabelTexts(ps)) == LabelText(ps[0]);
      ParseLabelOfText(ps[0], rest);
      assert [ps[0]] == ps;
    } else {
      var tail := Join(",", LabelTexts(ps[1..]));
      var afterHead := "," + (tail + rest);
      assert Join(",", LabelTexts(ps)) + rest == LabelText(ps[0]) + afterHead by {
        JoinLabelTexts(ps);
        Regroup(LabelText(ps[0]), ",", tail, rest);
      }
      ParseLabelOfText(ps[0], afterHead);
      assert afterHead[1..] == tail + rest;
      ParseLabelListOfText(ps[1..], rest);
      assert [ps[0]] + ps[1..] == ps;
    }
  }

  /** The entries are written in ascending key order, whatever the order of insertion. */
  lemma SortedRendering()
    ensures FormatLabels(Insert(Insert([], "b", "2"), "a", "1")) == "a=\"1\",b=\"2\""
  {
    assert Less("a", "b");
    assert Insert(Insert([], "b", "2"), "a", "1") == [("a", "1"), ("b", "2")];
  }

  /**
   * Values are not escaped, so two different label maps can produce the
   * same text: a value holding `",b="` passes for a second entry.
   */
  lemma ValuesNotEscaped()
    ensures var one: LabelMap := [("a", "1\",b=\"2")];
            var two: LabelMap := Insert([("a", "1")], "b", "2");
            ToMap(one) != ToMap(two) && FormatLabels(one) == FormatLabels(two)
  {
    assert Less("a", "b");
    var two: LabelMap := Insert([("a", "1")], "b", "2");
    assert two == [("a", "1"), ("b", "2")];
    assert "b" in ToMap(two);
    assert ToMap([("a", "1\",b=\"2")]) == map["a" := "1\",b=\"2"];
  }
}
