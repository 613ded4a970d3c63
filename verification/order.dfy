/**
 `runOrder` in tbl.go: reading the `tblTest.RunOrder` override, a comma-separated
 list of case indices. The flag's value is passed in rather than read from the
 process-wide flag set.
 */
module Order {
  import opened Wrappers
  import opened Strings
  import opened Strconv

  /** The indices the override names, and whether it applies. */
  datatype Override = Override(idx: seq<int>, ok: bool)

  /** The values of the tokens that parse as base-10 64-bit integers, in token
      order; tokens that do not parse are dropped. */
  function ParsedIndices(tokens: seq<string>): (r: seq<int>)
    ensures |r| <= |tokens|
    ensures forall k :: 0 <= k < |r| ==> IsInt64(r[k])
    decreases |tokens|
  {
    if |tokens| == 0 then []
    else
      match ParseInt(tokens[0])
      case Some(v) => [v] + ParsedIndices(tokens[1..])
      case None => ParsedIndices(tokens[1..])
  }

  /** `runOrder()`: an empty flag gives no override; otherwise split on commas,
      keep the tokens that parse (duplicates and any value included), and apply
      the override only if at least one token parsed. */
  function RunOrder(flag: string): (r: Override)
    ensures flag == "" ==> r == Override([], false)
    ensures r.ok <==> |r.idx| > 0
    ensures forall k :: 0 <= k < |r.idx| ==> IsInt64(r.idx[k])
  {
    if flag == "" then Override([], false)
    else
      var idx := ParsedIndices(Split(flag, ','));
      Override(idx, |idx| > 0)
  }

  /** Parsing is token by token: the indices of two token lists side by side are
      the indices of each, side by side. */
  lemma {:induction false} ParsedAppend(a: seq<string>, b: seq<string>)
    ensures ParsedIndices(a + b) == ParsedIndices(a) + ParsedIndices(b)
    decreases |a|
  {
    if |a| > 0 {
      assert (a + b)[0] == a[0];
      assert (a + b)[1..] == a[1..] + b;
      ParsedAppend(a[1..], b);
    } else {
      assert a + b == b;
    }
  }

  /** A single token contributes its value if it parses and nothing otherwise. */
  lemma ParsedSingle(t: string)
    ensures ParsedIndices([t]) == if ParseInt(t).Some? then [ParseInt(t).value] else []
  {
    assert [t][1..] == [];
  }

  /** The decimal spellings of a list of numbers. */
  function FormatAll(xs: seq<int>): (r: seq<string>)
    ensures |r| == |xs|
    ensures forall k :: 0 <= k < |r| ==> ',' !in r[k]
    decreases |xs|
  {
    if |xs| == 0 then []
    else
      assert ',' !in FormatInt(xs[0]) by {
        var s := FormatInt(xs[0]);
        forall k | 0 <= k < |s| ensures s[k] != ',' { }
      }
      [FormatInt(xs[0])] + FormatAll(xs[1..])
  }

  lemma {:induction false} ParseFormatAll(xs: seq<int>)
    requires forall k :: 0 <= k < |xs| ==> IsInt64(xs[k])
    ensures ParsedIndices(FormatAll(xs)) == xs
    decreases |xs|
  {
    if |xs| > 0 {
      ParseFormat(xs[0]);
      ParseFormatAll(xs[1..]);
      assert FormatAll(xs)[1..] == FormatAll(xs[1..]);
      assert xs == [xs[0]] + xs[1..];
    }
  }

  /** Writing a list of 64-bit indices as the override flag, comma-separated,
      makes `runOrder` return exactly that list, and the override applies
      exactly when the list is non-empty. */
  lemma RunOrderRoundTrip(xs: seq<int>)
    requires forall k :: 0 <= k < |xs| ==> IsInt64(xs[k])
    ensures RunOrder(Join(FormatAll(xs), ',')) == Override(xs, |xs| > 0)
  {
    var parts := FormatAll(xs);
    if |xs| == 0 {
      assert Join(parts, ',') == "";
    } else {
      SplitJoin(parts, ',');
      ParseFormatAll(xs);
      assert |Join(parts, ',')| >= |parts[0]| >= 1;
    }
  }
}
