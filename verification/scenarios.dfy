/** Concrete runs of the table runner on small inputs. */
module Scenarios {
  import opened Wrappers
  import opened Reflect
  import opened Table
  import opened Order
  import opened Strings
  import opened Strconv
  import opened Shapes
  import opened Dispatch
  import opened Permutations
  import opened Runner

  const CaseType: TypeToken := Named("testcase")

  /** A table of four cases of one type. */
  function FourCases(): (tc: Test<int>)
    ensures |tc.cases| == 4 && tc.vType == Some(CaseType)
  {
    Test([Valid(CaseType, 10), Valid(CaseType, 11), Valid(CaseType, 12), Valid(CaseType, 13)],
         Some(CaseType), false)
  }

  /** `func(idx int, tc testcase)`, which never stops a run. */
  function IndexedNoResult(): Callable<int> {
    Callable(Form(Shape(true, false), CaseType), (h, p) => true)
  }

  lemma ParseSmall()
    ensures ParseInt("1") == Some(1) && ParseInt("2") == Some(2)
    ensures ParseInt("3") == Some(3) && ParseInt("9") == Some(9)
  {
  }

  /** The flag "1,3,1" parses to 1, 3, 1, duplicates kept. */
  lemma FlagWithDuplicates()
    ensures RunOrder("1,3,1") == Override([1, 3, 1], true)
  {
    ParseSmall();
    assert Join(["1", "3", "1"], ',') == "1,3,1" by {
      assert Join(["1"], ',') == "1";
      assert Join(["3", "1"], ',') == "3,1";
      assert Join(["1", "3", "1"], ',') == "1,3,1";
    }
    SplitJoin(["1", "3", "1"], ',');
  }

  /** The flag "1,9,2" parses to 1, 9, 2: range is not checked when parsing. */
  lemma FlagOutOfRange()
    ensures RunOrder("1,9,2") == Override([1, 9, 2], true)
  {
    ParseSmall();
    assert Join(["1", "9", "2"], ',') == "1,9,2" by {
      assert Join(["2"], ',') == "2";
      assert Join(["9", "2"], ',') == "9,2";
      assert Join(["1", "9", "2"], ',') == "1,9,2";
    }
    SplitJoin(["1", "9", "2"], ',');
  }

  /** A leading sign is accepted; a leading space is not. */
  lemma ParseSigned()
    ensures ParseInt("-1") == Some(-1)
    ensures ParseInt("+2") == Some(2)
    ensures ParseInt(" 3") == None
  {
    assert "-1"[1..] == "1";
    assert "+2"[1..] == "2";
    assert DigitsValue("1") == 1;
    assert DigitsValue("2") == 2;
  }

  /** Signs are accepted, a token with a space is dropped. */
  lemma FlagWithSignsAndSpace()
    ensures RunOrder("-1,+2, 3") == Override([-1, 2], true)
  {
    var parts := ["-1", "+2", " 3"];
    assert Join(parts, ',') == "-1,+2, 3" by {
      assert Join([" 3"], ',') == " 3";
      assert Join(["+2", " 3"], ',') == "+2, 3";
    }
    SplitJoin(parts, ',');
    ParseSigned();
    var last: seq<string> := [" 3"];
    assert last[1..] == [];
    assert ParsedIndices(last) == [];
    var rest: seq<string> := ["+2"] + last;
    assert rest[0] == "+2" && rest[1..] == last;
    assert ParsedIndices(rest) == [2];
    assert parts == ["-1"] + rest;
    assert parts[0] == "-1" && parts[1..] == rest;
    assert ParsedIndices(parts) == [-1, 2];
  }

  /** A non-empty flag in which nothing parses is no override. */
  lemma FlagWithoutNumbers()
    ensures RunOrder("a,,b") == Override([], false)
  {
    assert Join(["a", "", "b"], ',') == "a,,b" by {
      assert Join(["b"], ',') == "b";
      assert Join(["", "b"], ',') == ",b";
      assert Join(["a", "", "b"], ',') == "a,,b";
    }
    SplitJoin(["a", "", "b"], ',');
  }

  /** The four-element permutation in which `rand.Perm` happens to keep the order. */
  lemma IdentityPermutation()
    ensures IsPermutation([0, 1, 2, 3], 4)
  {
    assert Range(4) == [0, 1, 2, 3];
  }

  /** Override "1,3,1" on four cases: the function sees 1, 3, 1, three calls. */
  lemma OverrideWithDuplicates()
    ensures Run(FourCases(), IndexedNoResult(), Env("1,3,1", [0, 1, 2, 3])).Ok?
    ensures Run(FourCases(), IndexedNoResult(), Env("1,3,1", [0, 1, 2, 3])).value.visited == [1, 3, 1]
    ensures Run(FourCases(), IndexedNoResult(), Env("1,3,1", [0, 1, 2, 3])).value.count == 3
  {
    FlagWithDuplicates();
    IdentityPermutation();
    ClassifyForm(Shape(true, false), CaseType);
    RunOverridden(FourCases(), IndexedNoResult(), Env("1,3,1", [0, 1, 2, 3]));
    assert InRange([1, 3, 1], 4) == [1, 3, 1];
  }

  /** Override "1,9,2" on four cases: 9 is skipped, the function sees 1 and 2. */
  lemma OverrideOutOfRange()
    ensures Run(FourCases(), IndexedNoResult(), Env("1,9,2", [0, 1, 2, 3])).Ok?
    ensures Run(FourCases(), IndexedNoResult(), Env("1,9,2", [0, 1, 2, 3])).value.visited == [1, 2]
    ensures Run(FourCases(), IndexedNoResult(), Env("1,9,2", [0, 1, 2, 3])).value.count == 2
  {
    FlagOutOfRange();
    IdentityPermutation();
    ClassifyForm(Shape(true, false), CaseType);
    RunOverridden(FourCases(), IndexedNoResult(), Env("1,9,2", [0, 1, 2, 3]));
    assert InRange([1, 9, 2], 4) == [1, 2];
  }

  /** Two cases of different types: `Cases` panics at the second one. */
  lemma MixedTypesAbort()
    ensures Cases([Valid(IntType, 1), Valid(Named("string"), 2)]) == Abort(CaseTypeMismatch(1))
    ensures Cases([Valid(IntType, 1), Invalid]) == Abort(InvalidCase(1))
  {
  }

  /** A three-parameter function, and a one-parameter function of the wrong type,
      are rejected before any call. */
  lemma BadFormsAbort()
    ensures Run(FourCases(), Callable(FuncType([IntType, CaseType, CaseType], []), (h, p) => true),
                Env("", [0, 1, 2, 3])) == Abort(ParamCount)
    ensures Run(FourCases(), Callable(FuncType([IntType], []), (h, p) => true),
                Env("", [0, 1, 2, 3])) == Abort(ParamType(0))
    ensures Run(FourCases(), Callable(FuncType([CaseType], [IntType]), (h, p) => true),
                Env("", [0, 1, 2, 3])) == Abort(ResultType)
  {
  }
}
