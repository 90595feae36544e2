/** Choosing the name of the sheet the unpivoted table is written to
    (main.py:29-36): "Unpivot" if it is free, otherwise "Unpivot2",
    "Unpivot3", ... up to the first name the workbook does not have yet. */
module SheetNaming {
  import Decimal

  const BaseName: string := "Unpivot"

  /** The name tried at step `i` of the search: the base name at step 1,
      the base name followed by the decimal text of `i` afterwards. */
  function Candidate(i: nat): string
    requires i >= 1
  {
    if i == 1 then BaseName else BaseName + Decimal.NatToString(i)
  }

  /** Different steps of the search try different names. */
  lemma CandidateInjective(i: nat, j: nat)
    requires i >= 1 && j >= 1 && i != j
    ensures Candidate(i) != Candidate(j)
  {
    if i != 1 && j != 1 {
      if Candidate(i) == Candidate(j) {
        assert Decimal.NatToString(i) == Candidate(i)[|BaseName|..];
        assert Decimal.NatToString(j) == Candidate(j)[|BaseName|..];
        Decimal.NatToStringInjective(i, j);
      }
    } else if i == 1 {
      assert |Candidate(j)| > |BaseName|;
    } else {
      assert |Candidate(i)| > |BaseName|;
    }
  }

  /** Every name tried before step `i` is already a sheet of the workbook. */
  ghost predicate TriedBefore(sheetNames: seq<string>, i: nat)
    requires i >= 1
  {
    forall j :: 1 <= j < i ==> Candidate(j) in sheetNames
  }

  /** `name` is what the search settles on: the candidate of the first step
      whose name is not yet taken. */
  ghost predicate IsFirstFreeName(sheetNames: seq<string>, name: string) {
    exists i :: 1 <= i && name == Candidate(i) && name !in sheetNames && TriedBefore(sheetNames, i)
  }

  /** The elements of a list are no more than its length. */
  lemma {:induction false} DistinctNamesBound(names: seq<string>)
    ensures |set s | s in names| <= |names|
  {
    if names != [] {
      var rest := names[1..];
      DistinctNamesBound(rest);
      assert (set s | s in names) == (set s | s in rest) + {names[0]};
    }
  }

  /** The sheet-name search loop of main.py:31-36. The chosen name is not taken,
      every name tried before it is taken, and at most |sheetNames| + 1 names
      are tried. */
  method ChooseSheetName(sheetNames: seq<string>) returns (name: string)
    ensures name !in sheetNames
    ensures IsFirstFreeName(sheetNames, name)
    ensures exists i :: 1 <= i <= |sheetNames| + 1 && name == Candidate(i) && TriedBefore(sheetNames, i)
  {
    name := BaseName;
    var i: nat := 1;
    ghost var taken := set s | s in sheetNames;
    ghost var tried: set<string> := {};
    while name in sheetNames
      invariant 1 <= i
      invariant name == Candidate(i)
      invariant TriedBefore(sheetNames, i)
      invariant tried <= taken
      invariant |tried| == i - 1
      invariant forall s :: s in tried ==> exists j :: 1 <= j < i && s == Candidate(j)
      decreases |taken - tried|
    {
      CandidateNotTried(i, tried);
      FewerUntried(taken, tried, name);
      tried := tried + {name};
      i := i + 1;
      name := BaseName + Decimal.NatToString(i);
    }
    DistinctNamesBound(sheetNames);
    SubsetBound(tried, taken);
  }

  /** The name of step `i` is none of the names of the earlier steps. */
  lemma CandidateNotTried(i: nat, tried: set<string>)
    requires 1 <= i
    requires forall s :: s in tried ==> exists j :: 1 <= j < i && s == Candidate(j)
    ensures Candidate(i) !in tried
  {
    if Candidate(i) in tried {
      var j :| 1 <= j < i && Candidate(i) == Candidate(j);
      CandidateInjective(i, j);
    }
  }

  lemma FewerUntried(taken: set<string>, tried: set<string>, x: string)
    requires tried <= taken && x in taken && x !in tried
    ensures |taken - (tried + {x})| < |taken - tried|
  {
    assert taken - (tried + {x}) == (taken - tried) - {x};
  }

  lemma SubsetBound(small: set<string>, large: set<string>)
    requires small <= large
    ensures |small| <= |large|
  {
    assert |large - small| + |small| == |large| by {
      assert large == (large - small) + small;
    }
  }

  /** The search result is determined by the existing names alone. */
  lemma FirstFreeNameUnique(sheetNames: seq<string>, a: string, b: string)
    requires IsFirstFreeName(sheetNames, a) && IsFirstFreeName(sheetNames, b)
    ensures a == b
  {
    var i :| 1 <= i && a == Candidate(i) && a !in sheetNames && TriedBefore(sheetNames, i);
    var j :| 1 <= j && b == Candidate(j) && b !in sheetNames && TriedBefore(sheetNames, j);
  }

  /** A workbook without an "Unpivot" sheet gets one. */
  lemma BaseNameWhenFree(sheetNames: seq<string>, name: string)
    requires BaseName !in sheetNames
    requires IsFirstFreeName(sheetNames, name)
    ensures name == "Unpivot"
  {
    assert IsFirstFreeName(sheetNames, Candidate(1));
    FirstFreeNameUnique(sheetNames, name, Candidate(1));
  }

  /** With "Unpivot" and "Unpivot2" taken, the new sheet is "Unpivot3". */
  lemma ThirdNameWhenTwoTaken(name: string)
    requires IsFirstFreeName(["Unpivot", "Unpivot2"], name)
    ensures name == "Unpivot3"
  {
    var names := ["Unpivot", "Unpivot2"];
    assert Decimal.NatToString(2) == "2";
    assert Decimal.NatToString(3) == "3";
    assert Candidate(3) == "Unpivot3";
    assert TriedBefore(names, 3) by {
      forall j | 1 <= j < 3 ensures Candidate(j) in names {
        if j == 2 { assert Candidate(2) == names[1]; }
      }
    }
    assert IsFirstFreeName(names, Candidate(3));
    FirstFreeNameUnique(names, name, Candidate(3));
  }
}
