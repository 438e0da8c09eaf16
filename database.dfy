/** Schema migrations: the migration files not yet recorded as applied are run in ascending
    file-name order. */
module Database {

  /** Go's `<=` on strings: lexicographic by character code, a proper prefix first. */
  predicate LessOrEqual(a: string, b: string)
  {
    a == [] || (b != [] && (a[0] < b[0] || (a[0] == b[0] && LessOrEqual(a[1..], b[1..]))))
  }

  lemma {:induction false} LessOrEqualTotal(a: string, b: string)
    ensures LessOrEqual(a, b) || LessOrEqual(b, a)
  {
    if a != [] && b != [] && a[0] == b[0] {
      LessOrEqualTotal(a[1..], b[1..]);
    }
  }

  lemma {:induction false} LessOrEqualTransitive(a: string, b: string, c: string)
    requires LessOrEqual(a, b) && LessOrEqual(b, c)
    ensures LessOrEqual(a, c)
  {
    if a != [] && a[0] == b[0] && b[0] == c[0] {
      LessOrEqualTransitive(a[1..], b[1..], c[1..]);
    }
  }

  predicate Sorted(s: seq<string>)
  {
    forall i, j :: 0 <= i < j < |s| ==> LessOrEqual(s[i], s[j])
  }

  /** Inserts `x` into a sorted list before the first element it does not follow. */
  function Insert(x: string, s: seq<string>): (r: seq<string>)
    requires Sorted(s)
    ensures Sorted(r)
    ensures multiset(r) == multiset(s) + multiset{x}
  {
    if s == [] then [x]
    else if LessOrEqual(x, s[0]) then
      assert forall j :: 0 <= j < |s| ==> LessOrEqual(x, s[j]) by {
        forall j | 0 <= j < |s| ensures LessOrEqual(x, s[j]) {
          if j > 0 { LessOrEqualTransitive(x, s[0], s[j]); }
        }
      }
      [x] + s
    else
      var rest := Insert(x, s[1..]);
      assert s == [s[0]] + s[1..];
      assert forall j :: 0 <= j < |rest| ==> LessOrEqual(s[0], rest[j]) by {
        LessOrEqualTotal(x, s[0]);
        forall j | 0 <= j < |rest| ensures LessOrEqual(s[0], rest[j]) {
          assert rest[j] in multiset(rest);
          if rest[j] != x {
            assert rest[j] in multiset(s[1..]);
            var k :| 0 <= k < |s[1..]| && s[1..][k] == rest[j];
            assert s[k + 1] == rest[j];
          }
        }
      }
      [s[0]] + rest
  }

  /** `sort.Strings`: the strings in ascending order. */
  function SortStrings(s: seq<string>): (r: seq<string>)
    ensures Sorted(r)
    ensures multiset(r) == multiset(s)
  {
    if s == [] then []
    else
      assert s == [s[0]] + s[1..];
      Insert(s[0], SortStrings(s[1..]))
  }

  /** The entries of `all` that do not occur in `applied`, in the order of `all`. */
  function Difference(all: seq<string>, applied: seq<string>): seq<string>
  {
    if all == [] then []
    else
      var last := all[|all| - 1];
      Difference(all[..|all| - 1], applied) + (if last in applied then [] else [last])
  }

  /** `a` can be obtained from `b` by deleting entries. */
  predicate IsSubsequence(a: seq<string>, b: seq<string>)
  {
    a == [] || (b != [] &&
      if a[|a| - 1] == b[|b| - 1] then IsSubsequence(a[..|a| - 1], b[..|b| - 1])
      else IsSubsequence(a, b[..|b| - 1]))
  }

  /** `migrationDifference`: collects, in order, each entry of `all` not found in `applied`. */
  method MigrationDifference(all: seq<string>, applied: seq<string>) returns (unapplied: seq<string>)
    ensures unapplied == Difference(all, applied)
  {
    unapplied := [];
    for i := 0 to |all|
      invariant unapplied == Difference(all[..i], applied)
    {
      var m := all[i];
      assert all[..i + 1][..i] == all[..i];
      if m !in applied {
        unapplied := unapplied + [m];
      }
    }
    assert all[..|all|] == all;
  }

  lemma {:induction false} DifferenceMembers(all: seq<string>, applied: seq<string>)
    ensures forall m :: m in Difference(all, applied) <==> m in all && m !in applied
  {
    if all != [] {
      var init := all[..|all| - 1];
      DifferenceMembers(init, applied);
      assert all == init + [all[|all| - 1]];
    }
  }

  lemma {:induction false} DifferenceIsSubsequence(all: seq<string>, applied: seq<string>)
    ensures IsSubsequence(Difference(all, applied), all)
    ensures |Difference(all, applied)| <= |all|
  {
    if all != [] {
      var init := all[..|all| - 1];
      DifferenceIsSubsequence(init, applied);
      var d := Difference(all, applied);
      if all[|all| - 1] !in applied {
        assert d[..|d| - 1] == Difference(init, applied);
      } else if d != [] {
        DifferenceMembers(init, applied);
        assert d == Difference(init, applied);
        assert d[|d| - 1] in d;
        assert d[|d| - 1] != all[|all| - 1];
      }
    }
  }

  lemma DifferenceWithNothingApplied(all: seq<string>)
    ensures Difference(all, []) == all
  {
    if all != [] {
      DifferenceWithNothingApplied(all[..|all| - 1]);
    }
  }

  lemma DifferenceWithEverythingApplied(all: seq<string>, applied: seq<string>)
    requires forall m :: m in all ==> m in applied
    ensures Difference(all, applied) == []
  {
    DifferenceMembers(all, applied);
  }

  /** Only which names occur in `applied` matters: not their order, their repetition, nor
      names that `all` does not contain. */
  lemma {:induction false} DifferenceDependsOnAppliedMembers(all: seq<string>, applied1: seq<string>, applied2: seq<string>)
    requires forall m :: m in all ==> (m in applied1 <==> m in applied2)
    ensures Difference(all, applied1) == Difference(all, applied2)
  {
    if all != [] {
      var init := all[..|all| - 1];
      assert forall m :: m in init ==> m in all;
      DifferenceDependsOnAppliedMembers(init, applied1, applied2);
    }
  }

  lemma {:induction false} DifferenceKeepsOrder(all: seq<string>, applied: seq<string>)
    requires Sorted(all)
    ensures Sorted(Difference(all, applied))
  {
    if all != [] {
      var init := all[..|all| - 1];
      var last := all[|all| - 1];
      DifferenceKeepsOrder(init, applied);
      DifferenceMembers(init, applied);
      var d := Difference(init, applied);
      forall m | m in d ensures LessOrEqual(m, last) {
        var k :| 0 <= k < |init| && init[k] == m;
      }
    }
  }

  /** The migration step of `runMigrations`: both lists are sorted, and the unapplied files are
      executed in that order. Returns the files executed, in order. */
  method RunMigrations(all: seq<string>, applied: seq<string>) returns (executed: seq<string>)
    ensures Sorted(executed)
    ensures forall m :: m in executed <==> m in all && m !in applied
    ensures IsSubsequence(executed, SortStrings(all))
  {
    var allSorted := SortStrings(all);
    var appliedSorted := SortStrings(applied);
    executed := MigrationDifference(allSorted, appliedSorted);
    DifferenceKeepsOrder(allSorted, appliedSorted);
    DifferenceIsSubsequence(allSorted, appliedSorted);
    DifferenceMembers(allSorted, appliedSorted);
    forall m ensures m in allSorted <==> m in all {
      assert m in multiset(allSorted) <==> m in multiset(all);
    }
    forall m ensures m in appliedSorted <==> m in applied {
      assert m in multiset(appliedSorted) <==> m in multiset(applied);
    }
  }
}
