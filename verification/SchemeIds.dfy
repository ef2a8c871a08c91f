/**
 Allocation of payee-scheme IDs: the two-part gap query and what it selects.
 */
module SchemeIds {

  /** First part of the query: 1, if no scheme has it. */
  function FirstPart(used: set<nat>): set<nat> {
    if 1 in used then {} else {1}
  }

  /** Second part of the query: every successor of an ID in use that is not itself in use. */
  function SecondPart(used: set<nat>): set<nat> {
    set id | id in used && GapAbove(used, id) :: id + 1
  }

  predicate GapAbove(used: set<nat>, id: nat) {
    id + 1 !in used
  }

  ghost predicate IsLeast(s: set<nat>, x: nat) {
    x in s && forall y :: y in s ==> x <= y
  }

  /** The row the whole query returns: least of the first part and the least of the second. */
  ghost predicate QueryReturns(used: set<nat>, id: nat) {
    IsLeast(FirstPart(used) + (set x | x in SecondPart(used) && IsLeast(SecondPart(used), x)), id)
  }

  /** The least positive ID that no scheme has. */
  ghost predicate IsLeastFree(used: set<nat>, id: nat) {
    id >= 1 && id !in used && forall j :: 1 <= j < id ==> j in used
  }

  lemma LeastExists(s: set<nat>) returns (x: nat)
    requires s != {}
    ensures IsLeast(s, x)
  {
    x :| x in s;
    while !IsLeast(s, x)
      invariant x in s
      decreases x
    {
      var y :| y in s && y < x;
      x := y;
    }
  }

  lemma GreatestExists(s: set<nat>) returns (x: nat)
    requires s != {}
    ensures x in s && forall y :: y in s ==> y <= x
    decreases |s|
  {
    x :| x in s;
    var rest := s - {x};
    assert forall y :: y in s ==> y == x || y in rest;
    if rest != {} {
      var y := GreatestExists(rest);
      x := if x < y then y else x;
    }
  }

  /** Every ID below a free one, down to the last gap, is in use: the gap is what the second part sees. */
  lemma GapBelow(used: set<nat>, free: nat)
    requires 1 in used && free >= 1 && free !in used
    ensures exists id :: id in SecondPart(used) && 1 < id <= free
    decreases free
  {
    if free - 1 in used {
      assert GapAbove(used, free - 1);
      assert free in SecondPart(used);
    } else {
      GapBelow(used, free - 1);
    }
  }

  lemma SecondPartLeast(used: set<nat>) returns (least: nat)
    requires 1 in used
    ensures IsLeast(SecondPart(used), least)
  {
    var top := GreatestExists(used);
    assert GapAbove(used, top) && top + 1 in SecondPart(used);
    least := LeastExists(SecondPart(used));
  }

  lemma SecondPartIsFree(used: set<nat>, least: nat)
    requires 1 in used && IsLeast(SecondPart(used), least)
    ensures IsLeastFree(used, least)
  {
    forall j | 1 <= j < least
      ensures j in used
    {
      if j !in used {
        GapBelow(used, j);
      }
    }
  }

  lemma LeastUnique(s: set<nat>, a: nat, b: nat)
    requires IsLeast(s, a) && IsLeast(s, b)
    ensures a == b
  {
  }

  /** The query returns a row, and that row is the least free ID. */
  lemma QueryAnswers(used: set<nat>) returns (r: nat)
    ensures QueryReturns(used, r) && IsLeastFree(used, r)
  {
    if 1 !in used {
      r := 1;
    } else {
      r := SecondPartLeast(used);
      SecondPartIsFree(used, r);
      assert FirstPart(used) + (set x | x in SecondPart(used) && IsLeast(SecondPart(used), x)) == {r} by {
        forall x | IsLeast(SecondPart(used), x)
          ensures x == r
        {
          LeastUnique(SecondPart(used), x, r);
        }
      }
    }
  }

  /** Two least free IDs of the same set are equal, so allocation is a function of the IDs in use. */
  lemma LeastFreeUnique(used: set<nat>, a: nat, b: nat)
    requires IsLeastFree(used, a) && IsLeastFree(used, b)
    ensures a == b
  {
  }

  /**
   For every finite set of IDs in use the query returns a row, and a row it returns is the
   least free positive ID; conversely the least free ID is a row it returns.
   */
  lemma QueryIsLeastFree(used: set<nat>, id: nat)
    ensures exists r :: QueryReturns(used, r)
    ensures QueryReturns(used, id) <==> IsLeastFree(used, id)
  {
    var r := QueryAnswers(used);
    if IsLeastFree(used, id) {
      LeastFreeUnique(used, id, r);
    }
    if QueryReturns(used, id) {
      LeastUnique(FirstPart(used) + (set x | x in SecondPart(used) && IsLeast(SecondPart(used), x)), id, r);
    }
  }

  ghost function LeastFree(used: set<nat>): (id: nat)
    ensures IsLeastFree(used, id)
  {
    QueryIsLeastFree(used, 0);
    var r :| QueryReturns(used, r);
    QueryIsLeastFree(used, r);
    r
  }

  method Least(s: set<nat>) returns (x: nat)
    requires s != {}
    ensures IsLeast(s, x)
  {
    x :| x in s;
    var rest := s - {x};
    while rest != {}
      invariant x in s && rest <= s
      invariant forall y :: y in s ==> y in rest || x <= y
      decreases |rest|
    {
      var y :| y in rest;
      if y < x {
        x := y;
      }
      rest := rest - {y};
    }
  }

  /** The query as the database evaluates it. */
  method SelectLowestAvailable(used: set<nat>) returns (id: nat)
    ensures IsLeastFree(used, id)
  {
    QueryIsLeastFree(used, 0);
    var first := FirstPart(used);
    var second := SecondPart(used);
    if second == {} {
      id := Least(first);
    } else {
      var least := Least(second);
      assert (set x | x in second && IsLeast(second, x)) == {least};
      id := Least(first + {least});
    }
    assert QueryReturns(used, id);
    QueryIsLeastFree(used, id);
  }

  /** After allocating, the next allocation is higher: gaps are filled from below. */
  lemma AllocationsAscend(used: set<nat>, a: nat, b: nat)
    requires IsLeastFree(used, a) && IsLeastFree(used + {a}, b)
    ensures a < b && b !in used
  {
  }
}
