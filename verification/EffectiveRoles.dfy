/**
 Which single role represents a cashier when a price override is decided: the one with the highest
 priority among the roles that take part in the hierarchy, a tie broken only by a sole primary role.
 */
module EffectiveRoles {
  import opened Options

  datatype Role = Role(id: string, name: string, priority: int, isHierarchyParticipant: bool)

  datatype UserRoleRow = UserRoleRow(isPrimary: bool, role: Option<Role>)

  datatype EffectiveRole = EffectiveRole(roleId: string, roleName: string, priority: int)

  predicate Eligible(row: UserRoleRow) {
    row.role.Some? && row.role.value.isHierarchyParticipant && row.role.value.name != "superadmin"
  }

  function EligibleRows(rows: seq<UserRoleRow>): (r: seq<UserRoleRow>)
    ensures forall i :: 0 <= i < |r| ==> r[i] in rows && Eligible(r[i])
  {
    if rows == [] then []
    else (if Eligible(rows[0]) then [rows[0]] else []) + EligibleRows(rows[1..])
  }

  /** Only consulted for rows that have a role. */
  function Priority(row: UserRoleRow): int {
    if row.role.Some? then row.role.value.priority else 0
  }

  function WithPriority(rows: seq<UserRoleRow>, p: int): (r: seq<UserRoleRow>)
    ensures forall i :: 0 <= i < |r| ==> r[i] in rows && Priority(r[i]) == p
  {
    if rows == [] then []
    else (if Priority(rows[0]) == p then [rows[0]] else []) + WithPriority(rows[1..], p)
  }

  function Primaries(rows: seq<UserRoleRow>): (r: seq<UserRoleRow>)
    ensures forall i :: 0 <= i < |r| ==> r[i] in rows && r[i].isPrimary
  {
    if rows == [] then []
    else (if rows[0].isPrimary then [rows[0]] else []) + Primaries(rows[1..])
  }

  function MaxPriority(rows: seq<UserRoleRow>): int
    requires rows != []
  {
    var p := Priority(rows[0]);
    if |rows| == 1 || p >= MaxPriority(rows[1..]) then p else MaxPriority(rows[1..])
  }

  function ToEffectiveRole(row: UserRoleRow): EffectiveRole
    requires row.role.Some?
  {
    EffectiveRole(row.role.value.id, row.role.value.name, row.role.value.priority)
  }

  /** `None` for the rows stands for a failed query. */
  function ResolveEffectiveRole(rows: Option<seq<UserRoleRow>>): Option<EffectiveRole> {
    if rows.None? then None else
    var eligible := EligibleRows(rows.value);
    if eligible == [] then None else
    var candidates := WithPriority(eligible, MaxPriority(eligible));
    if |candidates| == 1 then Some(ToEffectiveRole(candidates[0])) else
    var primaries := Primaries(candidates);
    if |primaries| == 1 then Some(ToEffectiveRole(primaries[0])) else None
  }

  // An order-free account of the same choice, on the multiset of rows.

  /** The row takes part in the hierarchy, superadmin never does, and no row that takes part has a higher priority. */
  ghost predicate TopEligible(rows: multiset<UserRoleRow>, row: UserRoleRow) {
    && row in rows && row.role.Some? && row.role.value.isHierarchyParticipant && row.role.value.name != "superadmin"
    && forall other :: other in rows && other.role.Some? && other.role.value.isHierarchyParticipant && other.role.value.name != "superadmin" ==>
         other.role.value.priority <= row.role.value.priority
  }

  /** The only row, counted with multiplicity, that satisfies p. */
  ghost predicate Sole(rows: multiset<UserRoleRow>, p: UserRoleRow -> bool, row: UserRoleRow) {
    && p(row) && rows[row] == 1
    && forall other :: other in rows && p(other) ==> other == row
  }

  ghost predicate Represents(rows: multiset<UserRoleRow>, row: UserRoleRow) {
    || Sole(rows, (r: UserRoleRow) => TopEligible(rows, r), row)
    || (row in rows && TopEligible(rows, row) && Sole(rows, (r: UserRoleRow) => TopEligible(rows, r) && r.isPrimary, row))
  }

  /** s lists the rows of `rows` that satisfy p, each as often as it occurs. */
  ghost predicate Selects(s: seq<UserRoleRow>, rows: multiset<UserRoleRow>, p: UserRoleRow -> bool) {
    forall r :: multiset(s)[r] == if p(r) then rows[r] else 0
  }

  lemma {:induction false} EligibleRowsSelects(rows: seq<UserRoleRow>)
    ensures Selects(EligibleRows(rows), multiset(rows), (r: UserRoleRow) => Eligible(r))
  {
    if rows != [] {
      EligibleRowsSelects(rows[1..]);
      assert rows == [rows[0]] + rows[1..];
    }
  }

  lemma {:induction false} WithPrioritySelects(rows: seq<UserRoleRow>, p: int)
    ensures Selects(WithPriority(rows, p), multiset(rows), (r: UserRoleRow) => Priority(r) == p)
  {
    if rows != [] {
      WithPrioritySelects(rows[1..], p);
      assert rows == [rows[0]] + rows[1..];
    }
  }

  lemma {:induction false} PrimariesSelects(rows: seq<UserRoleRow>)
    ensures Selects(Primaries(rows), multiset(rows), (r: UserRoleRow) => r.isPrimary)
  {
    if rows != [] {
      PrimariesSelects(rows[1..]);
      assert rows == [rows[0]] + rows[1..];
    }
  }

  lemma {:induction false} MaxPriorityIsMax(rows: seq<UserRoleRow>)
    requires rows != []
    ensures forall r :: r in rows ==> Priority(r) <= MaxPriority(rows)
    ensures exists r :: r in rows && Priority(r) == MaxPriority(rows)
  {
    assert rows[0] in rows;
    if |rows| > 1 {
      MaxPriorityIsMax(rows[1..]);
      var r :| r in rows[1..] && Priority(r) == MaxPriority(rows[1..]);
      assert rows == [rows[0]] + rows[1..];
    }
  }

  lemma SelectionOfOne(s: seq<UserRoleRow>, rows: multiset<UserRoleRow>, p: UserRoleRow -> bool)
    requires Selects(s, rows, p)
    ensures |s| == 1 ==> Sole(rows, p, s[0])
    ensures forall r :: Sole(rows, p, r) ==> s == [r]
    ensures forall r :: r in s <==> r in rows && p(r)
  {
    forall r ensures r in s <==> r in rows && p(r) {
      assert r in s <==> multiset(s)[r] > 0;
    }
    if |s| == 1 {
      assert s == [s[0]];
      assert multiset(s) == multiset{s[0]};
    }
    forall r | Sole(rows, p, r) ensures s == [r] {
      assert multiset(s)[r] == 1;
      assert forall other :: other != r ==> multiset(s)[other] == 0;
      assert multiset(s) == multiset{r};
      assert |multiset(s)| == |s|;
    }
  }

  lemma TopIsMaxPriority(all: multiset<UserRoleRow>, eligible: seq<UserRoleRow>, r: UserRoleRow)
    requires eligible != [] && forall e :: e in eligible <==> e in all && Eligible(e)
    requires r in all
    ensures TopEligible(all, r) <==> Eligible(r) && Priority(r) == MaxPriority(eligible)
  {
    hide MaxPriority;
    MaxPriorityIsMax(eligible);
    var best :| best in eligible && Priority(best) == MaxPriority(eligible);
    assert best in all;
  }

  lemma CandidatesAreTop(rows: seq<UserRoleRow>)
    requires EligibleRows(rows) != []
    ensures var eligible := EligibleRows(rows);
            && Selects(WithPriority(eligible, MaxPriority(eligible)), multiset(rows), (r: UserRoleRow) => TopEligible(multiset(rows), r))
            && WithPriority(eligible, MaxPriority(eligible)) != []
  {
    hide Eligible, TopEligible, EligibleRows, WithPriority, MaxPriority, Priority;
    var eligible, all := EligibleRows(rows), multiset(rows);
    var top := MaxPriority(eligible);
    EligibleRowsSelects(rows);
    SelectionOfOne(eligible, all, (r: UserRoleRow) => Eligible(r));
    WithPrioritySelects(eligible, top);
    SelectionOfOne(WithPriority(eligible, top), multiset(eligible), (r: UserRoleRow) => Priority(r) == top);
    MaxPriorityIsMax(eligible);
    forall r | r in all ensures TopEligible(all, r) <==> Eligible(r) && Priority(r) == top {
      TopIsMaxPriority(all, eligible, r);
    }
  }

  /**
   The resolved role is the sole top-priority eligible one, else the sole primary one among the tied,
   else none. Stated on the multiset of rows, so row order cannot matter.
   */
  lemma EffectiveRoleIsRepresentative(rows: seq<UserRoleRow>)
    ensures match ResolveEffectiveRole(Some(rows))
            case Some(role) =>
              exists row :: Represents(multiset(rows), row) && row.role.Some? && row.role.value.id == role.roleId
                            && row.role.value.name == role.roleName && row.role.value.priority == role.priority
            case None => forall row :: !Represents(multiset(rows), row)
    ensures forall a, b :: Represents(multiset(rows), a) && Represents(multiset(rows), b) ==> a == b
    ensures ResolveEffectiveRole(None).None?
  {
    hide EligibleRows, WithPriority, Primaries, MaxPriority, Represents, Selects;
    var eligible := EligibleRows(rows);
    if eligible == [] {
      NoneEligible(rows);
    } else {
      CandidatesAreTop(rows);
      ChoiceAmongCandidates(WithPriority(eligible, MaxPriority(eligible)), multiset(rows));
    }
  }

  lemma NoneEligible(rows: seq<UserRoleRow>)
    requires EligibleRows(rows) == []
    ensures forall row :: !Represents(multiset(rows), row)
  {
    EligibleRowsSelects(rows);
    assert forall row :: row in rows && Eligible(row) ==> multiset(EligibleRows(rows))[row] == multiset(rows)[row];
  }

  lemma ChoiceAmongCandidates(candidates: seq<UserRoleRow>, all: multiset<UserRoleRow>)
    requires Selects(candidates, all, (r: UserRoleRow) => TopEligible(all, r)) && candidates != []
    ensures |candidates| == 1 ==> forall row :: Represents(all, row) <==> row == candidates[0]
    ensures |candidates| != 1 && |Primaries(candidates)| == 1 ==>
              forall row :: Represents(all, row) <==> row == Primaries(candidates)[0]
    ensures |candidates| != 1 && |Primaries(candidates)| != 1 ==> forall row :: !Represents(all, row)
  {
    hide TopEligible;
    var primaries := Primaries(candidates);
    SelectionOfOne(candidates, all, (r: UserRoleRow) => TopEligible(all, r));
    PrimariesSelects(candidates);
    assert Selects(primaries, all, (r: UserRoleRow) => TopEligible(all, r) && r.isPrimary);
    SelectionOfOne(primaries, all, (r: UserRoleRow) => TopEligible(all, r) && r.isPrimary);
    if |candidates| == 1 {
      forall row | Represents(all, row) ensures row == candidates[0] {
        assert row in candidates;
      }
    } else if |primaries| == 1 {
      assert primaries[0] in candidates;
    }
  }

  lemma EffectiveRoleIgnoresRowOrder(a: seq<UserRoleRow>, b: seq<UserRoleRow>)
    requires multiset(a) == multiset(b)
    ensures ResolveEffectiveRole(Some(a)) == ResolveEffectiveRole(Some(b))
  {
    EffectiveRoleIsRepresentative(a);
    EffectiveRoleIsRepresentative(b);
  }
}
