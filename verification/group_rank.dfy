/**
 * The in-application group rank of 009_db/group_rank.rb: salaries come
 * ordered by (department_id, salary), and one pass gives each record its
 * 1-based position within its run of equal department ids. `key` holds the
 * current department and `counter` the last rank handed out; both start nil.
 */
module GroupRank {
  import opened Options

  /** An `Empsalary` record; `rank` is the accessor the loop assigns, nil before. */
  datatype Salary = Salary(departmentId: Option<int>, employeeId: int, salary: int, rank: Option<int>)

  function Depts(records: seq<Salary>): (d: seq<Option<int>>)
    ensures |d| == |records|
  {
    seq(|records|, i requires 0 <= i < |records| => records[i].departmentId)
  }

  /** The rank the loop gives record i: 1 at the start of a run of equal
      department ids, one more than its predecessor inside a run. */
  function RunRank(depts: seq<Option<int>>, i: nat): (r: nat)
    requires i < |depts|
    ensures 1 <= r <= i + 1
  {
    if i == 0 || depts[i] != depts[i - 1] then 1 else RunRank(depts, i - 1) + 1
  }

  /** The records with `rank` set and every other field left as it was. */
  function Ranked(records: seq<Salary>): (r: seq<Salary>)
    ensures |r| == |records|
  {
    seq(|records|, i requires 0 <= i < |records| => records[i].(rank := Some(RunRank(Depts(records), i))))
  }

  /** The loop of lines 18-26. When the first department id is nil it equals
      the initial `key`, `counter` stays nil and `counter += 1` raises: the
      method then answers false and no record has changed. Otherwise every
      record gets its rank and nothing else changes. */
  method AssignRanks(salaries: array<Salary>) returns (ok: bool)
    modifies salaries
    ensures ok <==> salaries.Length == 0 || old(salaries[0].departmentId).Some?
    ensures ok ==> salaries[..] == Ranked(old(salaries[..]))
    ensures !ok ==> salaries[..] == old(salaries[..])
  {
    ghost var records := salaries[..];
    ghost var depts := Depts(records);
    var key: Option<int> := None;
    var counter: Option<int> := None;
    var i := 0;
    while i < salaries.Length
      invariant 0 <= i <= salaries.Length
      invariant i == 0 ==> key.None? && counter.None?
      invariant i > 0 ==> records[0].departmentId.Some?
      invariant i > 0 ==> key == depts[i - 1] && counter == Some(RunRank(depts, i - 1))
      invariant forall k :: 0 <= k < i ==> salaries[k] == Ranked(records)[k]
      invariant forall k :: i <= k < salaries.Length ==> salaries[k] == records[k]
    {
      var s := salaries[i];
      if s.departmentId != key {
        key, counter := s.departmentId, Some(0);
      }
      if counter.None? {
        return false;
      }
      counter := Some(counter.value + 1);
      salaries[i] := s.(rank := counter);
      i := i + 1;
    }
    return true;
  }

  /** A record's rank is its 1-based position in its run: the rank-1 records
      before it share its department, and the one before those does not. */
  lemma {:induction false} RankIsRunPosition(depts: seq<Option<int>>, i: nat)
    requires i < |depts|
    ensures var r := RunRank(depts, i);
      && (forall k :: i - r < k <= i ==> depts[k] == depts[i])
      && (i - r + 1 == 0 || depts[i - r] != depts[i])
  {
    if i > 0 && depts[i] == depts[i - 1] {
      RankIsRunPosition(depts, i - 1);
    }
  }

  /** Number of the first n records that belong to department key. */
  function CountIn(depts: seq<Option<int>>, n: nat, key: Option<int>): nat
    requires n <= |depts|
  {
    if n == 0 then 0 else CountIn(depts, n - 1, key) + (if depts[n - 1] == key then 1 else 0)
  }

  /** Each department's records stand together. */
  predicate Grouped(depts: seq<Option<int>>) {
    forall i, j, k :: 0 <= i < j < k < |depts| && depts[i] == depts[k] ==> depts[j] == depts[i]
  }

  /** `order(:department_id, :salary)`: department ids ascending with nil last
      (PostgreSQL's default), salaries ascending within a department. */
  predicate DeptLe(a: Option<int>, b: Option<int>) {
    match (a, b)
    case (Some(x), Some(y)) => x <= y
    case (Some(_), None) => true
    case (None, Some(_)) => false
    case (None, None) => true
  }

  predicate OrderedByDepartmentAndSalary(records: seq<Salary>) {
    forall i, j :: 0 <= i < j < |records| ==>
      && DeptLe(records[i].departmentId, records[j].departmentId)
      && (records[i].departmentId == records[j].departmentId ==> records[i].salary <= records[j].salary)
  }

  lemma OrderedIsGrouped(records: seq<Salary>)
    requires OrderedByDepartmentAndSalary(records)
    ensures Grouped(Depts(records))
  {
  }

  lemma {:induction false} CountInAbsent(depts: seq<Option<int>>, n: nat, key: Option<int>)
    requires n <= |depts|
    requires forall j :: 0 <= j < n ==> depts[j] != key
    ensures CountIn(depts, n, key) == 0
  {
    if n > 0 {
      CountInAbsent(depts, n - 1, key);
    }
  }

  /** When each department stands together, a record's rank is one more than
      the number of records of its department before it: a department of k
      records is ranked 1, 2, ..., k in order. */
  lemma {:induction false} RankCountsEarlierInDepartment(depts: seq<Option<int>>, i: nat)
    requires Grouped(depts)
    requires i < |depts|
    ensures RunRank(depts, i) == CountIn(depts, i, depts[i]) + 1
  {
    if i == 0 {
    } else if depts[i] == depts[i - 1] {
      RankCountsEarlierInDepartment(depts, i - 1);
    } else {
      CountInAbsent(depts, i, depts[i]);
    }
  }

  /** Within a department of input ordered by (department_id, salary), a
      later record has a higher rank, by exactly its distance, and a salary at
      least as high: ranks follow ascending salary. */
  lemma {:induction false} RankFollowsSalary(records: seq<Salary>, i: nat, j: nat)
    requires OrderedByDepartmentAndSalary(records)
    requires i < j < |records|
    requires records[i].departmentId == records[j].departmentId
    ensures RunRank(Depts(records), j) == RunRank(Depts(records), i) + (j - i)
    ensures records[i].salary <= records[j].salary
  {
    var depts := Depts(records);
    OrderedIsGrouped(records);
    assert depts[j - 1] == depts[j];
    if i < j - 1 {
      RankFollowsSalary(records, i, j - 1);
    }
  }
}
