/** The four counters of a student's dashboard (src/pages/Dashboard.tsx),
    computed over the issues the student reported. */
module Dashboard {
  import opened IssueTypes
  import opened Seqs

  /** An issue is finished once it is resolved or closed. */
  predicate IsFinished(i: Issue)
  {
    i.status == Resolved || i.status == Closed
  }

  /** The `active` filter callback. */
  predicate IsActive(i: Issue)
  {
    i.status != Resolved && i.status != Closed
  }

  predicate IsCritical(i: Issue)
  {
    i.priority == Critical
  }

  predicate HasStatus(i: Issue, s: IssueStatus)
  {
    i.status == s
  }

  datatype Stats = Stats(total: nat, active: nat, resolved: nat, critical: nat)

  /** `myStats`: each counter is the number of issues its filter keeps. */
  function MyStats(issues: seq<Issue>): (r: Stats)
    ensures r.total == |issues|
    ensures r.active <= r.total && r.resolved <= r.total && r.critical <= r.total
  {
    Stats(|issues|,
          |Filter(issues, IsActive)|,
          |Filter(issues, IsFinished)|,
          |Filter(issues, IsCritical)|)
  }

  /** Every issue is counted as exactly one of active and resolved. */
  lemma ActivePlusResolvedIsTotal(issues: seq<Issue>)
    ensures MyStats(issues).active + MyStats(issues).resolved == MyStats(issues).total
  {
    FilterComplementCount(issues, IsFinished, IsActive);
  }

  /** The resolved counter adds the resolved issues and the closed ones. */
  lemma ResolvedCountsBothEndStates(issues: seq<Issue>)
    ensures MyStats(issues).resolved
         == |Filter(issues, i => HasStatus(i, Resolved))| + |Filter(issues, i => HasStatus(i, Closed))|
  {
    FilterDisjointCount(issues, i => HasStatus(i, Resolved), i => HasStatus(i, Closed), IsFinished);
  }

  /** Reporting one more issue raises the total by one and exactly one of
      active and resolved by one; critical rises exactly when the new issue
      is critical. */
  lemma OneMoreIssue(issues: seq<Issue>, i: Issue)
    ensures MyStats(issues + [i]).total == MyStats(issues).total + 1
    ensures MyStats(issues + [i]).active == MyStats(issues).active + (if IsActive(i) then 1 else 0)
    ensures MyStats(issues + [i]).resolved == MyStats(issues).resolved + (if IsFinished(i) then 1 else 0)
    ensures IsActive(i) <==> !IsFinished(i)
    ensures MyStats(issues + [i]).critical == MyStats(issues).critical + (if IsCritical(i) then 1 else 0)
  {
    FilterConcat(issues, [i], IsActive);
    FilterConcat(issues, [i], IsFinished);
    FilterConcat(issues, [i], IsCritical);
  }

  /** A fresh report is always active. */
  lemma NewReportIsActive(issues: seq<Issue>, i: Issue)
    requires i.status == Submitted
    ensures MyStats(issues + [i]).active == MyStats(issues).active + 1
    ensures MyStats(issues + [i]).resolved == MyStats(issues).resolved
  {
    OneMoreIssue(issues, i);
  }
}
