/** The search box and the two drop-down filters of the admin issue list
    (src/pages/AdminIssues.tsx). */
module IssueFilter {
  import opened IssueTypes
  import opened Text
  import opened Seqs

  /** The value of a drop-down that lets everything through. */
  const All := "all"

  /** The search text occurs, ignoring case, in the title or the location. */
  predicate MatchesSearch(i: Issue, search: string)
  {
    Contains(Lower(i.title), Lower(search)) || Contains(Lower(i.location), Lower(search))
  }

  predicate MatchesStatus(i: Issue, statusFilter: string)
  {
    statusFilter == All || StatusName(i.status) == statusFilter
  }

  predicate MatchesDepartment(i: Issue, deptFilter: string)
  {
    deptFilter == All || i.department == deptFilter
  }

  /** The filter callback: all three conditions must hold. */
  predicate Matches(i: Issue, search: string, statusFilter: string, deptFilter: string)
  {
    MatchesSearch(i, search) && MatchesStatus(i, statusFilter) && MatchesDepartment(i, deptFilter)
  }

  /** `filtered`: the issues the list shows, in the store's order. */
  function FilterIssues(issues: seq<Issue>, search: string, statusFilter: string, deptFilter: string): (r: seq<Issue>)
    ensures IsSubsequence(r, issues)
    ensures forall k :: 0 <= k < |r| ==> Matches(r[k], search, statusFilter, deptFilter)
    ensures forall k :: 0 <= k < |issues| ==>
              (issues[k] in r <==> Matches(issues[k], search, statusFilter, deptFilter))
    ensures forall i :: multiset(r)[i] == if Matches(i, search, statusFilter, deptFilter) then multiset(issues)[i] else 0
  {
    Filter(issues, i => Matches(i, search, statusFilter, deptFilter))
  }

  /** The page as it opens, with an empty search and both filters on "all",
      lists every issue. */
  lemma InitialFiltersShowAll(issues: seq<Issue>)
    ensures FilterIssues(issues, "", All, All) == issues
  {
    forall k | 0 <= k < |issues|
      ensures Matches(issues[k], "", All, All)
    {
      ContainsEmpty(Lower(issues[k].title));
    }
    FilterKeepsAll(issues, i => Matches(i, "", All, All));
  }

  /** A status filter naming a status keeps exactly the issues in it. */
  lemma StatusFilterSelects(issues: seq<Issue>, s: IssueStatus, k: int)
    requires 0 <= k < |issues|
    ensures issues[k] in FilterIssues(issues, "", StatusName(s), All) <==> issues[k].status == s
  {
    ContainsEmpty(Lower(issues[k].title));
    ParseStatusName(s);
    ParseStatusName(issues[k].status);
  }

  /** The search ignores case. */
  lemma SearchIgnoresCase(i: Issue, search: string)
    ensures MatchesSearch(i, search) <==> MatchesSearch(i, Lower(search))
  {
    LowerIdempotent(search);
  }

  /** Whatever the search and the filters, the list is a subsequence of the
      unfiltered one. */
  lemma NarrowingShrinks(issues: seq<Issue>, search: string, statusFilter: string, deptFilter: string)
    ensures IsSubsequence(FilterIssues(issues, search, statusFilter, deptFilter),
                          FilterIssues(issues, "", All, All))
  {
    forall i: Issue ensures Matches(i, "", All, All) {
      ContainsEmpty(Lower(i.title));
    }
    FilterMonotone(issues, i => Matches(i, search, statusFilter, deptFilter), i => Matches(i, "", All, All));
    InitialFiltersShowAll(issues);
  }

  /** Choosing a status, from any other setting of the list, can only
      remove issues from it. */
  lemma StatusNarrowing(issues: seq<Issue>, search: string, statusFilter: string, deptFilter: string)
    ensures IsSubsequence(FilterIssues(issues, search, statusFilter, deptFilter),
                          FilterIssues(issues, search, All, deptFilter))
  {
    FilterMonotone(issues, i => Matches(i, search, statusFilter, deptFilter), i => Matches(i, search, All, deptFilter));
  }

  /** Choosing a department, from any other setting of the list, can only
      remove issues from it. */
  lemma DepartmentNarrowing(issues: seq<Issue>, search: string, statusFilter: string, deptFilter: string)
    ensures IsSubsequence(FilterIssues(issues, search, statusFilter, deptFilter),
                          FilterIssues(issues, search, statusFilter, All))
  {
    FilterMonotone(issues, i => Matches(i, search, statusFilter, deptFilter), i => Matches(i, search, statusFilter, All));
  }

  /** Choosing a status and a department, from any other setting of the
      two filters, can only remove issues from the list. */
  lemma FiltersNarrowing(issues: seq<Issue>, search: string, statusFilter: string, deptFilter: string)
    ensures IsSubsequence(FilterIssues(issues, search, statusFilter, deptFilter),
                          FilterIssues(issues, search, All, All))
  {
    StatusNarrowing(issues, search, statusFilter, deptFilter);
    DepartmentNarrowing(issues, search, All, deptFilter);
    SubsequenceTrans(FilterIssues(issues, search, statusFilter, deptFilter),
                     FilterIssues(issues, search, All, deptFilter),
                     FilterIssues(issues, search, All, All));
  }

  /** Typing more of a search text, or any text that contains the old one
      ignoring case, can only remove issues from the list. */
  lemma SearchNarrowing(issues: seq<Issue>, shorter: string, longer: string, statusFilter: string, deptFilter: string)
    requires Contains(Lower(longer), Lower(shorter))
    ensures IsSubsequence(FilterIssues(issues, longer, statusFilter, deptFilter),
                          FilterIssues(issues, shorter, statusFilter, deptFilter))
  {
    forall i: Issue | MatchesSearch(i, longer)
      ensures MatchesSearch(i, shorter)
    {
      if Contains(Lower(i.title), Lower(longer)) {
        ContainsTrans(Lower(i.title), Lower(longer), Lower(shorter));
      } else {
        ContainsTrans(Lower(i.location), Lower(longer), Lower(shorter));
      }
    }
    FilterMonotone(issues, i => Matches(i, longer, statusFilter, deptFilter), i => Matches(i, shorter, statusFilter, deptFilter));
  }

  /** "No issues match your filters" is shown exactly when no issue passes
      all three conditions. */
  lemma EmptyMessageIffNoneMatch(issues: seq<Issue>, search: string, statusFilter: string, deptFilter: string)
    ensures |FilterIssues(issues, search, statusFilter, deptFilter)| == 0 <==>
              forall k :: 0 <= k < |issues| ==> !Matches(issues[k], search, statusFilter, deptFilter)
  {
    FilterEmptyIffNone(issues, i => Matches(i, search, statusFilter, deptFilter));
  }

  /** A status filter value that names no status (such as one with a typo)
      hides every issue. */
  lemma UnknownStatusHidesAll(issues: seq<Issue>, search: string, statusFilter: string, deptFilter: string)
    requires statusFilter != All && ParseStatus(statusFilter).None?
    ensures FilterIssues(issues, search, statusFilter, deptFilter) == []
  {
    forall k | 0 <= k < |issues|
      ensures !Matches(issues[k], search, statusFilter, deptFilter)
    {
      ParseStatusName(issues[k].status);
    }
    EmptyMessageIffNoneMatch(issues, search, statusFilter, deptFilter);
  }
}
