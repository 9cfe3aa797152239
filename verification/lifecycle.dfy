/** The status-update panel of the issue detail page
    (src/pages/IssueDetail.tsx): the fixed forward order of statuses, the
    statuses offered as next steps, who sees the panel, the note check of
    the update action, and the label shown for each offered status. */
module Lifecycle {
  import opened IssueTypes
  import opened Text
  import opened Seqs

  /** `statusOrder`: the forward order of the lifecycle. */
  const StatusOrder: seq<IssueStatus> := [Submitted, Reviewed, InProgress, Resolved, Closed]

  /** The position of each status in the lifecycle, stated independently of
      StatusOrder. */
  function Rank(s: IssueStatus): nat
  {
    match s
    case Submitted => 0
    case Reviewed => 1
    case InProgress => 2
    case Resolved => 3
    case Closed => 4
  }

  /** `statusOrder.indexOf(s)`. */
  function IndexOf(s: IssueStatus): int
  {
    IndexIn(StatusOrder, s)
  }

  /** Every status is in the order, at its lifecycle rank. */
  lemma IndexOfIsRank(s: IssueStatus)
    ensures IndexOf(s) == Rank(s)
  {
    assert StatusOrder[Rank(s)] == s;
    assert forall j :: 0 <= j < Rank(s) ==> StatusOrder[j] != s;
  }

  /** Each status sits at its rank in the order. */
  lemma RankIsPosition(i: int)
    requires 0 <= i < |StatusOrder|
    ensures Rank(StatusOrder[i]) == i
  {
  }

  /** The filter callback of the selector: `s` comes after `current` in the
      order. */
  function ComesAfter(current: IssueStatus): IssueStatus -> bool
  {
    s => IndexOf(s) > IndexOf(current)
  }

  /** The statuses offered in the selector. */
  function NextStatuses(current: IssueStatus): seq<IssueStatus>
  {
    Filter(StatusOrder, ComesAfter(current))
  }

  /** The statuses offered are the part of the order after the current
      status. */
  lemma NextStatusesAreLaterStages(current: IssueStatus)
    ensures NextStatuses(current) == StatusOrder[Rank(current) + 1..]
  {
    forall i | 0 <= i < |StatusOrder|
      ensures ComesAfter(current)(StatusOrder[i]) <==> Rank(current) + 1 <= i
    {
      RankIsPosition(i);
      IndexOfIsRank(StatusOrder[i]);
      IndexOfIsRank(current);
    }
    FilterSuffix(StatusOrder, ComesAfter(current), Rank(current) + 1);
  }

  /** The statuses offered are exactly those strictly later than the current
      one. */
  lemma NextStatusesMembers(current: IssueStatus, s: IssueStatus)
    ensures s in NextStatuses(current) <==> Rank(current) < Rank(s)
  {
    RankIsPosition(Rank(s));
    IndexOfIsRank(s);
    IndexOfIsRank(current);
    assert StatusOrder[Rank(s)] == s;
  }

  /** Along a suffix of the order, ranks count up from where it starts. */
  lemma SuffixRanks(k: nat, i: nat)
    requires k + i < |StatusOrder|
    ensures Rank(StatusOrder[k..][i]) == k + i
  {
    assert StatusOrder[k..][i] == StatusOrder[k + i];
    RankIsPosition(k + i);
  }

  /** Every suffix of the order lists its statuses by increasing rank. */
  lemma SuffixOrdered(k: nat)
    requires k <= |StatusOrder|
    ensures forall i, j :: 0 <= i < j < |StatusOrder[k..]| ==>
              Rank(StatusOrder[k..][i]) < Rank(StatusOrder[k..][j])
  {
    forall i, j | 0 <= i < j < |StatusOrder[k..]|
      ensures Rank(StatusOrder[k..][i]) < Rank(StatusOrder[k..][j])
    {
      SuffixRanks(k, i);
      SuffixRanks(k, j);
    }
  }

  /** The statuses offered appear in lifecycle order, and there are as many
      of them as there are later stages. */
  lemma NextStatusesOrdered(current: IssueStatus)
    ensures |NextStatuses(current)| == |StatusOrder| - 1 - Rank(current)
    ensures forall i, j :: 0 <= i < j < |NextStatuses(current)| ==>
              Rank(NextStatuses(current)[i]) < Rank(NextStatuses(current)[j])
  {
    NextStatusesAreLaterStages(current);
    SuffixOrdered(Rank(current) + 1);
  }

  /** The offered list never holds the current status or an earlier one. */
  lemma NextStatusesAreForward(current: IssueStatus, s: IssueStatus)
    requires s in NextStatuses(current)
    ensures s != current && Rank(current) < Rank(s)
  {
    NextStatusesMembers(current, s);
  }

  /** A closed issue offers nothing; a new one offers the four later stages
      in order. */
  lemma NextStatusesEnds()
    ensures NextStatuses(Closed) == []
    ensures NextStatuses(Submitted) == [Reviewed, InProgress, Resolved, Closed]
  {
    NextStatusesAreLaterStages(Closed);
    NextStatusesAreLaterStages(Submitted);
  }

  /** `user?.role === 'admin'`: an absent user is not an admin. */
  predicate IsAdmin(user: Option<User>)
  {
    user.Some? && user.value.role == Admin
  }

  /** The panel is rendered for admins on issues that are not closed. */
  predicate ShowsUpdatePanel(user: Option<User>, issue: Issue)
  {
    IsAdmin(user) && issue.status != Closed
  }

  /** Whenever the panel is shown it offers at least one status, and the
      only status that offers none is the one that hides it. */
  lemma PanelOffersChoice(user: Option<User>, issue: Issue)
    ensures ShowsUpdatePanel(user, issue) ==> |NextStatuses(issue.status)| >= 1
    ensures NextStatuses(issue.status) == [] <==> issue.status == Closed
  {
    NextStatusesOrdered(issue.status);
  }

  /** The status selected when the page opens. */
  const InitialSelection := Reviewed

  /** The request `handleUpdate` passes to the store. */
  datatype UpdateOutcome =
    | NoteRequired
    | NotOffered
    | Submit(issueId: string, status: IssueStatus, note: string, actor: string)

  /** `user?.name || 'Admin'`: an absent user or an empty name falls back to
      "Admin". */
  function ActorName(user: Option<User>): (r: string)
    ensures r != ""
    ensures user.Some? && user.value.name != "" ==> r == user.value.name
    ensures !(user.Some? && user.value.name != "") ==> r == "Admin"
  {
    if user.Some? && user.value.name != "" then user.value.name else "Admin"
  }

  /** `handleUpdate` as written: a blank note is refused; otherwise the
      selected status is submitted with the untrimmed note, whatever the
      issue's current status. */
  function HandleUpdate(issue: Issue, selected: IssueStatus, note: string, user: Option<User>): (r: UpdateOutcome)
    ensures r.NoteRequired? <==> IsBlank(note)
    ensures !r.NotOffered?
    ensures r.Submit? ==> r == Submit(issue.id, selected, note, ActorName(user))
  {
    TrimEmptyIffBlank(note);
    if Trim(note) == "" then NoteRequired
    else Submit(issue.id, selected, note, ActorName(user))
  }

  /** The defect: on an issue already past `reviewed`, the untouched initial
      selection submits a step backwards, to a status the selector never
      offered. */
  lemma BackwardUpdateAccepted(issue: Issue, note: string, user: Option<User>)
    requires Rank(issue.status) >= Rank(Reviewed)
    requires !IsBlank(note)
    ensures HandleUpdate(issue, InitialSelection, note, user).Submit?
    ensures HandleUpdate(issue, InitialSelection, note, user).status !in NextStatuses(issue.status)
    ensures HandleUpdate(issue, InitialSelection, note, user).status == Reviewed
  {
    NextStatusesMembers(issue.status, Reviewed);
  }

  /** The same defect on one concrete issue: in progress, sent back to
      reviewed. */
  lemma InProgressSentBack(issue: Issue, user: Option<User>)
    requires issue.status == InProgress
    ensures HandleUpdate(issue, InitialSelection, "Parts ordered", user).Submit?
    ensures HandleUpdate(issue, InitialSelection, "Parts ordered", user).status == Reviewed
    ensures Rank(Reviewed) < Rank(issue.status)
  {
    assert !IsJsSpace("Parts ordered"[0]);
    BackwardUpdateAccepted(issue, "Parts ordered", user);
  }

  /** The evidently intended action: the note check first, then a refusal of
      any status the selector does not offer. */
  function HandleUpdateChecked(issue: Issue, selected: IssueStatus, note: string, user: Option<User>): (r: UpdateOutcome)
    ensures r.NoteRequired? <==> IsBlank(note)
    ensures r.NotOffered? <==> !IsBlank(note) && Rank(selected) <= Rank(issue.status)
    ensures r.Submit? ==> r == Submit(issue.id, selected, note, ActorName(user))
  {
    TrimEmptyIffBlank(note);
    NextStatusesMembers(issue.status, selected);
    if Trim(note) == "" then NoteRequired
    else if selected !in NextStatuses(issue.status) then NotOffered
    else Submit(issue.id, selected, note, ActorName(user))
  }

  /** The checked action only ever moves an issue forward, and agrees with
      the original on every offered status. */
  lemma CheckedUpdateIsForward(issue: Issue, selected: IssueStatus, note: string, user: Option<User>)
    ensures HandleUpdateChecked(issue, selected, note, user).Submit? ==>
              Rank(issue.status) < Rank(HandleUpdateChecked(issue, selected, note, user).status)
    ensures selected in NextStatuses(issue.status) ==>
              HandleUpdateChecked(issue, selected, note, user) == HandleUpdate(issue, selected, note, user)
  {
  }

  /** `s.replace(from, to)` with a one-character string pattern: only the
      first occurrence is replaced. */
  function ReplaceFirst(s: string, from: char, to: char): (r: string)
    ensures |r| == |s|
    ensures from !in s ==> r == s
    ensures from in s ==> exists k :: 0 <= k < |s| && s[k] == from && from !in s[..k]
                                       && r == s[..k] + [to] + s[k + 1..]
  {
    var k := IndexIn(s, from);
    if k == -1 then s else s[..k] + [to] + s[k + 1..]
  }

  /** `.replace(/\b\w/g, l => l.toUpperCase())`: the first word character
      of every word is upper-cased. */
  function CapitalizeWords(s: string): (r: string)
    ensures |r| == |s|
    ensures forall i :: 0 <= i < |s| && IsWordChar(s[i]) && (i == 0 || !IsWordChar(s[i - 1]))
              ==> r[i] == UpperChar(s[i])
    ensures forall i :: 0 <= i < |s| && !(IsWordChar(s[i]) && (i == 0 || !IsWordChar(s[i - 1])))
              ==> r[i] == s[i]
  {
    seq(|s|, i requires 0 <= i < |s| =>
      if IsWordChar(s[i]) && (i == 0 || !IsWordChar(s[i - 1])) then UpperChar(s[i]) else s[i])
  }

  /** The text of a selector item. */
  function StatusLabel(s: IssueStatus): string
  {
    CapitalizeWords(ReplaceFirst(StatusName(s), '_', ' '))
  }

  /** A word of lower-case letters gets a capital initial and nothing else. */
  lemma CapitalizeLowerWord(w: string)
    requires |w| > 0 && forall i :: 0 <= i < |w| ==> IsLowerLetter(w[i])
    ensures CapitalizeWords(w) == [UpperChar(w[0])] + w[1..]
  {
    var r := CapitalizeWords(w);
    forall i | 0 <= i < |w|
      ensures r[i] == ([UpperChar(w[0])] + w[1..])[i]
    {
      if i > 0 {
        assert IsWordChar(w[i - 1]);
      }
    }
  }

  /** Capitalising splits at any character that is not a word character:
      the word after it starts afresh. */
  lemma CapitalizeSplits(a: string, c: char, b: string)
    requires !IsWordChar(c)
    ensures CapitalizeWords(a + [c] + b) == CapitalizeWords(a) + [c] + CapitalizeWords(b)
  {
    var s := a + [c] + b;
    var r, t := CapitalizeWords(s), CapitalizeWords(a) + [c] + CapitalizeWords(b);
    forall i | 0 <= i < |s|
      ensures r[i] == t[i]
    {
      if i < |a| {
        assert s[i] == a[i];
        if i > 0 { assert s[i - 1] == a[i - 1]; }
      } else if i > |a| {
        assert s[i] == b[i - |a| - 1];
        if i > |a| + 1 { assert s[i - 1] == b[i - |a| - 2]; }
      }
    }
  }

  /** The first occurrence is the one replaced. */
  lemma ReplaceFirstAt(a: string, from: char, to: char, b: string)
    requires from !in a
    ensures ReplaceFirst(a + [from] + b, from, to) == a + [to] + b
  {
    var s := a + [from] + b;
    assert s[|a|] == from && s[..|a|] == a && s[|a| + 1..] == b;
    assert IndexIn(s, from) == |a|;
  }

  /** A name without an underscore labels as itself with a capital initial. */
  lemma OneWordLabel(s: IssueStatus)
    requires '_' !in StatusName(s)
    requires forall i :: 0 <= i < |StatusName(s)| ==> IsLowerLetter(StatusName(s)[i])
    ensures StatusLabel(s) == [UpperChar(StatusName(s)[0])] + StatusName(s)[1..]
  {
    CapitalizeLowerWord(StatusName(s));
  }

  lemma SubmittedLabel()
    ensures StatusLabel(Submitted) == "Submitted"
  {
    OneWordLabel(Submitted);
  }

  lemma ReviewedLabel()
    ensures StatusLabel(Reviewed) == "Reviewed"
  {
    OneWordLabel(Reviewed);
  }

  lemma InProgressReplaced()
    ensures ReplaceFirst(StatusName(InProgress), '_', ' ') == "in" + [' '] + "progress"
  {
    assert StatusName(InProgress) == "in" + ['_'] + "progress";
    ReplaceFirstAt("in", '_', ' ', "progress");
  }

  lemma InProgressCapitalized()
    ensures CapitalizeWords("in" + [' '] + "progress") == "In Progress"
  {
    CapitalizeSplits("in", ' ', "progress");
    CapitalizeLowerWord("in");
    CapitalizeLowerWord("progress");
  }

  /** The only status whose name has an underscore, so the only label of two
      words. */
  lemma InProgressLabel()
    ensures StatusLabel(InProgress) == "In Progress"
  {
    InProgressReplaced();
    InProgressCapitalized();
  }

  lemma ResolvedLabel()
    ensures StatusLabel(Resolved) == "Resolved"
  {
    OneWordLabel(Resolved);
  }

  lemma ClosedLabel()
    ensures StatusLabel(Closed) == "Closed"
  {
    OneWordLabel(Closed);
  }
}
