/** The keyword classifier that suggests a category, a priority and an
    owning department for a free-text description (`detectCategory`,
    src/lib/store.ts). */
module Classifier {
  import opened IssueTypes
  import opened Text

  datatype Detection = Detection(category: IssueCategory, priority: IssuePriority, department: string)

  /** A group of keywords and the suggestion it makes when any of them occurs. */
  datatype KeywordGroup = KeywordGroup(keywords: seq<string>, result: Detection)

  /** The groups in the order they are tried; the order is the tie-break
      between descriptions that mention keywords of several groups. */
  const Groups: seq<KeywordGroup> := [
    KeywordGroup(["fan", "light", "electric", "power", "switch"], Detection(Electrical, Medium, "Maintenance")),
    KeywordGroup(["water", "leak", "tap", "pipe", "drain"], Detection(Plumbing, High, "Maintenance")),
    KeywordGroup(["wifi", "internet", "network", "computer", "printer"], Detection(Network, High, "IT")),
    KeywordGroup(["chair", "desk", "table", "door", "window"], Detection(Furniture, Low, "Maintenance")),
    KeywordGroup(["clean", "dirty", "garbage", "trash", "smell"], Detection(Cleanliness, Medium, "Housekeeping")),
    KeywordGroup(["cctv", "security", "theft", "gate", "lock"], Detection(Security, Critical, "Security"))
  ]

  /** The suggestion when no keyword occurs; it is also the report form's
      initial selection. */
  const Fallback := Detection(Other, Medium, "General")

  predicate GroupMatches(g: KeywordGroup, text: string)
  {
    exists k | 0 <= k < |g.keywords| :: Contains(text, g.keywords[k])
  }

  /** A group none of whose keywords can occur in the text, each for the
      reason given, does not match it. */
  lemma GroupRuledOut(g: KeywordGroup, text: string, ws: seq<Absence>)
    requires |ws| == |g.keywords|
    requires forall k :: 0 <= k < |ws| ==> Witnesses(text, g.keywords[k], ws[k])
    ensures !GroupMatches(g, text)
  {
    forall k | 0 <= k < |ws|
      ensures !Contains(text, g.keywords[k])
    {
      AbsenceRulesOut(text, g.keywords[k], ws[k]);
    }
  }

  /** Group `j` is the first group with a keyword in `text`. */
  ghost predicate FirstMatching(text: string, j: int)
  {
    && 0 <= j < |Groups|
    && GroupMatches(Groups[j], text)
    && forall h :: 0 <= h < j ==> !GroupMatches(Groups[h], text)
  }

  ghost predicate NoneMatch(text: string)
  {
    forall j :: 0 <= j < |Groups| ==> !GroupMatches(Groups[j], text)
  }

  /** The index of the first group, from `from` on, with a keyword in
      `text`; `|Groups|` when there is none. */
  function FirstMatchIndex(text: string, from: nat): (j: nat)
    requires from <= |Groups|
    ensures from <= j <= |Groups|
    ensures j < |Groups| ==> GroupMatches(Groups[j], text)
    ensures forall h :: from <= h < j ==> !GroupMatches(Groups[h], text)
    decreases |Groups| - from
  {
    if from == |Groups| || GroupMatches(Groups[from], text) then from
    else FirstMatchIndex(text, from + 1)
  }

  /** `detectCategory`: lower-cases the description and returns the
      suggestion of the first group with a keyword occurring in it as a
      substring, or the fallback. */
  function Detect(description: string): (r: Detection)
    ensures forall j :: FirstMatching(Lower(description), j) ==> r == Groups[j].result
    ensures NoneMatch(Lower(description)) ==> r == Fallback
  {
    var j := FirstMatchIndex(Lower(description), 0);
    if j < |Groups| then Groups[j].result else Fallback
  }

  /** Either some group is the first to match, or none does. */
  lemma MatchCases(text: string)
    ensures NoneMatch(text) || FirstMatching(text, FirstMatchIndex(text, 0))
  {
  }

  /** The department named by each category. */
  function DepartmentOf(c: IssueCategory): string
  {
    match c
    case Electrical => "Maintenance"
    case Plumbing => "Maintenance"
    case Furniture => "Maintenance"
    case Network => "IT"
    case Cleanliness => "Housekeeping"
    case Security => "Security"
    case Other => "General"
  }

  /** Every suggestion is one of the groups' or the fallback. */
  lemma DetectIsGroupOrFallback(description: string)
    ensures Detect(description) == Fallback
         || exists j :: 0 <= j < |Groups| && Detect(description) == Groups[j].result
  {
    MatchCases(Lower(description));
  }

  /** The department is determined by the category. */
  lemma DepartmentFollowsCategory(description: string)
    ensures Detect(description).department == DepartmentOf(Detect(description).category)
  {
    DetectIsGroupOrFallback(description);
  }

  /** Only security suggests `critical`, and only furniture suggests `low`. */
  lemma PriorityExtremes(description: string)
    ensures Detect(description).priority == Critical <==> Detect(description).category == Security
    ensures Detect(description).priority == Low <==> Detect(description).category == Furniture
  {
    DetectIsGroupOrFallback(description);
  }

  /** Matching ignores case. */
  lemma DetectCaseInsensitive(description: string)
    ensures Detect(description) == Detect(Lower(description))
  {
    LowerIdempotent(description);
  }

  /** If a keyword of an earlier group occurs, a later group's suggestion is
      never made. */
  lemma EarlierGroupWins(description: string, i: int, j: int)
    requires 0 <= i < j < |Groups|
    requires GroupMatches(Groups[i], Lower(description))
    ensures Detect(description).category != Groups[j].result.category
  {
    var text := Lower(description);
    MatchCases(text);
  }

  /** With no keyword at all, the fallback is suggested. */
  lemma NoKeywordGivesFallback(description: string)
    requires forall j, k :: 0 <= j < |Groups| && 0 <= k < |Groups[j].keywords|
               ==> !Contains(Lower(description), Groups[j].keywords[k])
    ensures Detect(description) == Detection(Other, Medium, "General")
  {
  }
}
