/** The issue report form (src/pages/ReportIssue.tsx): its initial state,
    the one-shot smart detection run from the description field, the manual
    selectors, and the payload handed to `createIssue`. */
module ReportForm {
  import opened IssueTypes
  import opened Text
  import opened Classifier

  datatype Form = Form(
    title: string,
    description: string,
    location: string,
    category: IssueCategory,
    priority: IssuePriority,
    department: string,
    imageUrl: string,
    detected: bool)

  /** The state the page opens with. */
  const Initial := Form("", "", "", Other, Medium, "General", "", false)

  /** The classifier runs on a description longer than this. */
  const DetectionThreshold := 20

  /** The opening selection is the classifier's fallback suggestion. */
  lemma InitialIsFallback()
    ensures Detection(Initial.category, Initial.priority, Initial.department) == Fallback
    ensures !Initial.detected
  {
  }

  /** `handleDescriptionChange`: the text is always taken; the first time it
      is longer than the threshold, the classifier's suggestion replaces the
      category, priority and department, and detection is switched off for
      good. */
  function OnDescriptionChange(f: Form, value: string): (g: Form)
    ensures g.description == value
    ensures g.title == f.title && g.location == f.location && g.imageUrl == f.imageUrl
    ensures g.detected <==> f.detected || |value| > DetectionThreshold
    ensures !f.detected && |value| > DetectionThreshold ==>
              Detection(g.category, g.priority, g.department) == Detect(value)
    ensures f.detected || |value| <= DetectionThreshold ==>
              g.category == f.category && g.priority == f.priority && g.department == f.department
  {
    if |value| > DetectionThreshold && !f.detected then
      var d := Detect(value);
      f.(description := value, category := d.category, priority := d.priority,
         department := d.department, detected := true)
    else
      f.(description := value)
  }

  /** The inputs of the form. There is no department selector: the
      department is only ever set by detection. */
  datatype Input =
    | DescriptionTyped(value: string)
    | TitleTyped(value: string)
    | LocationTyped(value: string)
    | ImageUrlTyped(value: string)
    | CategoryChosen(category: IssueCategory)
    | PriorityChosen(priority: IssuePriority)

  function Step(f: Form, e: Input): Form
  {
    match e
    case DescriptionTyped(v) => OnDescriptionChange(f, v)
    case TitleTyped(v) => f.(title := v)
    case LocationTyped(v) => f.(location := v)
    case ImageUrlTyped(v) => f.(imageUrl := v)
    case CategoryChosen(c) => f.(category := c)
    case PriorityChosen(p) => f.(priority := p)
  }

  /** The form after a sequence of inputs, one re-render per input. */
  function Run(f: Form, es: seq<Input>): Form
    decreases |es|
  {
    if |es| == 0 then f else Run(Step(f, es[0]), es[1..])
  }

  /** Once detection has run it stays off. */
  lemma {:induction false} DetectedStays(f: Form, es: seq<Input>)
    requires f.detected
    ensures Run(f, es).detected
    decreases |es|
  {
    if |es| > 0 {
      DetectedStays(Step(f, es[0]), es[1..]);
    }
  }

  /** Once detection has run, no input changes the department again, and
      editing the description never again touches the category or the
      priority. */
  lemma {:induction false} DetectedFreezesDepartment(f: Form, es: seq<Input>)
    requires f.detected
    ensures Run(f, es).department == f.department
    ensures (forall k :: 0 <= k < |es| ==> es[k].DescriptionTyped?) ==>
              Run(f, es).category == f.category && Run(f, es).priority == f.priority
    decreases |es|
  {
    if |es| > 0 {
      DetectedFreezesDepartment(Step(f, es[0]), es[1..]);
    }
  }

  /** The departments the classifier can name. */
  predicate IsKnownDepartment(d: string)
  {
    d == "Maintenance" || d == "IT" || d == "Housekeeping" || d == "Security" || d == "General"
  }

  /** Whatever is typed and chosen, the form's department is "General" until
      detection runs, and always one the classifier can name. */
  lemma {:induction false} DepartmentAlwaysKnown(f: Form, es: seq<Input>)
    requires IsKnownDepartment(f.department)
    requires !f.detected ==> f.department == "General"
    ensures IsKnownDepartment(Run(f, es).department)
    ensures !Run(f, es).detected ==> Run(f, es).department == "General"
    decreases |es|
  {
    if |es| > 0 {
      var g := Step(f, es[0]);
      if es[0].DescriptionTyped? && |es[0].value| > DetectionThreshold && !f.detected {
        DepartmentFollowsCategory(es[0].value);
      }
      DepartmentAlwaysKnown(g, es[1..]);
    }
  }

  /** Short descriptions never trigger detection, however many are typed. */
  lemma {:induction false} ShortDescriptionsNeverDetect(f: Form, es: seq<Input>)
    requires !f.detected
    requires forall k :: 0 <= k < |es| ==> es[k].DescriptionTyped? ==> |es[k].value| <= DetectionThreshold
    ensures !Run(f, es).detected
    ensures Run(f, es).department == f.department
    decreases |es|
  {
    if |es| > 0 {
      ShortDescriptionsNeverDetect(Step(f, es[0]), es[1..]);
    }
  }

  /** `imageUrl || undefined`: the empty text becomes absent. */
  function ImageUrlOf(field: string): (r: Option<string>)
    ensures r.None? <==> field == ""
    ensures r.Some? ==> r.value == field
  {
    if field == "" then None else Some(field)
  }

  /** The field can be read back from the payload: no URL is lost or
      altered. */
  lemma ImageUrlRoundTrip(field: string)
    ensures (match ImageUrlOf(field) case None => "" case Some(u) => u) == field
  {
  }

  /** What `handleSubmit` passes to `createIssue`. */
  datatype NewIssue = NewIssue(
    title: string,
    description: string,
    category: IssueCategory,
    priority: IssuePriority,
    location: string,
    department: string,
    reportedBy: string,
    reporterName: string,
    imageUrl: Option<string>)

  /** `handleSubmit`: nothing is sent without a signed-in user; otherwise
      the form's fields, the reporter and the normalised image URL. */
  function Submit(f: Form, user: Option<User>): (r: Option<NewIssue>)
    ensures r.None? <==> user.None?
    ensures r.Some? ==> r.value.reportedBy == user.value.id && r.value.reporterName == user.value.name
    ensures r.Some? ==> r.value.title == f.title && r.value.description == f.description
    ensures r.Some? ==> r.value.location == f.location && r.value.department == f.department
    ensures r.Some? ==> r.value.category == f.category && r.value.priority == f.priority
    ensures r.Some? ==> (r.value.imageUrl.None? <==> f.imageUrl == "")
    ensures r.Some? && r.value.imageUrl.Some? ==> r.value.imageUrl.value == f.imageUrl
  {
    if user.None? then None
    else Some(NewIssue(f.title, f.description, f.category, f.priority, f.location, f.department,
                       user.value.id, user.value.name, ImageUrlOf(f.imageUrl)))
  }

  /** Submitting the page: the browser refuses while the title, the
      description or the location is empty, since each input is
      `required`; then `handleSubmit` runs. */
  function PageSubmit(f: Form, user: Option<User>): (r: Option<NewIssue>)
    ensures r.Some? <==> f.title != "" && f.description != "" && f.location != "" && user.Some?
    ensures r.Some? ==> r.value.title != "" && r.value.description != "" && r.value.location != ""
    ensures r.Some? ==> r == Submit(f, user)
  {
    if f.title == "" || f.description == "" || f.location == "" then None else Submit(f, user)
  }

  /** A report submitted without a long enough description carries the
      opening department, "General". */
  lemma UndetectedReportIsGeneral(es: seq<Input>, user: User)
    requires forall k :: 0 <= k < |es| ==> es[k].DescriptionTyped? ==> |es[k].value| <= DetectionThreshold
    ensures Submit(Run(Initial, es), Some(user)).value.department == "General"
  {
    ShortDescriptionsNeverDetect(Initial, es);
  }
}
