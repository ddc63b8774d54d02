/** The create-post form: the content-length cap on edits, the check for
    the required fields, the parsing of the comma-separated tags, the shape
    of the payload sent to the blog API, and what the form shows and keeps
    after a submission. The API's answer is a parameter. */
module CreatePost {
  import opened Wrappers
  import opened JsText

  const MaxContentLength: nat := 8000

  // ------------------------------------------------------------------ tags

  /** `.map((t) => t.trim())` */
  function TrimAll(ps: seq<string>): (r: seq<string>)
    ensures |r| == |ps|
    ensures forall i :: 0 <= i < |ps| ==> r[i] == Trim(ps[i])
  {
    seq(|ps|, i requires 0 <= i < |ps| => Trim(ps[i]))
  }

  /** A tag as the form sends it: non-empty, without surrounding
      whitespace, without a comma. */
  predicate IsTag(t: string) {
    t != [] && Trim(t) == t && ',' !in t
  }

  /** The trim of a comma-free piece, when not empty, is a tag. */
  lemma TrimmedPieceIsTag(p: string)
    requires ',' !in p && Trim(p) != []
    ensures IsTag(Trim(p))
  {
    TrimTrimmed(Trim(p));
    TrimKeepsOut(p, ',');
  }

  /** The tags typed as `tagsText`: split at commas, trimmed, empties dropped. */
  function ParseTags(text: string): (tags: seq<string>)
    ensures forall i :: 0 <= i < |tags| ==> IsTag(tags[i])
  {
    var pieces := Split(text, ',');
    var trimmed := TrimAll(pieces);
    NonEmptyKeeps(trimmed);
    forall t | t in trimmed && t != [] ensures IsTag(t) {
      var i :| 0 <= i < |trimmed| && trimmed[i] == t;
      TrimmedPieceIsTag(pieces[i]);
    }
    NonEmpty(trimmed)
  }

  /** Tags typed in order, separated by commas, are parsed back in that
      order and unchanged; an empty field parses to no tags. */
  lemma ParseTagsJoin(tags: seq<string>)
    requires forall i :: 0 <= i < |tags| ==> IsTag(tags[i])
    ensures ParseTags(Join(tags, ',')) == tags
  {
    if tags == [] {
      assert Split([], ',') == [[]];
      assert TrimAll([[]]) == [[]];
      assert NonEmpty([[]]) == [];
    } else {
      SplitJoin(tags, ',');
      assert TrimAll(tags) == tags;
      NonEmptyKeepsAll(tags);
    }
  }

  // --------------------------------------------------------------- payload

  /** The post sent to the blog API. */
  datatype Payload = Payload(
    title: string,
    body: string,
    category: Option<string>,
    tags: Option<seq<string>>)

  /** A submission is refused when the title or the content is blank. */
  predicate Rejected(title: string, content: string) {
    Trim(title) == [] || Trim(content) == []
  }

  /** Blank means whitespace only. */
  lemma RejectedIffBlank(title: string, content: string)
    ensures Rejected(title, content) <==>
            (forall i :: 0 <= i < |title| ==> IsSpace(title[i])) ||
            (forall i :: 0 <= i < |content| ==> IsSpace(content[i]))
  {
    TrimBlank(title);
    TrimBlank(content);
  }

  /** The payload `onSubmit` sends, or `None` when it refuses. A sent
      payload has a non-empty trimmed title and body, and never an empty
      category or an empty tag list: those are left out instead. */
  function Submission(title: string, content: string, category: string, tagsText: string): (r: Option<Payload>)
    ensures r.None? <==> Rejected(title, content)
    ensures r.Some? ==> r.value.title != [] && Trim(r.value.title) == r.value.title
    ensures r.Some? ==> r.value.body != [] && Trim(r.value.body) == r.value.body
    ensures r.Some? ==> r.value.category != Some([]) && r.value.tags != Some([])
    ensures r.Some? ==> (r.value.category.None? <==> Trim(category) == [])
    ensures r.Some? && r.value.tags.Some? ==> forall i :: 0 <= i < |r.value.tags.value| ==> IsTag(r.value.tags.value[i])
  {
    if Rejected(title, content) then None
    else
      TrimTrimmed(Trim(title));
      TrimTrimmed(Trim(content));
      var tags := ParseTags(tagsText);
      Some(Payload(
        Trim(title),
        Trim(content),
        if Trim(category) == [] then None else Some(Trim(category)),
        if |tags| > 0 then Some(tags) else None))
  }

  /** Filling the form with a sent payload's own fields sends that same
      payload again: the shaping loses nothing it keeps. */
  lemma SubmissionStable(title: string, content: string, category: string, tagsText: string)
    requires !Rejected(title, content)
    ensures var p := Submission(title, content, category, tagsText).value;
            Submission(p.title, p.body, p.category.GetOr([]), Join(p.tags.GetOr([]), ',')) == Some(p)
  {
    var p := Submission(title, content, category, tagsText).value;
    TrimTrimmed(Trim(category));
    ParseTagsJoin(p.tags.GetOr([]));
  }

  // ------------------------------------------------------------- the form

  /** The alert shown after a submission: its title and message. */
  datatype Alert = Alert(title: string, message: string)

  /** What the API call ends with: the new post's id (if the answer has
      one), or a failure with its message (if it has one). */
  datatype Outcome = Published(id: Option<int>) | Failed(message: Option<string>)

  datatype FormState = FormState(
    title: string,
    category: string,
    tagsText: string,
    content: string,
    featuredImage: Option<string>,
    submitting: bool)

  const EmptyForm := FormState([], [], [], [], None, false)

  /** The content never exceeds the cap. */
  predicate FormValid(s: FormState) {
    |s.content| <= MaxContentLength
  }

  /** The content field's change handler: an edit over the cap is ignored. */
  function EditContent(s: FormState, text: string): (r: FormState)
    ensures |text| <= MaxContentLength ==> r == s.(content := text)
    ensures |text| > MaxContentLength ==> r == s
  {
    if |text| <= MaxContentLength then s.(content := text) else s
  }

  function SuccessAlert(id: Option<int>): Alert {
    Alert("Success", "Post published with id: " + (match id case Some(i) => IntToString(i) case None => "N/A"))
  }

  function ErrorAlert(message: Option<string>): Alert {
    Alert("Error", match message
      case Some(m) => if m != [] then m else "Failed to publish the post. Please try again."
      case None => "Failed to publish the post. Please try again.")
  }

  const MissingAlert := Alert("Missing fields", "Title and Content are required.")

  /** `onSubmit`: the new form state, the payload sent (if any) and the
      alert shown. */
  function SubmitStep(s: FormState, outcome: Outcome): (FormState, Option<Payload>, Alert) {
    var sent := Submission(s.title, s.content, s.category, s.tagsText);
    if sent.None? then (s, None, MissingAlert)
    else match outcome
      case Published(id) => (EmptyForm, sent, SuccessAlert(id))
      case Failed(message) => (s.(submitting := false), sent, ErrorAlert(message))
  }

  /** A blank title or content sends nothing and changes nothing. */
  lemma SubmitRefusesBlank(s: FormState, outcome: Outcome)
    requires (forall i :: 0 <= i < |s.title| ==> IsSpace(s.title[i])) ||
             (forall i :: 0 <= i < |s.content| ==> IsSpace(s.content[i]))
    ensures SubmitStep(s, outcome) == (s, None, MissingAlert)
  {
    RejectedIffBlank(s.title, s.content);
  }

  /** Once the API call has ended, the form is not submitting; after a
      success every field is empty again, after a failure every field
      keeps what was typed. */
  lemma SubmitSettles(s: FormState, outcome: Outcome)
    requires !Rejected(s.title, s.content)
    ensures var (r, sent, _) := SubmitStep(s, outcome);
            sent.Some? && !r.submitting &&
            (outcome.Published? ==> r == EmptyForm) &&
            (outcome.Failed? ==> r == s.(submitting := false))
  {
  }

  /** Edits and submissions keep the content within the cap. */
  lemma FormStaysValid(s: FormState, text: string, outcome: Outcome)
    requires FormValid(s)
    ensures FormValid(EmptyForm)
    ensures FormValid(EditContent(s, text))
    ensures FormValid(SubmitStep(s, outcome).0)
  {
  }

  /** The create-post screen's state cells. */
  class Form {
    var title: string
    var category: string
    var tagsText: string
    var content: string
    var featuredImage: Option<string>
    var submitting: bool

    function State(): FormState
      reads this
    {
      FormState(title, category, tagsText, content, featuredImage, submitting)
    }

    constructor()
      ensures State() == EmptyForm
    {
      title, category, tagsText, content := [], [], [], [];
      featuredImage := None;
      submitting := false;
    }

    method SetContent(text: string)
      modifies this
      ensures State() == EditContent(old(State()), text)
    {
      if |text| <= MaxContentLength {
        content := text;
      }
    }

    /** `onSubmit`, with the API call's outcome given; returns the payload
        sent, if any, and the alert shown. */
    method Submit(outcome: Outcome) returns (sent: Option<Payload>, alert: Alert)
      modifies this
      ensures (State(), sent, alert) == SubmitStep(old(State()), outcome)
    {
      if Rejected(title, content) {
        return None, MissingAlert;
      }
      sent := Submission(title, content, category, tagsText);
      submitting := true;
      match outcome {
        case Published(id) =>
          alert := SuccessAlert(id);
          featuredImage := None;
          title, category, tagsText, content := [], [], [], [];
        case Failed(message) =>
          alert := ErrorAlert(message);
      }
      submitting := false;
    }
  }
}
