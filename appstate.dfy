/** The wizard's state as a value: the fields of the component, the step
    counter's arithmetic, and the validity views computed from the state. */
module AppState {
  import opened Wrappers
  import opened JsText

  /** Where the app's content comes from. */
  datatype SourceType = Url | Html | Multipage

  /** A selected file whose text has already been read. */
  datatype File = File(name: string, content: string)

  /** Everything the component stores.  `appLogo` is the data URL of the
      uploaded logo, `None` before any upload. */
  datatype WizardState = WizardState(
    step: int,
    appName: string,
    appLogo: Option<string>,
    sourceType: SourceType,
    appUrl: string,
    htmlContent: string,
    multiPageFiles: seq<File>,
    enableAds: bool,
    adScript: string)

  const FirstStep := 1
  const LastStep := 3

  /** The state a session starts in. */
  const Initial := WizardState(FirstStep, "My App", None, Url, "", "", [], false, "")

  predicate StepInRange(step: int) {
    FirstStep <= step <= LastStep
  }

  /** `nextStep`: forward by one, except on the last step. */
  function Advance(step: int): (r: int)
    requires StepInRange(step)
    ensures StepInRange(r)
    ensures step < LastStep ==> r == step + 1
    ensures step == LastStep ==> r == step
  {
    if step < LastStep then step + 1 else step
  }

  /** `prevStep`: back by one, except on the first step. */
  function Retreat(step: int): (r: int)
    requires StepInRange(step)
    ensures StepInRange(r)
    ensures step > FirstStep ==> r == step - 1
    ensures step == FirstStep ==> r == step
  {
    if step > FirstStep then step - 1 else step
  }

  /** Going back undoes going forward, and the other way round, away from the ends. */
  lemma StepRoundTrips(step: int)
    requires StepInRange(step)
    ensures step < LastStep ==> Retreat(Advance(step)) == step
    ensures step > FirstStep ==> Advance(Retreat(step)) == step
  {
  }

  /** From any step, two moves forward reach the last step and two moves back
      reach the first: the machine visits no step outside the three. */
  lemma StepsSaturate(step: int)
    requires StepInRange(step)
    ensures Advance(Advance(step)) == LastStep
    ensures Retreat(Retreat(step)) == FirstStep
  {
  }

  /** `isStep1Valid`: the trimmed name is not empty, that is, the name holds a
      character that is not whitespace. */
  function IsStep1Valid(st: WizardState): (valid: bool)
    ensures valid <==> exists i :: 0 <= i < |st.appName| && !IsWhitespace(st.appName[i])
  {
    |Trim(st.appName)| > 0
  }

  /** The name the wizard starts with already passes step 1. */
  lemma InitialNameIsValid()
    ensures IsStep1Valid(Initial)
  {
    assert !IsWhitespace(Initial.appName[0]);
  }

  /** `isStep2Valid`.  `parsesAsUrl` stands for the browser's URL parser
      (`new URL(...)` not throwing). */
  function IsStep2Valid(st: WizardState, parsesAsUrl: string -> bool): (valid: bool)
    ensures st.sourceType == Url ==>
      (valid <==> parsesAsUrl(st.appUrl) && exists i :: 0 <= i < |st.appUrl| && !IsWhitespace(st.appUrl[i]))
    ensures st.sourceType == Html ==>
      (valid <==> exists i :: 0 <= i < |st.htmlContent| && !IsWhitespace(st.htmlContent[i]))
    ensures st.sourceType == Multipage ==> (valid <==> |st.multiPageFiles| > 0)
  {
    match st.sourceType
    case Url => parsesAsUrl(st.appUrl) && |Trim(st.appUrl)| > 0
    case Html => |Trim(st.htmlContent)| > 0
    case Multipage => |st.multiPageFiles| > 0
  }

  /** The preview the component keeps up to date: the URL itself once step 2
      accepts it, the sanitized HTML in HTML mode, nothing otherwise.
      `sanitize` stands for the framework's HTML sanitizer, which may also
      return nothing. */
  function Preview(st: WizardState, parsesAsUrl: string -> bool, sanitize: string -> Option<string>): (preview: Option<string>)
    ensures st.sourceType == Url ==> (preview.Some? <==> IsStep2Valid(st, parsesAsUrl))
    ensures st.sourceType == Url && preview.Some? ==> preview.value == st.appUrl
    ensures st.sourceType == Html ==> preview == sanitize(st.htmlContent)
    ensures st.sourceType == Multipage ==> preview.None?
  {
    if st.sourceType == Url && IsStep2Valid(st, parsesAsUrl) then Some(st.appUrl)
    else if st.sourceType == Html then sanitize(st.htmlContent)
    else None
  }
}
