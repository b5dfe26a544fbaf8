/** The analysis progress indicator (`progress-indicator/`): the five
    statuses in pipeline order, the three step markers, the bar width and
    the heading text. */
module Progress {
  import opened Maybe

  /** The status of an analysis, in pipeline order. */
  datatype Status = Idle | FetchingMetadata | FetchingText | Analyzing | Complete {

    /** The string the source uses for the status. */
    function Id(): string {
      match this
      case Idle => "idle"
      case FetchingMetadata => "fetchingMetadata"
      case FetchingText => "fetchingText"
      case Analyzing => "analyzing"
      case Complete => "complete"
    }

    /** Position in the order idle < fetchingMetadata < fetchingText < analyzing < complete. */
    function Rank(): nat {
      match this
      case Idle => 0
      case FetchingMetadata => 1
      case FetchingText => 2
      case Analyzing => 3
      case Complete => 4
    }
  }

  /** The status a string names, if any. */
  function StatusOf(id: string): (r: Option<Status>)
    ensures r.Some? ==> r.value.Id() == id
  {
    if id == "idle" then Some(Idle)
    else if id == "fetchingMetadata" then Some(FetchingMetadata)
    else if id == "fetchingText" then Some(FetchingText)
    else if id == "analyzing" then Some(Analyzing)
    else if id == "complete" then Some(Complete)
    else None
  }

  /** Every status is named by its own string and by no other. */
  lemma StatusIdRoundTrip(s: Status, t: Status)
    ensures StatusOf(s.Id()) == Some(s)
    ensures s.Id() == t.Id() ==> s == t
  {
  }

  /** A step marker of the indicator. */
  datatype Step = Step(id: string, caption: string, description: string)

  /** `ANALYSIS_STEPS`. */
  const AnalysisSteps: seq<Step> := [
    Step("fetchingMetadata", "Metadata", "Fetching book metadata"),
    Step("fetchingText", "Book Text", "Downloading book content"),
    Step("analyzing", "Analysis", "Identifying characters & relationships")]

  /** The id is the id of one of the three step markers. */
  predicate IsStepId(id: string) {
    id == "fetchingMetadata" || id == "fetchingText" || id == "analyzing"
  }

  /** A step is completed when the analysis is complete, or when the step
      names a pipeline stage strictly before the current one. */
  function IsCompleted(stepId: string, current: Status): (r: bool)
    ensures r <==> (current == Complete
                    || (StatusOf(stepId).Some? && 1 <= StatusOf(stepId).value.Rank() < current.Rank()))
  {
    || current == Complete
    || (current == Analyzing && (stepId == "fetchingMetadata" || stepId == "fetchingText"))
    || (current == FetchingText && stepId == "fetchingMetadata")
  }

  /** `isActive`: the current step, or a completed one. A step marker is
      lit from the moment its stage starts; any other id only at complete
      or while the status it names is current. */
  function IsActive(stepId: string, current: Status): (r: bool)
    ensures IsStepId(stepId) ==> (r <==> StatusOf(stepId).value.Rank() <= current.Rank())
    ensures !IsStepId(stepId) ==> (r <==> current == Complete || StatusOf(stepId) == Some(current))
  {
    current.Id() == stepId || IsCompleted(stepId, current)
  }

  /** A step marker is never both completed and current, and advancing the
      status never un-completes a step. */
  lemma CompletionIsOrdered(stepId: string, current: Status, later: Status)
    requires IsStepId(stepId)
    ensures !(IsCompleted(stepId, current) && current.Id() == stepId)
    ensures current.Rank() <= later.Rank() && IsCompleted(stepId, current) ==> IsCompleted(stepId, later)
  {
  }

  /** At idle no marker is highlighted; at complete all three are. */
  lemma ActiveAtEnds()
    ensures forall k :: 0 <= k < |AnalysisSteps| ==> !IsActive(AnalysisSteps[k].id, Idle)
    ensures forall k :: 0 <= k < |AnalysisSteps| ==> IsActive(AnalysisSteps[k].id, Complete)
  {
  }

  /** The glyph inside a step marker. */
  datatype Glyph = Check | Dot | Ring

  /** ✓ when completed, ● when current, ○ otherwise. */
  function GlyphOf(stepId: string, current: Status): (g: Glyph)
    ensures g == Check <==> IsCompleted(stepId, current)
    ensures g == Dot <==> !IsCompleted(stepId, current) && current.Id() == stepId
    ensures g == Ring <==> !IsActive(stepId, current)
  {
    if IsCompleted(stepId, current) then Check else if stepId == current.Id() then Dot else Ring
  }

  /** The pinging halo is drawn on the current step only. */
  function ShowsPing(stepId: string, current: Status): (r: bool)
    ensures r <==> StatusOf(stepId) == Some(current)
  {
    StatusIdRoundTrip(current, current);
    current.Id() == stepId
  }

  /** Width of the progress bar. */
  function ProgressWidth(step: Status): (w: string)
    ensures w == "0%" <==> step == Idle
    ensures w == "100%" <==> step.Rank() >= 3
    ensures step == FetchingMetadata <==> w == "33.33%"
    ensures step == FetchingText <==> w == "66.66%"
  {
    if step == Idle then "0%"
    else if step == FetchingMetadata then "33.33%"
    else if step == FetchingText then "66.66%"
    else "100%"
  }

  /** The percentage, in hundredths of a percent, that a bar width denotes. */
  function Hundredths(w: string): int {
    if w == "0%" then 0
    else if w == "33.33%" then 3333
    else if w == "66.66%" then 6666
    else if w == "100%" then 10000
    else -1
  }

  /** The bar never shrinks as the analysis advances, and stays within 0-100%. */
  lemma WidthMonotone(a: Status, b: Status)
    requires a.Rank() <= b.Rank()
    ensures 0 <= Hundredths(ProgressWidth(a)) <= Hundredths(ProgressWidth(b)) <= 10000
  {
  }

  /** The heading: one message per stage in progress, "Analyze" otherwise. */
  function GetAnalysisStatusText(step: Status): (t: string)
    ensures step == FetchingMetadata ==> t == "Fetching book metadata..."
    ensures step == FetchingText ==> t == "Fetching book text..."
    ensures step == Analyzing ==> t == "Analyzing characters & interactions..."
    ensures t == "Analyze" <==> step == Idle || step == Complete
  {
    match step
    case FetchingMetadata => "Fetching book metadata..."
    case FetchingText => "Fetching book text..."
    case Analyzing => "Analyzing characters & interactions..."
    case _ => "Analyze"
  }

  /** What one marker shows. */
  datatype Marker = Marker(step: Step, highlighted: bool, glyph: Glyph, ping: bool)

  /** Everything the indicator shows for a status. */
  datatype View = View(heading: string, width: string, markers: seq<Marker>)

  /** The refactored indicator of `progress-indicator/index.tsx`. */
  function Render(current: Status): View {
    View(GetAnalysisStatusText(current), ProgressWidth(current),
         seq(|AnalysisSteps|, k requires 0 <= k < |AnalysisSteps| =>
           var step := AnalysisSteps[k];
           Marker(step, IsActive(step.id, current), GlyphOf(step.id, current), ShowsPing(step.id, current))))
  }
}
