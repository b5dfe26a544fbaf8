/** The older, single-file indicator of `AnalysisProgress.tsx`, which
    spells every rule out inline; it shows exactly what the refactored
    indicator shows. */
module LegacyProgress {
  import opened Progress

  /** The inline copy of the step list. */
  const LegacySteps: seq<Step> := [
    Step("fetchingMetadata", "Metadata", "Fetching book metadata"),
    Step("fetchingText", "Book Text", "Downloading book content"),
    Step("analyzing", "Analysis", "Identifying characters & relationships")]

  function StatusText(analysisStep: Status): string {
    match analysisStep
    case FetchingMetadata => "Fetching book metadata..."
    case FetchingText => "Fetching book text..."
    case Analyzing => "Analyzing characters & interactions..."
    case _ => "Analyze"
  }

  function Width(analysisStep: Status): string {
    if analysisStep == Idle then "0%"
    else if analysisStep == FetchingMetadata then "33.33%"
    else if analysisStep == FetchingText then "66.66%"
    else "100%"
  }

  /** The inline highlight condition, shared by the label and the circle. */
  function Highlighted(stepId: string, analysisStep: Status): bool {
    || analysisStep.Id() == stepId
    || (analysisStep == Complete
        && (stepId == "fetchingMetadata" || stepId == "fetchingText" || stepId == "analyzing"))
    || (analysisStep == Analyzing && (stepId == "fetchingMetadata" || stepId == "fetchingText"))
    || (analysisStep == FetchingText && stepId == "fetchingMetadata")
  }

  /** The inline glyph chain. */
  function GlyphOf(stepId: string, analysisStep: Status): Glyph {
    if analysisStep == Complete
       && (stepId == "fetchingMetadata" || stepId == "fetchingText" || stepId == "analyzing") then Check
    else if analysisStep == Analyzing && (stepId == "fetchingMetadata" || stepId == "fetchingText") then Check
    else if analysisStep == FetchingText && stepId == "fetchingMetadata" then Check
    else if stepId == analysisStep.Id() then Dot
    else Ring
  }

  /** For the three step markers, the inline rules are the refactored ones. */
  lemma MarkerRulesAgree(stepId: string, current: Status)
    requires IsStepId(stepId)
    ensures Highlighted(stepId, current) == Progress.IsActive(stepId, current)
    ensures GlyphOf(stepId, current) == Progress.GlyphOf(stepId, current)
  {
  }

  /** Off the three markers the rules part: at "complete" the refactored
      rule highlights every id, the inline rule only the three and the id
      "complete" itself. */
  lemma HighlightDiffersOffSteps(id: string)
    requires !IsStepId(id)
    ensures Progress.IsActive(id, Complete)
    ensures Highlighted(id, Complete) <==> id == "complete"
  {
  }

  /** The bar width and the heading are the refactored ones on every status. */
  lemma WidthAndTextAgree(current: Status)
    ensures Width(current) == ProgressWidth(current)
    ensures StatusText(current) == GetAnalysisStatusText(current)
  {
  }

  /** The whole legacy indicator. */
  function Render(analysisStep: Status): View {
    View(StatusText(analysisStep), Width(analysisStep),
         seq(|LegacySteps|, k requires 0 <= k < |LegacySteps| =>
           var step := LegacySteps[k];
           Marker(step, Highlighted(step.id, analysisStep), GlyphOf(step.id, analysisStep),
                  analysisStep.Id() == step.id)))
  }

  /** The legacy indicator and the refactored one render the same view for
      every status. */
  lemma RenderAgrees(current: Status)
    ensures Render(current) == Progress.Render(current)
  {
    var a := Render(current);
    var b := Progress.Render(current);
    assert LegacySteps == AnalysisSteps;
    forall k | 0 <= k < |AnalysisSteps|
      ensures a.markers[k] == b.markers[k]
    {
      MarkerRulesAgree(AnalysisSteps[k].id, current);
    }
  }
}
