/** qualifier.py: the evaluation with the yes/no verdict prompt. */
module Qualifier {
  import opened Wrappers
  import opened VectorStore
  import opened Evaluation

  /** The instructions asking for a `{"qualifies": "yes"/"no", "reason": ...}` object. */
  const Instructions :=
    "You are an expert grant-qualification assistant. Given a company profile and exactly one grant proposal, "
    + "for the proposal answer: Does the company qualify? Output JSON with keys "
    + "\"qualifies\":\"yes\"/\"no\",\"reason\":\"...\".\n\n"

  /**
   * `evaluate_each_proposal` of qualifier.py: fails without a stored profile; otherwise one
   * entry per visited base name, each that file's verdict under the yes/no prompt.
   */
  method EvaluateEachProposal(records: map<string, Record>, pdfPaths: seq<string>, svc: Services)
    returns (outcome: Result<Report, string>)
    ensures outcome.Failure? <==> LoadCompanyProfile(records).Failure?
    ensures outcome.Failure? ==> outcome.error == ProfileNotFound
    ensures outcome.Success? ==>
      var company := LoadCompanyProfile(records).value;
      && outcome.value.results.Keys == Visited(pdfPaths)
      && (forall f | f in outcome.value.results ::
            outcome.value.results[f] == Verdict(svc, Instructions, company, f))
      && outcome.value.calls == Invocations(CallOf(svc, Instructions, company), pdfPaths)
  {
    outcome := EvaluateProposals(records, pdfPaths, svc, Instructions);
  }
}
