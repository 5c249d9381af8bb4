/** qualify.py: the evaluation with the per-section score prompt. */
module Qualify {
  import opened Wrappers
  import opened VectorStore
  import opened Evaluation

  /** The instructions asking for a list of `{"section", "score", "reason"}` objects. */
  const Instructions :=
    "You are an expert grant-qualification assistant. Given a company profile and exactly one grant proposal, "
    + "evaluate the proposal based on its alignment with the company's profile. For each section of the proposal, "
    + "assign a score from 0 to 10 based on how well it matches the company profile, and provide reasoning for the score.\n\n"
    + "Output the results in the following format:\n"
    + "[\n"
    + "  {\"section\": \"section_name\", \"score\": score, \"reason\": \"reasoning for score\"},\n"
    + "  ...\n"
    + "]\n\n"

  /**
   * `evaluate_each_proposal` of qualify.py: fails without a stored profile; otherwise one
   * entry per visited base name, each that file's verdict under the section-score prompt. A
   * parsed answer is kept whatever its shape, so a list of section scores is stored as it is.
   */
  method EvaluateEachProposal(records: map<string, Record>, pdfPaths: seq<string>, svc: Services)
    returns (outcome: Result<Report, string>)
    ensures outcome.Failure? <==> LoadCompanyProfile(records).Failure?
    ensures outcome.Failure? ==> outcome.error == ProfileNotFound
    ensures outcome.Success? ==>
      var company := LoadCompanyProfile(records).value;
      && outcome.value.results.Keys == Visited(pdfPaths)
      && (forall f | f in outcome.value.results ::
            outcome.value.results[f] == Verdict(svc, Instructions, company, f))
      && outcome.value.calls == Invocations(CallOf(svc, Instructions, company), pdfPaths)
  {
    outcome := EvaluateProposals(records, pdfPaths, svc, Instructions);
  }
}
