/**
 * The qualification pipeline shared by qualifier.py and qualify.py: loading the stored
 * company profile, retrieving a proposal's chunks, building the prompt, and turning the
 * model's answer into a verdict. The two scripts differ only in the instruction text of
 * the prompt, which is a parameter here. Retrieval, the language model and `json.loads`
 * are oracles.
 */
module Evaluation {
  import opened Wrappers
  import opened Json
  import opened Text
  import opened VectorStore

  /** The message of the `ValueError` raised when no profile is stored. */
  const ProfileNotFound := "Company profile not found in Chroma store."

  /** The fixed query text of every retrieval. */
  const RetrievalQuery := "company profile and grant proposals"

  /** The number of chunks retrieved per proposal. */
  const TopK := 5

  /** The reason given when a proposal has nothing indexed. */
  const NoContentReason := "No content indexed for this proposal."

  /** `load_company_profile`: the stored profile text, or the error it raises. */
  function LoadCompanyProfile(records: map<string, Record>): (r: Result<string, string>)
    ensures r.Success? <==> ProfileId in records && records[ProfileId].text != ""
    ensures r.Success? ==> r.value == records[ProfileId].text
    ensures r.Failure? ==> r.error == ProfileNotFound
  {
    var docs := Documents(records, ProfileId);
    if docs == [] || docs[0] == "" then Failure(ProfileNotFound) else Success(docs[0])
  }

  /** The retrieval made for one proposal: the fixed query, `k = 5`, filtered on its file name. */
  function ProposalQuery(filename: string): Query {
    Query(RetrievalQuery, TopK, filename)
  }

  /** The `page_content` of each retrieved chunk, in retrieval order. */
  function Contents(chunks: seq<Record>): seq<string> {
    seq(|chunks|, i requires 0 <= i < |chunks| => chunks[i].text)
  }

  /** `proposal_text`: the chunks' contents joined by blank lines. */
  function ProposalText(chunks: seq<Record>): string {
    Join(ParagraphBreak, Contents(chunks))
  }

  /** Each chunk's content follows the earlier chunks and one blank line: retrieval order is kept. */
  lemma ProposalTextOrder(chunks: seq<Record>, i: nat)
    requires i < |chunks|
    ensures ProposalText(chunks[..i]) + (if i == 0 then "" else ParagraphBreak) + chunks[i].text
            <= ProposalText(chunks)
  {
    JoinPlacesPart(ParagraphBreak, Contents(chunks), i);
    assert Contents(chunks)[..i] == Contents(chunks[..i]);
  }

  const SystemHeader := "SYSTEM:\n"
  const ContextHeader := "CONTEXT:\nCompany Profile:\n"
  const AnswerCue := "ASSISTANT (JSON only):"

  /** The prompt: instructions, then the profile, then the named proposal, then the answer cue. */
  function Prompt(instructions: string, company: string, filename: string, proposal: string): string {
    SystemHeader + instructions + ContextHeader + company + ParagraphBreak
    + "Proposal (" + filename + "):\n" + proposal + ParagraphBreak + AnswerCue
  }

  /** `part` occurs in `s` starting at offset `i`. */
  predicate OccursAt(s: string, part: string, i: nat) {
    i + |part| <= |s| && s[i..i + |part|] == part
  }

  /**
   * The prompt opens with the system header and the instructions and closes with the answer
   * cue, and between them holds the company text, then the file name, then the proposal text.
   */
  lemma PromptLayout(instructions: string, company: string, filename: string, proposal: string)
    ensures var p := Prompt(instructions, company, filename, proposal);
      && SystemHeader + instructions <= p
      && |AnswerCue| <= |p| && p[|p| - |AnswerCue|..] == AnswerCue
      && exists i: nat | |SystemHeader + instructions| <= i && OccursAt(p, company, i) ::
           exists j: nat | i + |company| <= j && OccursAt(p, filename, j) ::
             exists l: nat | j + |filename| <= l && OccursAt(p, proposal, l) ::
               l + |proposal| <= |p| - |AnswerCue|
  {
    var p := Prompt(instructions, company, filename, proposal);
    var head := SystemHeader + instructions + ContextHeader;
    var withCompany := head + company;
    var beforeName := withCompany + ParagraphBreak + "Proposal (";
    var withName := beforeName + filename;
    var beforeProposal := withName + "):\n";
    var withProposal := beforeProposal + proposal;
    var beforeCue := withProposal + ParagraphBreak;
    assert p == beforeCue + AnswerCue;
    PrefixOfLonger(withProposal, beforeCue, AnswerCue);
    PrefixOfLonger(withName, beforeProposal, proposal);
    PrefixOfLonger(withName, withProposal, ParagraphBreak + AnswerCue);
    PrefixOfLonger(withCompany, beforeName, filename);
    PrefixOfLonger(withCompany, withName, "):\n" + proposal + ParagraphBreak + AnswerCue);
    PrefixOfLonger(SystemHeader + instructions, head, company);
    PrefixOfLonger(SystemHeader + instructions, withCompany, ParagraphBreak + "Proposal (" + filename
                   + "):\n" + proposal + ParagraphBreak + AnswerCue);
    PrefixOccurs(head, company, p);
    PrefixOccurs(beforeName, filename, p);
    PrefixOccurs(beforeProposal, proposal, p);
  }

  lemma PrefixOfLonger(u: string, v: string, w: string)
    requires u <= v
    ensures u <= v + w
  {
    assert (v + w)[..|v|] == v;
  }

  lemma PrefixOccurs(x: string, y: string, s: string)
    requires x + y <= s
    ensures OccursAt(s, y, |x|)
  {
    assert s[|x|..|x| + |y|] == (x + y)[|x|..];
  }

  /** The fixed verdict recorded for a proposal with nothing indexed. */
  function NoContentVerdict(): Value {
    Obj(map["qualifies" := Str("no"), "reason" := Str(NoContentReason)])
  }

  /** The record stored when the model's answer is not JSON: no verdict, the trimmed answer as reason. */
  function Fallback(output: string): Value {
    Obj(map["qualifies" := Null, "reason" := Str(Strip(output))])
  }

  /** `json.loads(output)` if it succeeds, the fallback record if it raises. */
  function ParseOrFallback(loads: string -> Option<Value>, output: string): Value {
    match loads(output)
    case Some(parsed) => parsed
    case None => Fallback(output)
  }

  /**
   * Parsed output is kept as it is, whatever its shape; unparsable output becomes an object
   * with exactly `qualifies` (null) and `reason`, the answer without surrounding whitespace.
   */
  lemma ParseOrFallbackShape(loads: string -> Option<Value>, output: string)
    ensures var r := ParseOrFallback(loads, output);
      && (loads(output).Some? ==> r == loads(output).value)
      && (loads(output).None? ==>
            && r.Obj? && r.fields.Keys == {"qualifies", "reason"}
            && r.fields["qualifies"] == Null
            && r.fields["reason"].Str?
            && var reason := r.fields["reason"].s;
               && (reason == [] || (!IsSpace(reason[0]) && !IsSpace(reason[|reason| - 1])))
               && exists i: nat | i + |reason| <= |output| :: TrimmedAt(output, reason, i))
  {
  }

  /** An answer that is not JSON and has no surrounding whitespace becomes its own reason. */
  lemma MalformedAnswerExample(loads: string -> Option<Value>)
    requires loads("not valid json") == None
    ensures ParseOrFallback(loads, "not valid json")
         == Obj(map["qualifies" := Null, "reason" := Str("not valid json")])
  {
    StripUnwraps([], "not valid json", []);
    assert [] + "not valid json" + [] == "not valid json";
  }

  /** The services the evaluation consults: similarity search, the chat model, `json.loads`. */
  datatype Services = Services(
    search: Query -> seq<Record>,
    llm: string -> string,
    loads: string -> Option<Value>)

  /** The verdict recorded for one proposal file name. */
  function Verdict(svc: Services, instructions: string, company: string, filename: string): Value {
    var chunks := svc.search(ProposalQuery(filename));
    if chunks == [] then NoContentVerdict()
    else ParseOrFallback(svc.loads, svc.llm(Prompt(instructions, company, filename, ProposalText(chunks))))
  }

  /**
   * A verdict consults the search only through that proposal's own query: two searches that
   * agree on it give the same verdict.
   */
  lemma VerdictUsesOwnQuery(svc: Services, other: Query -> seq<Record>, instructions: string,
                            company: string, filename: string)
    requires other(ProposalQuery(filename)) == svc.search(ProposalQuery(filename))
    ensures Verdict(svc.(search := other), instructions, company, filename)
         == Verdict(svc, instructions, company, filename)
  {
  }

  /** One call of the chat model: the proposal it was for and the prompt it was given. */
  datatype Invocation = Invocation(filename: string, prompt: string)

  /** The model call made for one file name: none when its retrieval found nothing. */
  function CallFor(svc: Services, instructions: string, company: string, filename: string): Option<Invocation> {
    var chunks := svc.search(ProposalQuery(filename));
    if chunks == [] then None
    else Some(Invocation(filename, Prompt(instructions, company, filename, ProposalText(chunks))))
  }

  /** `Verdict` for a fixed run, as a function of the file name. */
  function VerdictOf(svc: Services, instructions: string, company: string): string -> Value {
    filename => Verdict(svc, instructions, company, filename)
  }

  /** `CallFor` for a fixed run, as a function of the file name. */
  function CallOf(svc: Services, instructions: string, company: string): string -> Option<Invocation> {
    filename => CallFor(svc, instructions, company, filename)
  }

  /** A call made for a file name is a call for that name. */
  ghost predicate CallsForOwnName(call: string -> Option<Invocation>) {
    forall filename | call(filename).Some? :: call(filename).value.filename == filename
  }

  /** The model calls are for the file name they are made for, exactly when it has chunks. */
  lemma CallOfShape(svc: Services, instructions: string, company: string, filename: string)
    ensures CallOf(svc, instructions, company)(filename).Some? <==> svc.search(ProposalQuery(filename)) != []
    ensures CallsForOwnName(CallOf(svc, instructions, company))
  {
  }

  /** The base names of the visited PDF paths: the keys of the results. */
  function Visited(paths: seq<string>): set<string>
    decreases |paths|
  {
    if paths == [] then {} else Visited(paths[..|paths| - 1]) + {Basename(paths[|paths| - 1])}
  }

  /** The results after visiting `paths`: each base name mapped to its verdict, later paths winning. */
  function Verdicts(verdict: string -> Value, paths: seq<string>): map<string, Value>
    decreases |paths|
  {
    if paths == [] then map[]
    else
      var n := |paths| - 1;
      var filename := Basename(paths[n]);
      Verdicts(verdict, paths[..n])[filename := verdict(filename)]
  }

  /** The results hold one entry per visited base name, and each entry is that file's verdict. */
  lemma {:induction false} VerdictsRecorded(verdict: string -> Value, paths: seq<string>)
    ensures var results := Verdicts(verdict, paths);
      && results.Keys == Visited(paths)
      && forall f | f in results :: results[f] == verdict(f)
  {
    if paths != [] {
      VerdictsRecorded(verdict, paths[..|paths| - 1]);
    }
  }

  /** An optional call as a sequence of zero or one calls. */
  function CallsOf(call: Option<Invocation>): seq<Invocation> {
    if call.Some? then [call.value] else []
  }

  /** The calls of the chat model made while visiting `paths`, in order. */
  function Invocations(call: string -> Option<Invocation>, paths: seq<string>): seq<Invocation>
    decreases |paths|
  {
    if paths == [] then []
    else
      var n := |paths| - 1;
      Invocations(call, paths[..n]) + CallsOf(call(Basename(paths[n])))
  }

  /**
   * Every model call is the call made for a visited file name; there is at most one call per
   * path.
   */
  lemma {:induction false} InvocationsIndexed(call: string -> Option<Invocation>, paths: seq<string>)
    requires CallsForOwnName(call)
    ensures var calls := Invocations(call, paths);
      && |calls| <= |paths|
      && forall c | c in calls :: c.filename in Visited(paths) && call(c.filename) == Some(c)
  {
    if paths != [] {
      InvocationsIndexed(call, paths[..|paths| - 1]);
    }
  }

  /** The call made for a visited file name, when there is one, is in the log. */
  lemma {:induction false} CallRecorded(call: string -> Option<Invocation>, paths: seq<string>,
                                        filename: string)
    requires filename in Visited(paths)
    requires call(filename).Some?
    ensures call(filename).value in Invocations(call, paths)
  {
    var n := |paths| - 1;
    var before := Invocations(call, paths[..n]);
    if Basename(paths[n]) == filename {
      assert CallsOf(call(filename)) == [call(filename).value];
    } else {
      CallRecorded(call, paths[..n], filename);
      assert call(filename).value in before;
    }
  }

  /**
   * The model is called for a visited proposal exactly when its retrieval found chunks: a
   * proposal with nothing indexed never reaches the model.
   */
  lemma InvokedIffIndexed(svc: Services, instructions: string, company: string,
                          paths: seq<string>, filename: string)
    requires filename in Visited(paths)
    ensures (exists c | c in Invocations(CallOf(svc, instructions, company), paths) :: c.filename == filename)
        <==> svc.search(ProposalQuery(filename)) != []
  {
    var call := CallOf(svc, instructions, company);
    var calls := Invocations(call, paths);
    CallOfShape(svc, instructions, company, filename);
    if exists c | c in calls :: c.filename == filename {
      var c :| c in calls && c.filename == filename;
      InvocationsIndexed(call, paths);
      assert call(filename) == Some(c);
    }
    if call(filename).Some? {
      CallRecorded(call, paths, filename);
      assert call(filename).value.filename == filename;
    }
  }

  /**
   * With a search that honours its requests, every model call is given the prompt built from
   * between one and five chunks, each a stored record from that call's own proposal.
   */
  lemma PromptsUseScopedChunks(records: map<string, Record>, svc: Services, instructions: string,
                               company: string, paths: seq<string>)
    requires forall f :: Conforms(records, ProposalQuery(f), svc.search(ProposalQuery(f)))
    ensures forall c | c in Invocations(CallOf(svc, instructions, company), paths) ::
      var chunks := svc.search(ProposalQuery(c.filename));
      && 0 < |chunks| <= TopK
      && (forall r | r in chunks :: r in records.Values && FromSource(r, c.filename))
      && c.prompt == Prompt(instructions, company, c.filename, ProposalText(chunks))
  {
    var call := CallOf(svc, instructions, company);
    CallOfShape(svc, instructions, company, "");
    InvocationsIndexed(call, paths);
  }

  /** Visiting one more path records its verdict and, when it has chunks, adds one model call. */
  lemma VisitStep(verdict: string -> Value, call: string -> Option<Invocation>, paths: seq<string>, i: nat)
    requires i < |paths|
    ensures Verdicts(verdict, paths[..i + 1])
         == Verdicts(verdict, paths[..i])[Basename(paths[i]) := verdict(Basename(paths[i]))]
    ensures Invocations(call, paths[..i + 1])
         == Invocations(call, paths[..i]) + CallsOf(call(Basename(paths[i])))
  {
    assert paths[..i + 1][..i] == paths[..i];
  }

  /**
   * The body of the loop for one file name: retrieve its chunks; with none, the fixed negative
   * verdict and no model call; otherwise join them, build the prompt, call the model once and
   * keep the parsed answer or the fallback record.
   */
  method AssessProposal(svc: Services, instructions: string, company: string, filename: string)
    returns (verdict: Value, call: Option<Invocation>)
    ensures verdict == Verdict(svc, instructions, company, filename)
    ensures call == CallFor(svc, instructions, company, filename)
    ensures call.None? <==> svc.search(ProposalQuery(filename)) == []
    ensures call.None? ==> verdict == NoContentVerdict()
    ensures call.Some? ==>
      && call.value.filename == filename
      && call.value.prompt == Prompt(instructions, company, filename, ProposalText(svc.search(ProposalQuery(filename))))
      && verdict == ParseOrFallback(svc.loads, svc.llm(call.value.prompt))
  {
    var chunks := svc.search(Query(RetrievalQuery, TopK, filename));
    if chunks == [] {
      return NoContentVerdict(), None;
    }
    var proposalText := Join(ParagraphBreak, Contents(chunks));
    var prompt := Prompt(instructions, company, filename, proposalText);
    var output := svc.llm(prompt);
    call := Some(Invocation(filename, prompt));
    verdict := match svc.loads(output) case Some(parsed) => parsed case None => Fallback(output);
  }

  /** The outcome of a run: one verdict per visited file name, and the model calls made. */
  datatype Report = Report(results: map<string, Value>, calls: seq<Invocation>)

  /**
   * The loop of `evaluate_each_proposal` once the profile text is known: visits every PDF path
   * in order and records each file's verdict under its base name.
   */
  method VisitProposals(pdfPaths: seq<string>, svc: Services, instructions: string, company: string)
    returns (report: Report)
    ensures report.results == Verdicts(VerdictOf(svc, instructions, company), pdfPaths)
    ensures report.calls == Invocations(CallOf(svc, instructions, company), pdfPaths)
  {
    ghost var verdictOf := VerdictOf(svc, instructions, company);
    ghost var callOf := CallOf(svc, instructions, company);
    var results: map<string, Value> := map[];
    var calls: seq<Invocation> := [];
    for i := 0 to |pdfPaths|
      invariant results == Verdicts(verdictOf, pdfPaths[..i])
      invariant calls == Invocations(callOf, pdfPaths[..i])
    {
      VisitStep(verdictOf, callOf, pdfPaths, i);
      var filename := Basename(pdfPaths[i]);
      var verdict, call := AssessProposal(svc, instructions, company, filename);
      assert verdict == verdictOf(filename) && call == callOf(filename);
      results := results[filename := verdict];
      calls := calls + CallsOf(call);
    }
    assert pdfPaths[..|pdfPaths|] == pdfPaths;
    report := Report(results, calls);
  }

  /**
   * `evaluate_each_proposal`: fails when no profile is stored; otherwise visits every PDF path,
   * records the fixed negative verdict without calling the model when nothing is indexed for
   * it, and otherwise records the parsed (or fallback) answer of one model call.
   */
  method EvaluateProposals(records: map<string, Record>, pdfPaths: seq<string>, svc: Services,
                           instructions: string)
    returns (outcome: Result<Report, string>)
    ensures outcome.Failure? <==> LoadCompanyProfile(records).Failure?
    ensures outcome.Failure? ==> outcome.error == ProfileNotFound
    ensures outcome.Success? ==>
      var company := LoadCompanyProfile(records).value;
      && outcome.value.results.Keys == Visited(pdfPaths)
      && (forall f | f in outcome.value.results ::
            outcome.value.results[f] == Verdict(svc, instructions, company, f))
      && outcome.value.calls == Invocations(CallOf(svc, instructions, company), pdfPaths)
  {
    var profile := LoadCompanyProfile(records);
    if profile.Failure? {
      return Failure(profile.error);
    }
    var report := VisitProposals(pdfPaths, svc, instructions, profile.value);
    VerdictsRecorded(VerdictOf(svc, instructions, profile.value), pdfPaths);
    return Success(report);
  }
}
