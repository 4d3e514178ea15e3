/** The per-turn workflow of the honeypot: a mutable workflow state, the merge of
    newly extracted intelligence into it, and the run that extracts, decides and
    replies, in that order. */
module StateGraph {
  import opened Intel
  import Collections
  import Agents

  /** The stored intelligence after folding in `delta`: a truthy UPI id or truthy bank
      details replace the stored ones and a falsy one leaves them alone; a non-empty
      link list is united with the stored links, each link kept once; an empty one
      leaves the stored list exactly as it was. */
  function MergeRecord(stored: IntelRecord, delta: IntelRecord): (r: IntelRecord)
    ensures Truthy(delta.upiId) ==> r.upiId == delta.upiId
    ensures !Truthy(delta.upiId) ==> r.upiId == stored.upiId
    ensures Truthy(delta.bankDetails) ==> r.bankDetails == delta.bankDetails
    ensures !Truthy(delta.bankDetails) ==> r.bankDetails == stored.bankDetails
    ensures delta.phishingLinks == [] ==> r.phishingLinks == stored.phishingLinks
    ensures delta.phishingLinks != [] ==>
      && Collections.NoDuplicates(r.phishingLinks)
      && (forall u :: u in r.phishingLinks <==> u in stored.phishingLinks || u in delta.phishingLinks)
  {
    IntelRecord(
      if Truthy(delta.upiId) then delta.upiId else stored.upiId,
      if Truthy(delta.bankDetails) then delta.bankDetails else stored.bankDetails,
      if delta.phishingLinks != [] then Collections.Distinct(stored.phishingLinks + delta.phishingLinks)
      else stored.phishingLinks)
  }

  /** Merging never loses anything: stored links stay, and a truthy stored UPI id or
      truthy bank details stay truthy. */
  lemma MergeMonotone(stored: IntelRecord, delta: IntelRecord)
    ensures var r := MergeRecord(stored, delta);
      && (forall u :: u in stored.phishingLinks ==> u in r.phishingLinks)
      && (Truthy(stored.upiId) ==> Truthy(r.upiId))
      && (Truthy(stored.bankDetails) ==> Truthy(r.bankDetails))
  {
  }

  /** Merging the same delta twice gives the same record as merging it once. */
  lemma MergeIdempotent(stored: IntelRecord, delta: IntelRecord)
    ensures MergeRecord(MergeRecord(stored, delta), delta) == MergeRecord(stored, delta)
  {
    var once := MergeRecord(stored, delta);
    if delta.phishingLinks != [] {
      Collections.DistinctAbsorbs(once.phishingLinks, delta.phishingLinks);
    }
  }

  /** Merging into the empty record of a fresh state keeps exactly the truthy scalars of
      the delta and its links without repeats: the result depends on the delta alone. */
  lemma MergeIntoEmpty(delta: IntelRecord)
    ensures var r := MergeRecord(EmptyIntel, delta);
      && (r.upiId == if Truthy(delta.upiId) then delta.upiId else None)
      && (r.bankDetails == if Truthy(delta.bankDetails) then delta.bankDetails else None)
      && Collections.NoDuplicates(r.phishingLinks)
      && (forall u :: u in r.phishingLinks <==> u in delta.phishingLinks)
  {
  }

  /** The state one turn of the workflow fills in. */
  class WorkflowState {
    var history: Agents.History
    var currentInput: string
    var extractedIntel: IntelRecord
    var scamDetected: bool
    var suspicionLevel: string
    var reasoning: string
    var currentReply: string

    /** A state for `currentInput` with empty intelligence, no scam, LOW suspicion and
        no reasoning or reply yet. */
    constructor(history: Agents.History, currentInput: string)
      ensures this.history == history && this.currentInput == currentInput
      ensures extractedIntel == EmptyIntel
      ensures !scamDetected && suspicionLevel == "LOW"
      ensures reasoning == "" && currentReply == ""
    {
      this.history := history;
      this.currentInput := currentInput;
      extractedIntel := EmptyIntel;
      scamDetected := false;
      suspicionLevel := "LOW";
      reasoning := "";
      currentReply := "";
    }
  }

  /** The workflow, wired to its three language-model collaborators and to the URL
      pattern. */
  class StateGraph {
    const extractor: string -> Result<Agents.ExtractionReply>
    const findUrls: string -> seq<string>
    const orchestrator: (string, Agents.History) -> Result<Agents.Decision>
    const persona: Agents.PersonaRequest -> Result<Agents.PersonaReply>

    constructor(
      extractor: string -> Result<Agents.ExtractionReply>,
      findUrls: string -> seq<string>,
      orchestrator: (string, Agents.History) -> Result<Agents.Decision>,
      persona: Agents.PersonaRequest -> Result<Agents.PersonaReply>)
      ensures this.extractor == extractor && this.findUrls == findUrls
      ensures this.orchestrator == orchestrator && this.persona == persona
    {
      this.extractor := extractor;
      this.findUrls := findUrls;
      this.orchestrator := orchestrator;
      this.persona := persona;
    }

    /** StateGraph._merge_intel: fold `newIntel` into the state's intelligence, in place,
        touching no other field of the state. */
    method MergeIntel(state: WorkflowState, newIntel: IntelRecord)
      modifies state
      ensures state.extractedIntel == MergeRecord(old(state.extractedIntel), newIntel)
      ensures state.history == old(state.history) && state.currentInput == old(state.currentInput)
      ensures state.scamDetected == old(state.scamDetected)
      ensures state.suspicionLevel == old(state.suspicionLevel)
      ensures state.reasoning == old(state.reasoning)
      ensures state.currentReply == old(state.currentReply)
    {
      if Truthy(newIntel.upiId) {
        state.extractedIntel := state.extractedIntel.(upiId := newIntel.upiId);
      }
      if Truthy(newIntel.bankDetails) {
        state.extractedIntel := state.extractedIntel.(bankDetails := newIntel.bankDetails);
      }
      if newIntel.phishingLinks != [] {
        var united := Collections.Distinct(state.extractedIntel.phishingLinks + newIntel.phishingLinks);
        state.extractedIntel := state.extractedIntel.(phishingLinks := united);
      }
    }

    /** StateGraph.run: a fresh state for `message`; the extraction merged into its empty
        intelligence; the decision's fields copied with defaults for missing keys; and
        the persona's reply, produced from the merged intelligence. */
    method Run(message: string, history: Agents.History) returns (state: WorkflowState)
      ensures fresh(state)
      ensures state.history == history && state.currentInput == message
      ensures state.extractedIntel == MergeRecord(EmptyIntel,
        Agents.CombineExtraction(extractor(message), Agents.FindUpis(message), findUrls(message)))
      ensures var decision := Agents.DecideNextStep(message, history, orchestrator);
        && state.scamDetected == decision.scamDetected.GetOr(false)
        && state.suspicionLevel == decision.suspicionLevel.GetOr("LOW")
        && state.reasoning == decision.reasoning.GetOr("")
        && state.currentReply == Agents.GenerateResponse(message, decision, state.extractedIntel, persona)
    {
      state := new WorkflowState(history, message);

      var newIntel := Agents.ExtractIntelligence(message, extractor, findUrls);
      MergeIntel(state, newIntel);

      var decision := Agents.DecideNextStep(message, history, orchestrator);
      state.scamDetected := decision.scamDetected.GetOr(false);
      state.suspicionLevel := decision.suspicionLevel.GetOr("LOW");
      state.reasoning := decision.reasoning.GetOr("");

      var reply := Agents.GenerateResponse(message, decision, state.extractedIntel, persona);
      state.currentReply := reply;
    }
  }

  /** A turn whose extraction collaborator fails ends with empty intelligence, whatever
      the patterns found in the message. */
  lemma FailedExtractionLeavesNoIntel(outcome: Result<Agents.ExtractionReply>, upis: seq<string>, urls: seq<string>)
    requires outcome.Failure?
    ensures MergeRecord(EmptyIntel, Agents.CombineExtraction(outcome, upis, urls)) == EmptyIntel
  {
  }
}
