/** The vocabulary shared by workload intelligence and execution graphs. */
module IntelligenceModels {
  import Orders
  import opened Texts

  datatype Option<+T> = None | Some(value: T)

  datatype Modality = Text | Image | Audio | Video | StructuredData | Code | Multimodal

  datatype Complexity = Minimal | Low | Moderate | High | Deep

  datatype Capability =
    | CodeExecution | Generation | Reasoning | Retrieval | Speech | StructuredOutput | ToolUse | Vision

  datatype Privacy = Public | Internal | Confidential | Restricted

  datatype Latency = Batch | Relaxed | Interactive | Realtime

  datatype Quality = Standard | HighQuality | Critical

  datatype ContextMagnitude = Short | StandardContext | Extended | Long

  datatype WorkloadIdentity = WorkloadIdentity(requestId: string, workloadId: string, sessionId: string)
  {
    predicate IsNonblank() { Nonblank(requestId) && Nonblank(workloadId) && Nonblank(sessionId) }
  }

  /** Confidence is held in hundredths: the code rounds it to two places. */
  datatype Profile = Profile(
    identity: WorkloadIdentity,
    modalities: seq<Modality>,
    complexity: Complexity,
    context: ContextMagnitude,
    externalExecution: bool,
    latency: Latency,
    quality: Quality,
    privacy: Privacy,
    capabilities: set<Capability>,
    evidenceSources: set<string>,
    confidence: int)

  lemma OnlyEight(c: set<Capability>)
    requires c != {}
    ensures exists x :: x in c && (x == CodeExecution || x == Generation || x == Reasoning || x == Retrieval
                                   || x == Speech || x == StructuredOutput || x == ToolUse || x == Vision)
  {
    var x :| x in c;
    match x { case _ => }
  }

  /** The first capability of a canonical tuple, which is sorted by value. */
  function FirstCapability(c: set<Capability>): (f: Capability)
    requires c != {}
    ensures f in c
  {
    if CodeExecution in c then CodeExecution
    else if Generation in c then Generation
    else if Reasoning in c then Reasoning
    else if Retrieval in c then Retrieval
    else if Speech in c then Speech
    else if StructuredOutput in c then StructuredOutput
    else if ToolUse in c then ToolUse
    else assert Vision in c by { OnlyEight(c); } Vision
  }

  /** The value of a capability, by which capabilities are sorted. */
  function CapabilityValue(c: Capability): string {
    match c
    case CodeExecution => "code_execution"
    case Generation => "generation"
    case Reasoning => "reasoning"
    case Retrieval => "retrieval"
    case Speech => "speech"
    case StructuredOutput => "structured_output"
    case ToolUse => "tool_use"
    case Vision => "vision"
  }

  lemma FirstIsLeastValue(c: set<Capability>, x: Capability)
    requires c != {} && x in c && x != FirstCapability(c)
    ensures Orders.Below(CapabilityValue(FirstCapability(c)), CapabilityValue(x))
  {
    BelowByHead(CapabilityValue(FirstCapability(c)), CapabilityValue(x));
  }

  lemma BelowByHead(a: string, b: string)
    ensures a != "" && b != "" && a[0] < b[0] ==> Orders.Below(a, b)
    ensures |a| > 2 && |b| > 2 && a[0] == b[0] && (a[1] < b[1] || (a[1] == b[1] && a[2] < b[2])) ==> Orders.Below(a, b)
  {
    if |a| > 2 && |b| > 2 && a[0] == b[0] {
      assert a[1..][0] == a[1] && b[1..][0] == b[1];
      assert a[1..][1..][0] == a[2] && b[1..][1..][0] == b[2];
    }
  }
}
