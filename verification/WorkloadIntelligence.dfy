/** From an explicit request to a calibrated profile: signal extraction, inference, calibration. */
module WorkloadIntelligence {
  import opened IntelligenceModels
  import opened Texts
  import opened Sets

  // ----- requests and signals

  /** A JSON-like value of the normalised request. */
  datatype Value = Null | Flag(b: bool) | Str(s: string) | Items(items: seq<Value>) | Fields(size: nat) | Num(n: real)

  datatype ConstraintKind = LatencyKind | QualityKind | PrivacyKind | CostKind | OtherKind

  datatype ConstraintValue = Number(n: real) | Word(s: string)

  datatype Constraint = Constraint(kind: ConstraintKind, value: ConstraintValue)

  datatype Request = Request(
    identity: WorkloadIdentity, taskType: string, input: map<string, Value>, context: map<string, Value>, constraints: seq<Constraint>)

  datatype Signals = Signals(
    identity: WorkloadIdentity,
    modalities: set<string>,
    imagePresent: Option<bool>,
    audioPresent: Option<bool>,
    videoPresent: Option<bool>,
    structuredDataPresent: Option<bool>,
    contextSupplied: Option<bool>,
    conversationPresent: Option<bool>,
    longContext: Option<bool>,
    contextReferences: set<string>,
    toolUse: Option<bool>,
    declaredTools: set<string>,
    externalAction: Option<bool>,
    latency: Option<ConstraintValue>,
    quality: Option<ConstraintValue>,
    privacy: Option<ConstraintValue>,
    outputType: Option<string>,
    structuredOutput: Option<bool>)

  predicate Yes(o: Option<bool>) { o == Some(true) }

  function StringValues(v: Value): set<string> {
    match v
    case Str(s) => if Strip(s) == "" then {} else {Strip(s)}
    case Items(items) => set i | 0 <= i < |items| && items[i].Str? && Strip(items[i].s) != "" :: Strip(items[i].s)
    case _ => {}
  }

  function Lookup(m: map<string, Value>, key: string): Value { if key in m then m[key] else Null }

  function ExplicitBool(m: map<string, Value>, key: string): Option<bool> {
    if key in m && m[key].Flag? then Some(m[key].b) else None
  }

  predicate Truthy(v: Value) {
    match v
    case Null => false
    case Flag(b) => b
    case Str(s) => s != ""
    case Items(items) => items != []
    case Fields(size) => size != 0
    case Num(n) => n != 0.0
  }

  const MODALITY_KEYS: map<string, string> := map[
    "text" := "text", "image" := "image", "images" := "image", "audio" := "audio", "video" := "video",
    "structured_data" := "structured_data", "code" := "code"]

  function ModalityPresence(r: Request, modality: string): Option<bool> {
    if modality == "code" && r.taskType == "code" then Some(true)
    else if forall k :: k in MODALITY_KEYS && MODALITY_KEYS[k] == modality ==> k !in r.input then None
    else Some(exists k :: k in MODALITY_KEYS && MODALITY_KEYS[k] == modality && Lookup(r.input, k) != Null)
  }

  function OfKind(cs: seq<Constraint>, kind: ConstraintKind): (r: seq<Constraint>)
    ensures forall c :: c in r ==> c in cs && c.kind == kind
  {
    if cs == [] then [] else (if cs[0].kind == kind then [cs[0]] else []) + OfKind(cs[1..], kind)
  }

  function TheConstraint(cs: seq<Constraint>, kind: ConstraintKind): Option<ConstraintValue> {
    var m := OfKind(cs, kind);
    if m == [] then None else Some(m[0].value)
  }

  /** Two canonical constraints of one kind make the request ambiguous. */
  predicate Ambiguous(cs: seq<Constraint>) {
    || |OfKind(cs, LatencyKind)| > 1 || |OfKind(cs, QualityKind)| > 1
    || |OfKind(cs, PrivacyKind)| > 1 || |OfKind(cs, CostKind)| > 1
  }

  function ExtractSignals(r: Request): Option<Signals> {
    if Ambiguous(r.constraints) then None else
    var modalities := (set k | k in MODALITY_KEYS && Lookup(r.input, k) != Null :: MODALITY_KEYS[k])
                      + (if r.taskType == "code" then {"code"} else {});
    var references := if "references" in r.context then r.context["references"]
                      else Lookup(r.context, "retrieval_references");
    var output := Lookup(r.input, "output_type");
    Some(Signals(
      r.identity, modalities,
      ModalityPresence(r, "image"), ModalityPresence(r, "audio"), ModalityPresence(r, "video"),
      ModalityPresence(r, "structured_data"),
      if r.context != map[] then Some(true) else None,
      if "conversation" in r.context then Some(Truthy(r.context["conversation"])) else None,
      ExplicitBool(r.context, "long_context"),
      StringValues(references),
      ExplicitBool(r.input, "tool_use"),
      StringValues(Lookup(r.input, "tools")) + StringValues(Lookup(r.input, "capabilities")),
      ExplicitBool(r.input, "external_action_required"),
      TheConstraint(r.constraints, LatencyKind),
      TheConstraint(r.constraints, QualityKind),
      TheConstraint(r.constraints, PrivacyKind),
      if output.Str? && Strip(output.s) != "" then Some(Strip(output.s)) else None,
      ExplicitBool(r.input, "structured_output_required")))
  }

  // ----- inference

  /** The one modality of a profile: several explicit ones make it multimodal; none, or one that is
      not in the table, is an error. */
  function ModalityOf(s: Signals): Option<Modality> {
    if |s.modalities| > 1 then Some(Multimodal)
    else if s.modalities == {"text"} then Some(Text)
    else if s.modalities == {"image"} then Some(Image)
    else if s.modalities == {"audio"} then Some(Audio)
    else if s.modalities == {"video"} then Some(Video)
    else if s.modalities == {"structured_data"} then Some(StructuredData)
    else if s.modalities == {"code"} then Some(Code)
    else None
  }

  predicate HasTools(s: Signals) { Yes(s.toolUse) || s.declaredTools != {} }

  predicate HasRetrieval(s: Signals) { s.contextReferences != {} }

  function ReasoningOf(s: Signals): Complexity {
    if Yes(s.longContext) && HasTools(s) && HasRetrieval(s) then Deep
    else if Yes(s.longContext) && (HasTools(s) || HasRetrieval(s)) then High
    else if HasTools(s) && HasRetrieval(s) then Moderate
    else if HasTools(s) || HasRetrieval(s) || Yes(s.contextSupplied) then Low
    else Minimal
  }

  function ContextOf(s: Signals): ContextMagnitude {
    if Yes(s.longContext) then Long
    else if Yes(s.conversationPresent) || HasRetrieval(s) then Extended
    else if Yes(s.contextSupplied) then StandardContext
    else Short
  }

  function LatencyOf(s: Signals): Latency {
    match s.latency
    case Some(Number(n)) => if n <= 250.0 then Realtime else if n <= 1000.0 then Interactive
                            else if n <= 10000.0 then Relaxed else Batch
    case _ => Batch
  }

  function QualityOf(s: Signals): Quality {
    match s.quality
    case Some(Number(n)) => if n >= 0.95 then Critical else if n >= 0.80 then HighQuality else Standard
    case _ => Standard
  }

  function PrivacyOf(s: Signals): Option<Privacy> {
    match s.privacy
    case None => Some(Restricted)
    case Some(Word("public")) => Some(Public)
    case Some(Word("internal")) => Some(Internal)
    case Some(Word("confidential")) => Some(Confidential)
    case Some(Word("restricted")) => Some(Restricted)
    case _ => None
  }

  /** The capabilities that the modality itself calls for. */
  function ModalityCapabilities(s: Signals, m: Modality): set<Capability> {
    var base := match m
                case Image => {Vision}
                case Video => {Vision}
                case Audio => {Speech}
                case StructuredData => {StructuredOutput}
                case _ => {Generation};
    base
    + (if m == Multimodal && (Yes(s.imagePresent) || Yes(s.videoPresent)) then {Vision} else {})
    + (if m == Multimodal && Yes(s.audioPresent) then {Speech} else {})
  }

  function CapabilitiesOf(s: Signals, m: Modality): set<Capability> {
    ModalityCapabilities(s, m)
    + (if HasTools(s) then {ToolUse} else {})
    + (if HasRetrieval(s) then {Retrieval} else {})
    + (if Yes(s.structuredOutput) then {StructuredOutput} else {})
    + (if "code_execution" in s.declaredTools then {CodeExecution} else {})
    + (if ReasoningOf(s) != Minimal then {Reasoning} else {})
  }

  function ConfidenceOf(s: Signals): int {
    var score := 20
      + (if s.latency.Some? then 15 else 0)
      + (if s.quality.Some? then 10 else 0)
      + (if s.privacy.Some? then 10 else 0)
      + (if Yes(s.contextSupplied) then 10 else 0)
      + (if HasTools(s) then 10 else 0)
      + (if HasRetrieval(s) then 10 else 0)
      + (if s.outputType.Some? || s.structuredOutput.Some? then 5 else 0);
    if score < 100 then score else 100
  }

  const INFERENCE_SOURCES: set<string> := {
    "signals.content", "signals.context", "signals.tools", "signals.latency_constraint",
    "signals.quality_constraint", "signals.privacy_constraint", "signals.output", "signals.capabilities",
    "signals.completeness", "signals.reasoning"}

  function Infer(s: Signals): Option<Profile> {
    if ModalityOf(s).None? || PrivacyOf(s).None? then None else
    var m := ModalityOf(s).value;
    Some(Profile(
      s.identity, [m], ReasoningOf(s), ContextOf(s),
      HasTools(s) || Yes(s.externalAction),
      LatencyOf(s), QualityOf(s), PrivacyOf(s).value,
      CapabilitiesOf(s, m), INFERENCE_SOURCES, ConfidenceOf(s)))
  }

  function With(c: set<Capability>, present: bool, x: Capability): (r: set<Capability>)
    ensures r == c + (if present then {x} else {})
  {
    if present then c + {x} else c
  }

  method StartCapabilities(s: Signals, m: Modality) returns (capabilities: set<Capability>)
    ensures capabilities == ModalityCapabilities(s, m)
  {
    if m == Image || m == Video {
      capabilities := {Vision};
    } else if m == Audio {
      capabilities := {Speech};
    } else if m == StructuredData {
      capabilities := {StructuredOutput};
    } else {
      capabilities := {Generation};
    }
    if m == Multimodal {
      capabilities := With(capabilities, Yes(s.imagePresent) || Yes(s.videoPresent), Vision);
      capabilities := With(capabilities, Yes(s.audioPresent), Speech);
    }
  }

  /** The capabilities, added one by one. */
  method InferCapabilities(s: Signals, m: Modality) returns (capabilities: set<Capability>)
    ensures capabilities == CapabilitiesOf(s, m)
  {
    capabilities := StartCapabilities(s, m);
    capabilities := With(capabilities, Yes(s.toolUse) || s.declaredTools != {}, ToolUse);
    capabilities := With(capabilities, s.contextReferences != {}, Retrieval);
    capabilities := With(capabilities, Yes(s.structuredOutput), StructuredOutput);
    capabilities := With(capabilities, "code_execution" in s.declaredTools, CodeExecution);
    capabilities := With(capabilities, ReasoningOf(s) != Minimal, Reasoning);
  }

  /** The confidence, group by group. */
  method InferConfidence(s: Signals) returns (score: int)
    ensures score == ConfidenceOf(s)
  {
    score := 20;
    if s.latency.Some? { score := score + 15; }
    if s.quality.Some? { score := score + 10; }
    if s.privacy.Some? { score := score + 10; }
    if Yes(s.contextSupplied) { score := score + 10; }
    if Yes(s.toolUse) || s.declaredTools != {} { score := score + 10; }
    if s.contextReferences != {} { score := score + 10; }
    if s.outputType.Some? || s.structuredOutput.Some? { score := score + 5; }
    score := if score > 100 then 100 else score;
  }

  method InferWorkload(s: Signals) returns (p: Option<Profile>)
    ensures p == Infer(s)
  {
    var m := ModalityOf(s);
    var privacy := PrivacyOf(s);
    if m.None? || privacy.None? {
      return None;
    }
    var external := Yes(s.toolUse) || s.declaredTools != {} || Yes(s.externalAction);
    var capabilities := InferCapabilities(s, m.value);
    var confidence := InferConfidence(s);
    return Some(Profile(s.identity, [m.value], ReasoningOf(s), ContextOf(s), external, LatencyOf(s), QualityOf(s),
                        privacy.value, capabilities, INFERENCE_SOURCES, confidence));
  }

  // ----- what extraction finds

  /** A key is supplied when it is there and not null. */
  predicate Supplied(m: map<string, Value>, key: string) { key in m && m[key] != Null }

  /** t is the text of a value, or of one of its items, without surrounding blanks. */
  ghost predicate Mentions(m: map<string, Value>, key: string, t: string) {
    && key in m && t != ""
    && ((m[key].Str? && Strip(m[key].s) == t)
        || (m[key].Items? && exists x :: x in m[key].items && x.Str? && Strip(x.s) == t))
  }

  lemma StringValuesAre(m: map<string, Value>, key: string, t: string)
    ensures t in StringValues(Lookup(m, key)) <==> Mentions(m, key, t)
  {
    if key in m && m[key].Items? {
      var items := m[key].items;
      if x :| x in items && x.Str? && Strip(x.s) == t && t != "" {
        var i :| 0 <= i < |items| && items[i] == x;
      }
    }
  }

  /** Every modality is read from the key of its name, and images from a second one. */
  lemma ModalityKeys(k: string, name: string)
    ensures k in MODALITY_KEYS && MODALITY_KEYS[k] == name <==>
              || (k == name && name in {"text", "image", "audio", "video", "structured_data", "code"})
              || (k == "images" && name == "image")
  {}

  predicate IsModality(name: string) { name in {"text", "image", "audio", "video", "structured_data", "code"} }

  /** The modalities are those of the supplied inputs, and code for a coding task. */
  lemma ExtractedModalities(r: Request, name: string)
    requires ExtractSignals(r).Some?
    ensures name in ExtractSignals(r).value.modalities <==>
              || (IsModality(name) && Supplied(r.input, name))
              || (name == "image" && Supplied(r.input, "images"))
              || (name == "code" && r.taskType == "code")
  {
    ModalityIsRead(r, name);
    if k :| k in MODALITY_KEYS && Lookup(r.input, k) != Null && MODALITY_KEYS[k] == name {
      ModalityKeys(k, name);
    }
    ModalityKeys(name, name);
    ModalityKeys("images", name);
  }

  lemma ModalityIsRead(r: Request, name: string)
    requires ExtractSignals(r).Some?
    ensures name in ExtractSignals(r).value.modalities <==>
              || (exists k :: k in MODALITY_KEYS && Lookup(r.input, k) != Null && MODALITY_KEYS[k] == name)
              || (name == "code" && r.taskType == "code")
  {}

  /** A presence flag is unknown without a key of its modality, and set when one of them is supplied. */
  lemma ExtractedPresence(r: Request)
    requires ExtractSignals(r).Some?
    ensures var s := ExtractSignals(r).value;
            && (s.imagePresent == None <==> "image" !in r.input && "images" !in r.input)
            && (s.imagePresent == Some(true) <==> Supplied(r.input, "image") || Supplied(r.input, "images"))
            && (s.audioPresent == None <==> "audio" !in r.input)
            && (s.audioPresent == Some(true) <==> Supplied(r.input, "audio"))
            && (s.videoPresent == None <==> "video" !in r.input)
            && (s.videoPresent == Some(true) <==> Supplied(r.input, "video"))
            && (s.structuredDataPresent == None <==> "structured_data" !in r.input)
            && (s.structuredDataPresent == Some(true) <==> Supplied(r.input, "structured_data"))
  {
    PresenceOf(r, "image", "images");
    PresenceOf(r, "audio", "audio");
    PresenceOf(r, "video", "video");
    PresenceOf(r, "structured_data", "structured_data");
  }

  lemma PresenceOf(r: Request, name: string, other: string)
    requires name != "code" && IsModality(name) && other == if name == "image" then "images" else name
    ensures ModalityPresence(r, name) == None <==> name !in r.input && other !in r.input
    ensures ModalityPresence(r, name) == Some(true) <==> Supplied(r.input, name) || Supplied(r.input, other)
  {
    KeysOf(name, other);
    assert Supplied(r.input, name) ==> Lookup(r.input, name) != Null;
    assert Supplied(r.input, other) ==> Lookup(r.input, other) != Null;
  }

  lemma KeysOf(name: string, other: string)
    requires IsModality(name) && other == if name == "image" then "images" else name
    ensures name in MODALITY_KEYS && MODALITY_KEYS[name] == name && other in MODALITY_KEYS && MODALITY_KEYS[other] == name
    ensures forall k :: k in MODALITY_KEYS && MODALITY_KEYS[k] == name ==> k == name || k == other
  {
    ModalityKeys(name, name);
    ModalityKeys(other, name);
    forall k | k in MODALITY_KEYS && MODALITY_KEYS[k] == name ensures k == name || k == other {
      ModalityKeys(k, name);
    }
  }

  /** Flags are taken from boolean values only, texts from strings and lists of strings. */
  lemma ExtractedContext(r: Request)
    requires ExtractSignals(r).Some?
    ensures var s := ExtractSignals(r).value;
            && s.identity == r.identity
            && (s.contextSupplied == Some(true) <==> r.context != map[])
            && (s.conversationPresent == None <==> "conversation" !in r.context)
            && (s.conversationPresent == Some(true) <==> "conversation" in r.context && Truthy(r.context["conversation"]))
            && (forall b :: s.longContext == Some(b) <==> "long_context" in r.context && r.context["long_context"] == Flag(b))
            && (forall b :: s.toolUse == Some(b) <==> "tool_use" in r.input && r.input["tool_use"] == Flag(b))
            && (forall b :: s.externalAction == Some(b) <==>
                  "external_action_required" in r.input && r.input["external_action_required"] == Flag(b))
            && (forall b :: s.structuredOutput == Some(b) <==>
                  "structured_output_required" in r.input && r.input["structured_output_required"] == Flag(b))
  {}

  lemma ExtractedTexts(r: Request, t: string)
    requires ExtractSignals(r).Some?
    ensures var s := ExtractSignals(r).value;
            && (t in s.contextReferences <==>
                  Mentions(r.context, if "references" in r.context then "references" else "retrieval_references", t))
            && (t in s.declaredTools <==> Mentions(r.input, "tools", t) || Mentions(r.input, "capabilities", t))
            && (s.outputType == Some(t) <==>
                  "output_type" in r.input && r.input["output_type"].Str? && Strip(r.input["output_type"].s) == t != "")
  {
    StringValuesAre(r.context, "references", t);
    StringValuesAre(r.context, "retrieval_references", t);
    StringValuesAre(r.input, "tools", t);
    StringValuesAre(r.input, "capabilities", t);
  }

  /** Two constraints of a kind. */
  ghost predicate Doubled(cs: seq<Constraint>, kind: ConstraintKind) {
    exists i, j :: 0 <= i < j < |cs| && cs[i].kind == kind && cs[j].kind == kind
  }

  lemma {:induction false} OfKindExactly(cs: seq<Constraint>, kind: ConstraintKind)
    ensures OfKind(cs, kind) == [] <==> forall c :: c in cs ==> c.kind != kind
    ensures |OfKind(cs, kind)| > 1 <==> Doubled(cs, kind)
  {
    if cs != [] {
      var rest := cs[1..];
      OfKindExactly(rest, kind);
      DoubledByHead(cs, kind);
    }
  }

  lemma DoubledByHead(cs: seq<Constraint>, kind: ConstraintKind)
    requires cs != []
    ensures Doubled(cs, kind) <==>
              Doubled(cs[1..], kind) || (cs[0].kind == kind && exists c :: c in cs[1..] && c.kind == kind)
  {
    var rest := cs[1..];
    if i, j :| 0 <= i < j < |rest| && rest[i].kind == kind && rest[j].kind == kind {
      assert cs[i+1] == rest[i] && cs[j+1] == rest[j];
    }
    if i, j :| 0 <= i < j < |cs| && cs[i].kind == kind && cs[j].kind == kind {
      assert cs[j] == rest[j-1] && rest[j-1] in rest;
      if i > 0 { assert cs[i] == rest[i-1]; }
    }
    if cs[0].kind == kind {
      if c :| c in rest && c.kind == kind {
        var k :| 0 <= k < |rest| && rest[k] == c;
        assert cs[0].kind == kind && cs[k+1].kind == kind;
      }
    }
  }

  /** Extraction fails exactly for two constraints of one canonical kind. */
  lemma ExtractionFailsExactly(r: Request)
    ensures ExtractSignals(r).None? <==> exists kind :: kind != OtherKind && Doubled(r.constraints, kind)
  {
    OfKindExactly(r.constraints, LatencyKind);
    OfKindExactly(r.constraints, QualityKind);
    OfKindExactly(r.constraints, PrivacyKind);
    OfKindExactly(r.constraints, CostKind);
  }

  /** Otherwise each signal is the one constraint of its kind. */
  lemma ExtractedConstraints(r: Request, v: ConstraintValue)
    requires ExtractSignals(r).Some?
    ensures var s := ExtractSignals(r).value;
            && (s.latency == Some(v) <==> Constraint(LatencyKind, v) in r.constraints)
            && (s.quality == Some(v) <==> Constraint(QualityKind, v) in r.constraints)
            && (s.privacy == Some(v) <==> Constraint(PrivacyKind, v) in r.constraints)
  {
    TheConstraintIs(r.constraints, LatencyKind, v);
    TheConstraintIs(r.constraints, QualityKind, v);
    TheConstraintIs(r.constraints, PrivacyKind, v);
  }

  lemma {:induction false} TheConstraintIs(cs: seq<Constraint>, kind: ConstraintKind, v: ConstraintValue)
    ensures |OfKind(cs, kind)| <= 1 ==> (TheConstraint(cs, kind) == Some(v) <==> Constraint(kind, v) in cs)
  {
    OfKindExactly(cs, kind);
    if |OfKind(cs, kind)| <= 1 && Constraint(kind, v) in cs {
      var i :| 0 <= i < |cs| && cs[i] == Constraint(kind, v);
      var found := OfKind(cs, kind)[0];
      var j :| 0 <= j < |cs| && cs[j] == found;
      if i != j { assert !Doubled(cs, kind); }
    }
  }

  // ----- calibration

  datatype CalibrationStatus = PASS | DEGRADED | FAIL

  /** What calibration expects of the modality and of the reasoning, by its own reading of the signals. */
  function ExpectedModality(s: Signals): Option<Modality> {
    if s.modalities == {} then None
    else if |s.modalities| > 1 then Some(Multimodal)
    else if "text" in s.modalities then Some(Text)
    else if "image" in s.modalities then Some(Image)
    else if "audio" in s.modalities then Some(Audio)
    else if "video" in s.modalities then Some(Video)
    else if "structured_data" in s.modalities then Some(StructuredData)
    else if "code" in s.modalities then Some(Code)
    else None
  }

  function ExpectedReasoning(s: Signals): Complexity {
    var tools := Yes(s.toolUse) || |s.declaredTools| > 0;
    var retrieval := |s.contextReferences| > 0;
    match (Yes(s.longContext), tools, retrieval)
    case (true, true, true) => Deep
    case (true, true, false) => High
    case (true, false, true) => High
    case (false, true, true) => Moderate
    case (_, true, _) => Low
    case (_, _, true) => Low
    case _ => if Yes(s.contextSupplied) then Low else Minimal
  }

  datatype Strength = Explicit | Derived | Defaulted

  datatype Field =
    | ModalitiesField | ReasoningField | ContextField | ToolsField | LatencyField | QualityField | PrivacyField
    | CapabilitiesField | EvidenceField | IdentityField

  const EVIDENCE_SOURCES: set<string> := {
    "signals.content", "signals.reasoning", "signals.context", "signals.tools", "signals.latency_constraint",
    "signals.quality_constraint", "signals.privacy_constraint", "signals.capabilities"}

  function ExplicitIf(b: bool): Strength { if b then Explicit else Defaulted }

  function Strengths(s: Signals): seq<Strength> {
    [ ExplicitIf(s.modalities != {}),
      if ExpectedReasoning(s) != Minimal then Derived else Defaulted,
      ExplicitIf(Yes(s.contextSupplied)),
      ExplicitIf(HasTools(s) || Yes(s.externalAction)),
      ExplicitIf(s.latency.Some?),
      ExplicitIf(s.quality.Some?),
      ExplicitIf(s.privacy.Some?),
      Derived ]
  }

  function CountOf(q: seq<Strength>, x: Strength): nat {
    if q == [] then 0 else (if q[0] == x then 1 else 0) + CountOf(q[1..], x)
  }

  function PrivacyRank(p: Privacy): nat {
    match p case Public => 0 case Internal => 1 case Confidential => 2 case Restricted => 3
  }

  function WordRank(w: string): Option<nat> {
    match w
    case "public" => Some(0)
    case "internal" => Some(1)
    case "confidential" => Some(2)
    case "restricted" => Some(3)
    case _ => None
  }

  function ReasoningRank(c: Complexity): nat {
    match c case Minimal => 0 case Low => 1 case Moderate => 2 case High => 3 case Deep => 4
  }

  datatype Calibration = Calibration(status: CalibrationStatus, confidence: int, failures: seq<Field>)

  /** The failures, appended check by check. */
  method CalibrationFailures(s: Signals, p: Profile) returns (failures: seq<Field>)
    ensures failures == [] <==> Supported(s, p)
  {
    failures := if s.identity != p.identity then [IdentityField] else [];
    if !(EVIDENCE_SOURCES <= p.evidenceSources) { failures := failures + [EvidenceField]; }
    if ExpectedModality(s).None? || p.modalities != [ExpectedModality(s).value] { failures := failures + [ModalitiesField]; }
    if !(HasTools(s) || Yes(s.externalAction)) && (p.externalExecution || ToolUse in p.capabilities) {
      failures := failures + [ToolsField];
    }
    var ofCapabilities := CapabilityFailures(s, p);
    var ofBounds := BoundFailures(s, p);
    failures := failures + ofCapabilities + ofBounds;
  }

  method CapabilityFailures(s: Signals, p: Profile) returns (failures: seq<Field>)
    ensures failures == [] <==> CapabilitiesSupported(s, p)
  {
    failures := if !HasRetrieval(s) && Retrieval in p.capabilities then [CapabilitiesField] else [];
    if !Yes(s.structuredOutput) && !Yes(s.structuredDataPresent) && StructuredOutput in p.capabilities {
      failures := failures + [CapabilitiesField];
    }
    if !(Yes(s.imagePresent) || Yes(s.videoPresent)) && Vision in p.capabilities {
      failures := failures + [CapabilitiesField];
    }
    if !Yes(s.audioPresent) && Speech in p.capabilities { failures := failures + [CapabilitiesField]; }
    if "code_execution" !in s.declaredTools && CodeExecution in p.capabilities {
      failures := failures + [CapabilitiesField];
    }
  }

  method BoundFailures(s: Signals, p: Profile) returns (failures: seq<Field>)
    ensures failures == [] <==> BoundsSupported(s, p)
  {
    failures := if s.latency.None? && p.latency == Realtime then [LatencyField] else [];
    if s.quality.None? && p.quality == Critical { failures := failures + [QualityField]; }
    match s.privacy {
      case Some(Word(w)) =>
        if WordRank(w).None? || PrivacyRank(p.privacy) < WordRank(w).value {
          failures := failures + [PrivacyField];
        }
      case _ =>
    }
    if ReasoningRank(p.complexity) > ReasoningRank(ExpectedReasoning(s)) {
      failures := failures + [ReasoningField];
    }
  }

  /** The signals support everything the profile claims. */
  predicate Supported(s: Signals, p: Profile) {
    && s.identity == p.identity
    && EVIDENCE_SOURCES <= p.evidenceSources
    && ExpectedModality(s).Some? && p.modalities == [ExpectedModality(s).value]
    && (p.externalExecution || ToolUse in p.capabilities ==> HasTools(s) || Yes(s.externalAction))
    && CapabilitiesSupported(s, p) && BoundsSupported(s, p)
  }

  predicate CapabilitiesSupported(s: Signals, p: Profile) {
    && (Retrieval in p.capabilities ==> HasRetrieval(s))
    && (StructuredOutput in p.capabilities ==> Yes(s.structuredOutput) || Yes(s.structuredDataPresent))
    && (Vision in p.capabilities ==> Yes(s.imagePresent) || Yes(s.videoPresent))
    && (Speech in p.capabilities ==> Yes(s.audioPresent))
    && (CodeExecution in p.capabilities ==> "code_execution" in s.declaredTools)
  }

  predicate BoundsSupported(s: Signals, p: Profile) {
    && (p.latency == Realtime ==> s.latency.Some?)
    && (p.quality == Critical ==> s.quality.Some?)
    && (s.privacy.Some? && s.privacy.value.Word? ==>
          WordRank(s.privacy.value.s).Some? && PrivacyRank(p.privacy) >= WordRank(s.privacy.value.s).value)
    && ReasoningRank(p.complexity) <= ReasoningRank(ExpectedReasoning(s))
  }

  /** Calibration of a profile against its signals. */
  method Calibrate(s: Signals, p: Profile) returns (c: Calibration)
    ensures c.status == FAIL <==> !Supported(s, p)
    ensures c.status == PASS <==> Supported(s, p) && Missing(s) == 0
    ensures c.status == FAIL ==> c.confidence == 0
    ensures c.status != FAIL && 0 <= p.confidence <= 100 ==> 0 <= c.confidence <= p.confidence
    ensures c.status != FAIL ==> c.confidence == AtMost(p.confidence, Ceiling(s))
  {
    StrengthsAreCounted(s);
    var failures := CalibrationFailures(s, p);
    if failures != [] {
      return Calibration(FAIL, 0, failures);
    }
    var strengths := Strengths(s);
    var defaulted: int, derived: int := CountOf(strengths, Defaulted), CountOf(strengths, Derived);
    CountIsZero(strengths, Defaulted);
    StrengthBound(s);
    var ceiling: int := 100 - 10 * defaulted - 3 * derived;
    ceiling := if ceiling < 0 then 0 else ceiling;
    return Calibration(if defaulted > 0 then DEGRADED else PASS,
                       if p.confidence < ceiling then p.confidence else ceiling, []);
  }

  function AtMost(a: int, b: int): int { if a < b then a else b }

  /** How many fields no signal speaks for: the modality, the complexity, the context, the tools, and
      the three constraints. */
  function Missing(s: Signals): nat {
    var tools := Yes(s.toolUse) || s.declaredTools != {};
    (if s.modalities == {} then 1 else 0)
    + (if !tools && s.contextReferences == {} && !Yes(s.contextSupplied) then 1 else 0)
    + (if !Yes(s.contextSupplied) then 1 else 0)
    + (if !tools && !Yes(s.externalAction) then 1 else 0)
    + (if s.latency == None then 1 else 0)
    + (if s.quality == None then 1 else 0)
    + (if s.privacy == None then 1 else 0)
  }

  /** What calibration admits: 97, less 10 for each missing field, and less 3 for a derived complexity. */
  function Ceiling(s: Signals): nat {
    var minimal := !Yes(s.toolUse) && s.declaredTools == {} && s.contextReferences == {} && !Yes(s.contextSupplied);
    97 - 10 * Missing(s) - (if minimal then 0 else 3)
  }

  lemma StrengthsAreCounted(s: Signals)
    ensures CountOf(Strengths(s), Defaulted) == Missing(s)
    ensures 100 - 10 * CountOf(Strengths(s), Defaulted) - 3 * CountOf(Strengths(s), Derived) == Ceiling(s)
  {
    var q := Strengths(s);
    assert |q| == 8;
    EightCount(q, Defaulted);
    EightCount(q, Derived);
  }

  function One(q: seq<Strength>, i: nat, x: Strength): nat
    requires i < |q|
  {
    if q[i] == x then 1 else 0
  }

  lemma EightCount(q: seq<Strength>, x: Strength)
    requires |q| == 8
    ensures CountOf(q, x) == One(q, 0, x) + One(q, 1, x) + One(q, 2, x) + One(q, 3, x)
                             + One(q, 4, x) + One(q, 5, x) + One(q, 6, x) + One(q, 7, x)
  {
    FromCount(q, 0, x);
    FromCount(q, 1, x);
    FromCount(q, 2, x);
    FromCount(q, 3, x);
    FromCount(q, 4, x);
    FromCount(q, 5, x);
    FromCount(q, 6, x);
    FromCount(q, 7, x);
    assert q[0..] == q && q[8..] == [];
  }

  lemma FromCount(q: seq<Strength>, i: nat, x: Strength)
    requires i < |q|
    ensures CountOf(q[i..], x) == One(q, i, x) + CountOf(q[i+1..], x)
  {
    assert q[i..][1..] == q[i+1..];
  }

  lemma {:induction false} CountIsZero(q: seq<Strength>, x: Strength)
    ensures CountOf(q, x) == 0 <==> x !in q
  {
    if q != [] {
      CountIsZero(q[1..], x);
    }
  }

  /** The last field is always derived, so at most seven are defaulted. */
  lemma StrengthBound(s: Signals)
    ensures CountOf(Strengths(s), Defaulted) <= 7
  {
    var q := Strengths(s);
    assert q == q[..7] + [Derived];
    CountOfConcat(q[..7], [Derived], Defaulted);
    CountBound(q[..7], Defaulted);
  }

  lemma {:induction false} CountOfConcat(a: seq<Strength>, b: seq<Strength>, x: Strength)
    ensures CountOf(a + b, x) == CountOf(a, x) + CountOf(b, x)
  {
    if a == [] {
      assert a + b == b;
    } else {
      CountOfConcat(a[1..], b, x);
      assert (a + b)[1..] == a[1..] + b;
    }
  }

  lemma {:induction false} CountBound(q: seq<Strength>, x: Strength)
    ensures CountOf(q, x) <= |q|
  {
    if q != [] { CountBound(q[1..], x); }
  }

  // ----- the main results

  /** The modality is backed by the presence flag it was read from. */
  predicate PresenceBacked(s: Signals, m: Modality) {
    && (m == StructuredData ==> Yes(s.structuredDataPresent) || Yes(s.structuredOutput))
    && (m == Image || m == Video ==> Yes(s.imagePresent) || Yes(s.videoPresent))
    && (m == Audio ==> Yes(s.audioPresent))
  }

  lemma InferredCapabilities(s: Signals, m: Modality)
    ensures var c := CapabilitiesOf(s, m);
            && (Vision in c <==> m == Image || m == Video || (m == Multimodal && (Yes(s.imagePresent) || Yes(s.videoPresent))))
            && (Speech in c <==> m == Audio || (m == Multimodal && Yes(s.audioPresent)))
            && (StructuredOutput in c <==> m == StructuredData || Yes(s.structuredOutput))
            && (ToolUse in c <==> Yes(s.toolUse) || s.declaredTools != {})
            && (Retrieval in c <==> s.contextReferences != {})
            && (CodeExecution in c <==> "code_execution" in s.declaredTools)
            && (Reasoning in c <==> Yes(s.toolUse) || s.declaredTools != {} || s.contextReferences != {} || Yes(s.contextSupplied))
            && (Generation in c <==> m in {Text, Code, Multimodal})
            && c != {}
  {}

  /** The complexity of an inferred profile, from the signals alone. */
  lemma InferredComplexity(s: Signals)
    requires Infer(s).Some?
    ensures var c := Infer(s).value.complexity;
            var long, tools, references := s.longContext == Some(true), s.toolUse == Some(true) || s.declaredTools != {}, s.contextReferences != {};
            && (c == Deep <==> long && tools && references)
            && (c in {High, Deep} <==> long && (tools || references))
            && (c in {Moderate, High, Deep} <==> (tools && references) || (long && (tools || references)))
            && (c == Minimal <==> !tools && !references && s.contextSupplied != Some(true))
  {}

  /** Context, latency, quality and privacy: the bands that the signals fall into. */
  lemma InferredBands(s: Signals)
    requires Infer(s).Some?
    ensures var p := Infer(s).value;
            && p.identity == s.identity
            && (p.context == Long <==> s.longContext == Some(true))
            && (p.context == Short <==>
                  s.longContext != Some(true) && s.conversationPresent != Some(true) && s.contextReferences == {}
                  && s.contextSupplied != Some(true))
            && (p.context == StandardContext ==> s.conversationPresent != Some(true) && s.contextReferences == {})
            && (p.context == Extended ==> s.conversationPresent == Some(true) || s.contextReferences != {})
            && (p.externalExecution <==> s.toolUse == Some(true) || s.declaredTools != {} || s.externalAction == Some(true))
            && (p.latency == Realtime <==> exists n :: s.latency == Some(Number(n)) && n <= 250.0)
            && (p.latency == Interactive <==> exists n :: s.latency == Some(Number(n)) && 250.0 < n <= 1000.0)
            && (p.latency == Relaxed <==> exists n :: s.latency == Some(Number(n)) && 1000.0 < n <= 10000.0)
            && (p.quality == Critical <==> exists n :: s.quality == Some(Number(n)) && n >= 0.95)
            && (p.quality == HighQuality <==> exists n :: s.quality == Some(Number(n)) && 0.80 <= n < 0.95)
  {}

  /** The modality is read off the names: several make it multimodal, none or an unknown one is an error. */
  lemma InferredModality(s: Signals)
    ensures ModalityOf(s) == None <==> s.modalities == {} || exists name :: s.modalities == {name} && !IsModality(name)
    ensures ModalityOf(s) == Some(Multimodal) <==> |s.modalities| > 1
    ensures ModalityOf(s) == Some(Text) <==> s.modalities == {"text"}
    ensures ModalityOf(s) == Some(Image) <==> s.modalities == {"image"}
    ensures ModalityOf(s) == Some(Audio) <==> s.modalities == {"audio"}
    ensures ModalityOf(s) == Some(Video) <==> s.modalities == {"video"}
    ensures ModalityOf(s) == Some(StructuredData) <==> s.modalities == {"structured_data"}
    ensures ModalityOf(s) == Some(Code) <==> s.modalities == {"code"}
  {
    if s.modalities != {} && |s.modalities| <= 1 {
      var name :| name in s.modalities;
      SubsetSize({name}, s.modalities);
      OneElement(s.modalities, name);
      OneModality(s, name);
    }
  }

  lemma OneModality(s: Signals, name: string)
    requires s.modalities == {name}
    ensures ModalityOf(s) == None <==> !IsModality(name)
    ensures ModalityOf(s) != Some(Multimodal)
    ensures ModalityOf(s) == Some(Text) <==> name == "text"
    ensures ModalityOf(s) == Some(Image) <==> name == "image"
    ensures ModalityOf(s) == Some(Audio) <==> name == "audio"
    ensures ModalityOf(s) == Some(Video) <==> name == "video"
    ensures ModalityOf(s) == Some(StructuredData) <==> name == "structured_data"
    ensures ModalityOf(s) == Some(Code) <==> name == "code"
  {}

  /** A privacy constraint keeps its level; without one the strictest is inferred. */
  lemma InferredPrivacy(s: Signals)
    ensures PrivacyOf(s) == None <==> s.privacy.Some? && s.privacy !in {
              Some(Word("public")), Some(Word("internal")), Some(Word("confidential")), Some(Word("restricted"))}
    ensures PrivacyOf(s) == Some(Restricted) <==> s.privacy == None || s.privacy == Some(Word("restricted"))
    ensures PrivacyOf(s) == Some(Confidential) <==> s.privacy == Some(Word("confidential"))
    ensures PrivacyOf(s) == Some(Internal) <==> s.privacy == Some(Word("internal"))
    ensures PrivacyOf(s) == Some(Public) <==> s.privacy == Some(Word("public"))
  {}

  /** Inference fails exactly for modalities that are none or unknown, and for a privacy that is no level. */
  lemma InferenceFailsExactly(s: Signals)
    ensures Infer(s).None? <==>
              || s.modalities == {} || (exists name :: s.modalities == {name} && !IsModality(name))
              || (s.privacy.Some? && s.privacy !in {
                    Some(Word("public")), Some(Word("internal")), Some(Word("confidential")), Some(Word("restricted"))})
  {
    InferredModality(s);
    InferredPrivacy(s);
  }

  /** t holds every piece of evidence that s holds, for the same workload and modalities. */
  predicate Extends(t: Signals, s: Signals) {
    && t.identity == s.identity && t.modalities == s.modalities
    && (Yes(s.imagePresent) ==> Yes(t.imagePresent)) && (Yes(s.audioPresent) ==> Yes(t.audioPresent))
    && (Yes(s.videoPresent) ==> Yes(t.videoPresent)) && (Yes(s.contextSupplied) ==> Yes(t.contextSupplied))
    && (Yes(s.conversationPresent) ==> Yes(t.conversationPresent)) && (Yes(s.longContext) ==> Yes(t.longContext))
    && s.contextReferences <= t.contextReferences && s.declaredTools <= t.declaredTools
    && (Yes(s.toolUse) ==> Yes(t.toolUse)) && (Yes(s.externalAction) ==> Yes(t.externalAction))
    && (Yes(s.structuredOutput) ==> Yes(t.structuredOutput))
    && (s.latency.Some? ==> t.latency == s.latency) && (s.quality.Some? ==> t.quality == s.quality)
    && (s.privacy.Some? ==> t.privacy == s.privacy)
    && (s.outputType.Some? || s.structuredOutput.Some? ==> t.outputType.Some? || t.structuredOutput.Some?)
  }

  /** More evidence never takes a capability away, and lowers neither complexity nor confidence. */
  lemma EvidenceNeverLowers(s: Signals, t: Signals)
    requires Extends(t, s) && Infer(s).Some? && Infer(t).Some?
    ensures Infer(s).value.capabilities <= Infer(t).value.capabilities
    ensures ReasoningRank(Infer(s).value.complexity) <= ReasoningRank(Infer(t).value.complexity)
    ensures Infer(s).value.confidence <= Infer(t).value.confidence
  {
    InferredParts(s);
    InferredParts(t);
    SameModality(s, t);
    CapabilitiesGrow(s, t, ModalityOf(s).value);
    ComplexityGrows(s, t);
    ConfidenceGrows(s, t);
  }

  lemma InferredParts(s: Signals)
    requires Infer(s).Some?
    ensures ModalityOf(s).Some? && Infer(s).value.capabilities == CapabilitiesOf(s, ModalityOf(s).value)
    ensures Infer(s).value.complexity == ReasoningOf(s) && Infer(s).value.confidence == ConfidenceOf(s)
  {}

  lemma SameModality(s: Signals, t: Signals)
    requires t.modalities == s.modalities
    ensures ModalityOf(t) == ModalityOf(s)
  {}

  lemma CapabilitiesGrow(s: Signals, t: Signals, m: Modality)
    requires Extends(t, s)
    ensures CapabilitiesOf(s, m) <= CapabilitiesOf(t, m)
  {
    InferredCapabilities(s, m);
    InferredCapabilities(t, m);
  }

  lemma ComplexityGrows(s: Signals, t: Signals)
    requires Extends(t, s)
    ensures ReasoningRank(ReasoningOf(s)) <= ReasoningRank(ReasoningOf(t))
  {}

  lemma ConfidenceGrows(s: Signals, t: Signals)
    requires Extends(t, s)
    ensures ConfidenceOf(s) <= ConfidenceOf(t)
  {
    assert HasTools(s) ==> HasTools(t);
    assert HasRetrieval(s) ==> HasRetrieval(t);
  }

  lemma InferredPrivacyIsKept(s: Signals)
    requires PrivacyOf(s).Some? && s.privacy.Some? && s.privacy.value.Word?
    ensures WordRank(s.privacy.value.s) == Some(PrivacyRank(PrivacyOf(s).value))
  {}

  lemma InferenceCitesItsSources()
    ensures EVIDENCE_SOURCES <= INFERENCE_SOURCES
  {}

  /** Inference and calibration read the signals alike, each by its own rules. */
  lemma ExpectationsAgree(s: Signals)
    ensures ExpectedModality(s) == ModalityOf(s)
    ensures ExpectedReasoning(s) == ReasoningOf(s)
  {
    if |s.modalities| == 1 {
      var name :| name in s.modalities;
      OneElement(s.modalities, name);
    }
  }

  lemma OneElement(a: set<string>, x: string)
    requires |a| == 1 && x in a
    ensures a == {x}
  {
    assert |a - {x}| == 0;
    assert a - {x} == {};
  }

  /** Whatever the signals, calibration rejects an inferred profile only because a presence flag does
      not back its modality. */
  lemma InferredIsSupportedExactly(s: Signals)
    requires Infer(s).Some?
    ensures Supported(s, Infer(s).value) <==> PresenceBacked(s, ModalityOf(s).value)
    ensures 20 <= Infer(s).value.confidence <= 100
  {
    InferenceCitesItsSources();
    ExpectationsAgree(s);
    InferredCapabilities(s, ModalityOf(s).value);
    InferredBoundsAreSupported(s);
  }

  lemma InferredBoundsAreSupported(s: Signals)
    requires Infer(s).Some?
    ensures BoundsSupported(s, Infer(s).value)
  {
    ExpectationsAgree(s);
    if s.privacy.Some? && s.privacy.value.Word? {
      InferredPrivacyIsKept(s);
    }
  }

  lemma ModalityIsExplicit(s: Signals)
    ensures ModalityOf(s) == Some(StructuredData) ==> "structured_data" in s.modalities
    ensures ModalityOf(s) == Some(Image) ==> "image" in s.modalities
    ensures ModalityOf(s) == Some(Video) ==> "video" in s.modalities
    ensures ModalityOf(s) == Some(Audio) ==> "audio" in s.modalities
  {}

  lemma ExtractionBacksPresence(r: Request, name: string)
    requires ExtractSignals(r).Some? && name in ExtractSignals(r).value.modalities && name != "code"
    ensures Yes(ModalityPresence(r, name))
  {
    var k :| k in MODALITY_KEYS && Lookup(r.input, k) != Null && MODALITY_KEYS[k] == name;
    assert k in r.input;
  }

  /** Signals that were extracted from a request always back the modality that is inferred. */
  lemma ExtractionBacksModality(r: Request)
    requires ExtractSignals(r).Some? && ModalityOf(ExtractSignals(r).value).Some?
    ensures PresenceBacked(ExtractSignals(r).value, ModalityOf(ExtractSignals(r).value).value)
  {
    var s := ExtractSignals(r).value;
    ModalityIsExplicit(s);
    if "structured_data" in s.modalities { ExtractionBacksPresence(r, "structured_data"); }
    if "image" in s.modalities { ExtractionBacksPresence(r, "image"); }
    if "video" in s.modalities { ExtractionBacksPresence(r, "video"); }
    if "audio" in s.modalities { ExtractionBacksPresence(r, "audio"); }
  }

  /** The stages that were reached, under the identity of the request. */
  datatype PipelineResult = PipelineResult(
    identity: WorkloadIdentity, status: CalibrationStatus,
    signals: Option<Signals>, profile: Option<Profile>, calibration: Option<Calibration>)

  /** What a consumer of the pipeline demands: every stage, none failed, one nonblank identity. */
  predicate Complete(a: PipelineResult) {
    && a.status != FAIL && a.signals.Some? && a.profile.Some? && a.calibration.Some?
    && a.calibration.value.status != FAIL && a.identity.IsNonblank()
    && a.signals.value.identity == a.profile.value.identity == a.identity
  }

  /** The pipeline: it raises for a blank identity, and fails exactly when extraction or inference
      does. Calibration never fails what inference produced, passes exactly when no field is defaulted,
      and never raises confidence. */
  method AnalyzeWorkload(r: Request) returns (a: Option<PipelineResult>)
    ensures a.None? <==> !r.identity.IsNonblank()
    ensures a.Some? ==>
              && a.value.identity == r.identity && a.value.signals == ExtractSignals(r)
              && (a.value.status == FAIL <==> ExtractSignals(r).None? || Infer(ExtractSignals(r).value).None?)
    ensures a.Some? && a.value.status != FAIL ==>
              var s, p, c := a.value.signals.value, a.value.profile, a.value.calibration;
              && Complete(a.value) && p == Infer(s) && a.value.status == c.value.status
              && (c.value.status == PASS <==> Missing(s) == 0)
              && 0 <= c.value.confidence <= p.value.confidence <= 100
  {
    if !r.identity.IsNonblank() {
      return None;
    }
    var s := ExtractSignals(r);
    if s.None? {
      return Some(PipelineResult(r.identity, FAIL, None, None, None));
    }
    var p := InferWorkload(s.value);
    if p.None? {
      return Some(PipelineResult(r.identity, FAIL, s, None, None));
    }
    ExtractionBacksModality(r);
    InferredIsSupportedExactly(s.value);
    var c := Calibrate(s.value, p.value);
    return Some(PipelineResult(r.identity, c.status, s, p, Some(c)));
  }
}
