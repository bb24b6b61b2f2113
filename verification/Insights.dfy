/** The insight record, shared by the store, the alerts and the indices. */
module Insights {
  import opened Collections

  datatype Severity = Info | Warning | Critical

  datatype EvidenceRef = EvidenceRef(recordId: string, field: string, value: Bytes, context: Option<string>)

  datatype FieldChange =
    | SeverityChange(fromSeverity: Severity, toSeverity: Severity)
    | ConfidenceChange(fromConfidence: real, toConfidence: real)
    | TitleChange(fromTitle: string, toTitle: string)
    | SummaryChange(fromSummary: string, toSummary: string)
    | ExperimentalChange(fromExperimental: bool, toExperimental: bool)
    | ProducerChange(fromProducer: string, toProducer: string)

  datatype EvolutionDiff = EvolutionDiff(
    insightId: string,
    fromVersion: nat,
    toVersion: nat,
    fromGeneratedAt: int,
    toGeneratedAt: int,
    changes: seq<FieldChange>)

  datatype Insight = Insight(
    id: string,
    kind: string,
    severity: Severity,
    title: string,
    summary: string,
    source: string,
    dataset: string,
    evidence: seq<EvidenceRef>,
    confidence: real,
    generatedAt: int,
    producer: string,
    experimental: bool,
    firstSeen: Option<int>,
    version: nat,
    evolution: Option<EvolutionDiff>)

  datatype Revision = Revision(
    version: nat,
    generatedAt: int,
    snapshot: Insight,
    diffFromPrevious: Option<EvolutionDiff>)
}
