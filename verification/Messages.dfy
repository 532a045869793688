/** Messages name a document and a stage, and queues hold them at rest. */
module Messages {
  import opened Stages

  /** Where a message can rest. `Topology` shows that the declared exchanges and
      routing keys lead exactly here. */
  datatype Queue = Work(stage: StageName) | Dlq(stage: StageName) | Tier(delayMs: nat)

  datatype StageMessage = StageMessage(
    documentId: string,
    runId: string,
    stage: StageName,
    family: Family,
    pipelineVersion: string,
    tenantId: string,
    attempt: int,
    traceId: string,
    meta: map<string, string>)
  {
    /** Adopt what detection found. */
    function WithFamily(found: Family): StageMessage {
      this.(family := found)
    }

    /** Hand off to another stage; the attempt counter starts again. */
    function ForStage(next: StageName): StageMessage {
      this.(stage := next, attempt := 1)
    }

    function Retried(): StageMessage {
      this.(attempt := attempt + 1)
    }

    /** Same document, run, version, tenant, trace and hints. */
    predicate SameRun(other: StageMessage) {
      this == other.(stage := stage, family := family, attempt := attempt)
    }
  }
}
