/** The projection that two bundles are compared by (internal/inspect/model.go). */
module Projections {
  import opened ByteStrings
  import opened Identities
  import opened Wrappers

  datatype Finding = Finding(code: Bytes, severity: Bytes, support: Bytes, resource: Bytes, property: Bytes)

  datatype Operation = Operation(id: Bytes, stage: Bytes, service: Bytes, resourceId: Bytes, action: Bytes,
                                 dependsOn: seq<Bytes>)

  datatype RuleSummary = RuleSummary(id: Bytes, action: Bytes, count: Bytes)

  datatype CohortSummary = CohortSummary(resource: Bytes, eligible: Bytes, retained: Bytes, truncated: bool)

  datatype Governance = Governance(profile: Bytes, policyIdentity: Bytes, cohortIdentity: Bytes, keyIds: seq<Bytes>,
                                   algorithms: seq<Bytes>, rules: seq<RuleSummary>, cohorts: seq<CohortSummary>)

  /** An empty digest stands for an absent component. */
  datatype ProjectedResource = ProjectedResource(identity: Identity, selected: bool, structure: Bytes, dataset: Bytes,
                                                 governance: Bytes, operations: Bytes, findings: Bytes)

  datatype Projection = Projection(source: (Bytes, Bytes), target: (Bytes, Bytes), resources: seq<ProjectedResource>,
                                   operations: seq<Operation>, findings: seq<Finding>, governance: Option<Governance>,
                                   digest: Bytes)
}
