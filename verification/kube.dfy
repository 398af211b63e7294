/** Values shared by every component: resource coordinates and normalized constraints. */
module Kube {

  datatype Option<+T> = None | Some(value: T)

  /** The coordinates of an API resource: group, version and plural resource name. */
  datatype GVR = GVR(group: string, version: string, resource: string)

  /**
   A normalized constraint. `namespace == ""` means cluster-scoped. `body` stands for the
   fields no modelled operation inspects (summary, details, remediation, raw object).
   */
  datatype Constraint = Constraint(
    uid: string,
    source: GVR,
    name: string,
    namespace: string,
    affected: seq<string>,
    constraintType: string,
    severity: string,
    tags: seq<string>,
    body: string)
}
