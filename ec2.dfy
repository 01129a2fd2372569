/**
 * The part of the EC2 `DescribeInstances` answer that the inventory code reads:
 * reservations, each holding instances with a key name, a public address and tags.
 */
module Ec2 {
  import opened Wrappers

  /** One key/value label on an instance. */
  datatype Tag = Tag(key: string, value: string)

  /** An EC2 instance; the SDK gives `KeyName` and `PublicIpAddress` as pointers that may be nil. */
  datatype Instance = Instance(keyName: Option<string>, publicIpAddress: Option<string>, tags: seq<Tag>)

  /** A reservation groups the instances launched together. */
  datatype Reservation = Reservation(instances: seq<Instance>)

  /** The error a failed `DescribeInstances` call reports. */
  datatype DescribeError = DescribeError(message: string)

  /** The `DescribeInstances` call seen from the classifier: its reservations, or an error. */
  type Description = Result<seq<Reservation>, DescribeError>

  /**
   * What the grouping loop dereferences without checking: `Instances[0]`, its
   * `PublicIpAddress` and, when the key name is tracked, its `KeyName`.
   */
  predicate Classifiable(r: Reservation, needKeyName: bool)
  {
    && |r.instances| > 0
    && r.instances[0].publicIpAddress.Some?
    && (needKeyName ==> r.instances[0].keyName.Some?)
  }

  predicate AllClassifiable(rs: seq<Reservation>, needKeyName: bool)
  {
    forall i | 0 <= i < |rs| :: Classifiable(rs[i], needKeyName)
  }
}
