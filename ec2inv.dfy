/**
 * ec2inv.go's `printInventory`: the same classification with the tag key fixed to
 * `AnsibleInventoryGroup`, followed by the same printing loops.
 */
module Ec2Inv {
  import opened Wrappers
  import opened Ec2
  import opened Grouping
  import opened Inventory
  import Classifier

  const InventoryGroupTagKey: string := "AnsibleInventoryGroup"

  /** A failed query returns its error before anything is printed. */
  method PrintInventory(description: Description)
    returns (out: string, err: Option<DescribeError>, ghost order: seq<string>)
    requires description.Success? ==> AllClassifiable(description.value, true)
    ensures description.Failure? ==> out == "" && err == Some(description.error)
    ensures description.Success? ==>
              && err == None
              && IsEnumeration(order, Classify(description.value, InventoryGroupTagKey).Keys)
              && out == Render(Classify(description.value, InventoryGroupTagKey), order,
                               LastKeyName(description.value))
  {
    if description.Failure? {
      return "", Some(description.error), [];
    }
    var inventoryGroupMembers, keyname :=
      Classifier.ClassifyReservations(description.value, InventoryGroupTagKey, true);
    out, order := Inventory.PrintInventory(inventoryGroupMembers, keyname);
    err := None;
  }
}
