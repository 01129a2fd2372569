/**
 * generate.go's `printInventory`, the debugging variant: it groups by the
 * `AnsibleInventoryGroup` tag without reading key names, and only shows the map
 * before and after the grouping loop.
 */
module Generate {
  import opened Wrappers
  import opened Ec2
  import opened Grouping
  import Classifier

  const InventoryGroupTagKey: string := "AnsibleInventoryGroup"

  /**
   * `beforeSearch` and `afterSearch` are the maps the two debug lines show (None
   * when the line is not reached). A failed query returns its error before any
   * grouping happens.
   */
  method PrintInventory(description: Description)
    returns (beforeSearch: Option<Groups>, afterSearch: Option<Groups>, err: Option<DescribeError>)
    requires description.Success? ==> AllClassifiable(description.value, false)
    ensures description.Failure? ==>
              beforeSearch == None && afterSearch == None && err == Some(description.error)
    ensures description.Success? ==>
              && err == None
              && beforeSearch == Some(map[])
              && afterSearch == Some(Classify(description.value, InventoryGroupTagKey))
  {
    if description.Failure? {
      return None, None, Some(description.error);
    }
    var inventoryGroupMembers: Groups := map[];
    beforeSearch := Some(inventoryGroupMembers);
    var groups, _ := Classifier.ClassifyReservations(description.value, InventoryGroupTagKey, false);
    inventoryGroupMembers := groups;
    afterSearch := Some(inventoryGroupMembers);
    err := None;
  }
}
