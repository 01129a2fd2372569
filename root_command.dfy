/**
 * The cobra command of command/root.go: classify the instances of a stack by the
 * tag key given on the command line, then print the inventory.
 */
module RootCommand {
  import opened Wrappers
  import opened Ec2
  import opened Grouping
  import opened Inventory
  import Classifier

  /**
   * `classifyEC2instances`. The instance query is the `description` parameter; on
   * error no map is returned, the key name is "" and the error is passed on.
   */
  method ClassifyEC2Instances(description: Description, inventoryGroupTagKey: string)
    returns (classifiedInstances: Option<Groups>, keyname: string, err: Option<DescribeError>)
    requires description.Success? ==> AllClassifiable(description.value, true)
    ensures description.Failure? ==>
              classifiedInstances == None && keyname == "" && err == Some(description.error)
    ensures description.Success? ==>
              && err == None
              && classifiedInstances == Some(Classify(description.value, inventoryGroupTagKey))
              && keyname == LastKeyName(description.value)
  {
    if description.Failure? {
      return None, "", Some(description.error);
    }
    var groups, name := Classifier.ClassifyReservations(description.value, inventoryGroupTagKey, true);
    return Some(groups), name, None;
  }

  /**
   * The command's `RunE`: an error from the query is returned and nothing is
   * printed; otherwise the inventory of the classified groups is printed, the
   * groups in the order the map range took.
   */
  method Run(description: Description, inventoryGroupTagKey: string)
    returns (out: string, err: Option<DescribeError>, ghost order: seq<string>)
    requires description.Success? ==> AllClassifiable(description.value, true)
    ensures description.Failure? ==> out == "" && err == Some(description.error)
    ensures description.Success? ==>
              && err == None
              && IsEnumeration(order, Classify(description.value, inventoryGroupTagKey).Keys)
              && out == Render(Classify(description.value, inventoryGroupTagKey), order,
                               LastKeyName(description.value))
  {
    var classifiedInstances, keyname, e := ClassifyEC2Instances(description, inventoryGroupTagKey);
    if e.Some? {
      return "", e, [];
    }
    out, order := PrintInventory(classifiedInstances.value, keyname);
    err := None;
  }
}
