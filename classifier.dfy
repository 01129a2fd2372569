/**
 * The grouping loop shared by the three programs: for every reservation, take its
 * first instance, find its group from its tags and append its public address to
 * that group's list, remembering the instance's key name on the way.
 */
module Classifier {
  import opened Ec2
  import opened Grouping

  /** The tag loop: the value of the last tag keyed `tagKey`, "" when there is none. */
  method ScanGroupName(tags: seq<Tag>, tagKey: string) returns (groupName: string)
    ensures groupName == GroupName(tags, tagKey)
  {
    groupName := "";
    for i := 0 to |tags|
      invariant groupName == GroupName(tags[..i], tagKey)
    {
      assert tags[..i + 1][..i] == tags[..i];
      if tags[i].key == tagKey {
        groupName := tags[i].value;
      }
    }
    assert tags[..|tags|] == tags;
  }

  /**
   * The reservation loop. The map starts empty and is extended in place; `keyname`
   * is overwritten by every reservation when `trackKeyName` holds (command/root.go and
   * ec2inv.go) and stays "" otherwise (generate.go, which never reads `KeyName`).
   */
  method ClassifyReservations(reservations: seq<Reservation>, tagKey: string, trackKeyName: bool)
    returns (groups: Groups, keyname: string)
    requires AllClassifiable(reservations, trackKeyName)
    ensures groups == Classify(reservations, tagKey)
    ensures keyname == if trackKeyName then LastKeyName(reservations) else ""
  {
    groups := map[];
    keyname := "";
    for i := 0 to |reservations|
      invariant groups == Classify(reservations[..i], tagKey)
      invariant keyname == if trackKeyName then LastKeyName(reservations[..i]) else ""
    {
      var instance := reservations[i].instances[0];
      if trackKeyName {
        keyname := instance.keyName.value;
      }
      var groupName := ScanGroupName(instance.tags, tagKey);
      var publicIp := instance.publicIpAddress.value;
      if groupName in groups {
        groups := groups[groupName := groups[groupName] + [publicIp]];
      } else {
        groups := groups[groupName := [publicIp]];
      }
      assert reservations[..i + 1][..i] == reservations[..i];
    }
    assert reservations[..|reservations|] == reservations;
  }
}
