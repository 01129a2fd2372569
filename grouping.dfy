/**
 * The specification of the classifier: which group an instance belongs to,
 * the group -> addresses multimap built from a list of reservations, and the
 * properties of that multimap (order within a group, partition of the input).
 */
module Grouping {
  import opened Wrappers
  import opened Ec2

  /** Inventory groups: group name to the public addresses classified into it, in order. */
  type Groups = map<string, seq<string>>

  /** The value of the last tag keyed `tagKey`, or "" when no tag has that key. */
  function GroupName(tags: seq<Tag>, tagKey: string): string
  {
    if |tags| == 0 then ""
    else if tags[|tags| - 1].key == tagKey then tags[|tags| - 1].value
    else GroupName(tags[..|tags| - 1], tagKey)
  }

  /** The group of a reservation: decided by the tags of its first instance only. */
  function GroupOf(r: Reservation, tagKey: string): string
    requires |r.instances| > 0
  {
    GroupName(r.instances[0].tags, tagKey)
  }

  /** The public address of a reservation's first instance. */
  function IpOf(r: Reservation): string
    requires Classifiable(r, false)
  {
    r.instances[0].publicIpAddress.value
  }

  /** The addresses of all reservations, in input order. */
  function Ips(rs: seq<Reservation>): (ips: seq<string>)
    requires AllClassifiable(rs, false)
    ensures |ips| == |rs|
    ensures forall i | 0 <= i < |rs| :: ips[i] == IpOf(rs[i])
  {
    if |rs| == 0 then [] else Ips(rs[..|rs| - 1]) + [IpOf(rs[|rs| - 1])]
  }

  /** The key name of the last reservation's first instance, or "" when there is none. */
  function LastKeyName(rs: seq<Reservation>): string
    requires AllClassifiable(rs, true)
  {
    if |rs| == 0 then "" else rs[|rs| - 1].instances[0].keyName.value
  }

  /**
   * Adding one address to a group: it goes at the end of the group's list, a new
   * group starts with a one-element list, and every other group is left as it was.
   */
  function Append(groups: Groups, group: string, ip: string): (r: Groups)
    ensures r.Keys == groups.Keys + {group}
    ensures r[group] == (if group in groups then groups[group] else []) + [ip]
    ensures forall g | g in groups && g != group :: r[g] == groups[g]
  {
    if group in groups then groups[group := groups[group] + [ip]] else groups[group := [ip]]
  }

  /** The groups after classifying the reservations one after the other, starting from no groups. */
  function Classify(rs: seq<Reservation>, tagKey: string): Groups
    requires AllClassifiable(rs, false)
  {
    if |rs| == 0 then map[]
    else
      var n := |rs| - 1;
      Append(Classify(rs[..n], tagKey), GroupOf(rs[n], tagKey), IpOf(rs[n]))
  }

  /** Reference definition of a group's list: the addresses of the reservations in that group, in input order. */
  function Members(rs: seq<Reservation>, tagKey: string, group: string): seq<string>
    requires AllClassifiable(rs, false)
  {
    if |rs| == 0 then []
    else
      var n := |rs| - 1;
      Members(rs[..n], tagKey, group) + (if GroupOf(rs[n], tagKey) == group then [IpOf(rs[n])] else [])
  }

  /** The position reservation `i` takes in its group's list: how many earlier reservations share its group. */
  function Rank(rs: seq<Reservation>, tagKey: string, i: nat): nat
    requires AllClassifiable(rs, false)
    requires i < |rs|
  {
    |Members(rs[..i], tagKey, GroupOf(rs[i], tagKey))|
  }

  predicate Distinct(names: seq<string>)
  {
    forall i, j | 0 <= i < j < |names| :: names[i] != names[j]
  }

  /** `order` lists every name of `names` exactly once: one possible order of a Go map range. */
  predicate IsEnumeration(order: seq<string>, names: set<string>)
  {
    && Distinct(order)
    && (forall g | g in order :: g in names)
    && (forall g | g in names :: g in order)
  }

  /** The addresses of the groups named in `order`, one group after the other. */
  function Flatten(groups: Groups, order: seq<string>): seq<string>
    requires forall g | g in order :: g in groups
  {
    if |order| == 0 then [] else groups[order[0]] + Flatten(groups, order[1..])
  }

  /** The sum of the list lengths of the groups named in `order`. */
  function TotalMembers(groups: Groups, order: seq<string>): nat
    requires forall g | g in order :: g in groups
  {
    if |order| == 0 then 0 else |groups[order[0]]| + TotalMembers(groups, order[1..])
  }

  // ---------------------------------------------------------------------------
  // Group names

  /** An instance without a tag keyed `tagKey` goes to the "" group. */
  lemma {:induction false} GroupNameUnmatched(tags: seq<Tag>, tagKey: string)
    requires forall i | 0 <= i < |tags| :: tags[i].key != tagKey
    ensures GroupName(tags, tagKey) == ""
  {
    if |tags| > 0 {
      var n := |tags| - 1;
      assert forall i | 0 <= i < n :: tags[..n][i] == tags[i];
      GroupNameUnmatched(tags[..n], tagKey);
    }
  }

  /** Otherwise the last tag keyed `tagKey` wins. */
  lemma {:induction false} GroupNameLastMatch(tags: seq<Tag>, tagKey: string, i: nat)
    requires i < |tags| && tags[i].key == tagKey
    requires forall j | i < j < |tags| :: tags[j].key != tagKey
    ensures GroupName(tags, tagKey) == tags[i].value
  {
    var n := |tags| - 1;
    if i < n {
      assert tags[n].key != tagKey;
      assert forall j | i < j < n :: tags[..n][j] == tags[j];
      GroupNameLastMatch(tags[..n], tagKey, i);
    }
  }

  // ---------------------------------------------------------------------------
  // The multimap built by Classify

  /** The names of the groups of the reservations. */
  function GroupsOf(rs: seq<Reservation>, tagKey: string): set<string>
    requires AllClassifiable(rs, false)
  {
    set i | 0 <= i < |rs| :: GroupOf(rs[i], tagKey)
  }

  lemma GroupsOfSnoc(rs: seq<Reservation>, tagKey: string)
    requires AllClassifiable(rs, false)
    requires |rs| > 0
    ensures GroupsOf(rs, tagKey) == GroupsOf(rs[..|rs| - 1], tagKey) + {GroupOf(rs[|rs| - 1], tagKey)}
  {
    var n := |rs| - 1;
    var front := rs[..n];
    forall g | g in GroupsOf(rs, tagKey)
      ensures g in GroupsOf(front, tagKey) + {GroupOf(rs[n], tagKey)}
    {
      var i :| 0 <= i < |rs| && GroupOf(rs[i], tagKey) == g;
      if i < n {
        assert front[i] == rs[i];
      }
    }
    forall g | g in GroupsOf(front, tagKey)
      ensures g in GroupsOf(rs, tagKey)
    {
      var i :| 0 <= i < n && GroupOf(front[i], tagKey) == g;
      assert front[i] == rs[i];
    }
  }

  /** A group exists exactly when some reservation was classified into it. */
  lemma {:induction false} ClassifyKeys(rs: seq<Reservation>, tagKey: string)
    requires AllClassifiable(rs, false)
    ensures Classify(rs, tagKey).Keys == GroupsOf(rs, tagKey)
  {
    if |rs| > 0 {
      ClassifyKeys(rs[..|rs| - 1], tagKey);
      GroupsOfSnoc(rs, tagKey);
    }
  }

  /** No group's list is empty. */
  lemma {:induction false} ClassifyNonEmpty(rs: seq<Reservation>, tagKey: string)
    requires AllClassifiable(rs, false)
    ensures forall g | g in Classify(rs, tagKey) :: |Classify(rs, tagKey)[g]| > 0
  {
    if |rs| > 0 {
      ClassifyNonEmpty(rs[..|rs| - 1], tagKey);
    }
  }

  /** Each group holds exactly that group's addresses, in input order; an absent group has none. */
  lemma {:induction false} ClassifyIsMembers(rs: seq<Reservation>, tagKey: string, group: string)
    requires AllClassifiable(rs, false)
    ensures Members(rs, tagKey, group) == if group in Classify(rs, tagKey) then Classify(rs, tagKey)[group] else []
  {
    if |rs| > 0 {
      ClassifyIsMembers(rs[..|rs| - 1], tagKey, group);
    }
  }

  /** Members of a prefix of the input form a prefix of the members of the whole input. */
  lemma {:induction false} MembersOfPrefix(rs: seq<Reservation>, tagKey: string, group: string, k: nat)
    requires AllClassifiable(rs, false)
    requires k <= |rs|
    ensures Members(rs[..k], tagKey, group) <= Members(rs, tagKey, group)
  {
    if k < |rs| {
      var n := |rs| - 1;
      assert rs[..n][..k] == rs[..k];
      MembersOfPrefix(rs[..n], tagKey, group, k);
    } else {
      assert rs[..k] == rs;
    }
  }

  /** Reservation `i`'s address sits at position `Rank(rs, tagKey, i)` of its group's list. */
  lemma MemberAtRank(rs: seq<Reservation>, tagKey: string, i: nat)
    requires AllClassifiable(rs, false)
    requires i < |rs|
    ensures Rank(rs, tagKey, i) < |Members(rs, tagKey, GroupOf(rs[i], tagKey))|
    ensures Members(rs, tagKey, GroupOf(rs[i], tagKey))[Rank(rs, tagKey, i)] == IpOf(rs[i])
  {
    var g := GroupOf(rs[i], tagKey);
    assert rs[..i + 1][..i] == rs[..i];
    assert Members(rs[..i + 1], tagKey, g) == Members(rs[..i], tagKey, g) + [IpOf(rs[i])];
    MembersOfPrefix(rs, tagKey, g, i + 1);
  }

  /** Input order is kept within a group: a later reservation of the same group comes later in its list. */
  lemma RankIncreases(rs: seq<Reservation>, tagKey: string, i: nat, j: nat)
    requires AllClassifiable(rs, false)
    requires i < j < |rs|
    requires GroupOf(rs[i], tagKey) == GroupOf(rs[j], tagKey)
    ensures Rank(rs, tagKey, i) < Rank(rs, tagKey, j)
  {
    var g := GroupOf(rs[i], tagKey);
    assert rs[..i + 1][..i] == rs[..i];
    assert Members(rs[..i + 1], tagKey, g) == Members(rs[..i], tagKey, g) + [IpOf(rs[i])];
    assert rs[..j][..i + 1] == rs[..i + 1];
    MembersOfPrefix(rs[..j], tagKey, g, i + 1);
  }

  /** Only the first instance of each reservation matters to the classification. */
  lemma {:induction false} ClassifyReadsFirstInstanceOnly(rs: seq<Reservation>, rs': seq<Reservation>, tagKey: string)
    requires AllClassifiable(rs, false) && AllClassifiable(rs', false)
    requires |rs| == |rs'|
    requires forall i | 0 <= i < |rs| :: rs[i].instances[0] == rs'[i].instances[0]
    ensures Classify(rs, tagKey) == Classify(rs', tagKey)
  {
    if |rs| > 0 {
      var n := |rs| - 1;
      ClassifyReadsFirstInstanceOnly(rs[..n], rs'[..n], tagKey);
    }
  }

  // ---------------------------------------------------------------------------
  // Enumerations and the partition of the input addresses

  lemma {:induction false} FlattenConcat(groups: Groups, a: seq<string>, b: seq<string>)
    requires forall g | g in a + b :: g in groups
    ensures Flatten(groups, a + b) == Flatten(groups, a) + Flatten(groups, b)
  {
    if |a| > 0 {
      assert (a + b)[1..] == a[1..] + b;
      FlattenConcat(groups, a[1..], b);
    } else {
      assert a + b == b;
    }
  }

  lemma {:induction false} FlattenAgree(groups: Groups, groups': Groups, order: seq<string>)
    requires forall g | g in order :: g in groups && g in groups' && groups[g] == groups'[g]
    ensures Flatten(groups, order) == Flatten(groups', order)
  {
    if |order| > 0 {
      FlattenAgree(groups, groups', order[1..]);
    }
  }

  lemma {:induction false} TotalMembersIsFlattenLength(groups: Groups, order: seq<string>)
    requires forall g | g in order :: g in groups
    ensures TotalMembers(groups, order) == |Flatten(groups, order)|
  {
    if |order| > 0 {
      TotalMembersIsFlattenLength(groups, order[1..]);
    }
  }

  /** Taking one name out of an enumeration enumerates the other names. */
  lemma RemoveFromEnumeration(order: seq<string>, names: set<string>, k: nat)
    requires IsEnumeration(order, names)
    requires k < |order|
    ensures IsEnumeration(order[..k] + order[k + 1..], names - {order[k]})
    ensures forall h | h in order[..k] :: h in names - {order[k]}
    ensures forall h | h in order[k + 1..] :: h in names - {order[k]}
  {
    var rest := order[..k] + order[k + 1..];
    assert forall p | 0 <= p < |rest| :: rest[p] == (if p < k then order[p] else order[p + 1]);
    forall g
      ensures g in rest <==> g in names - {order[k]}
    {
      if g in rest {
        var p :| 0 <= p < |rest| && rest[p] == g;
      }
      if g in names - {order[k]} {
        var q :| 0 <= q < |order| && order[q] == g;
        assert rest[if q < k then q else q - 1] == g;
      }
    }
  }

  /** Flattening around one group of the enumeration. */
  lemma FlattenAround(groups: Groups, a: seq<string>, g: string, b: seq<string>)
    requires forall h | h in a + [g] + b :: h in groups
    ensures Flatten(groups, a + [g] + b) == Flatten(groups, a) + groups[g] + Flatten(groups, b)
  {
    FlattenConcat(groups, a + [g], b);
    FlattenConcat(groups, a, [g]);
  }

  /** Splitting an enumeration at one of its names: the names before and after enumerate the rest. */
  lemma SplitEnumeration(order: seq<string>, names: set<string>, k: nat)
    requires IsEnumeration(order, names)
    requires k < |order|
    ensures order == order[..k] + [order[k]] + order[k + 1..]
    ensures order[k] !in order[..k] && order[k] !in order[k + 1..]
    ensures IsEnumeration(order[..k] + order[k + 1..], names - {order[k]})
    ensures forall h | h in order[..k] :: h in names - {order[k]}
    ensures forall h | h in order[k + 1..] :: h in names - {order[k]}
  {
    var a, b := order[..k], order[k + 1..];
    assert order == a + [order[k]] + b;
    assert forall p | 0 <= p < |a| :: a[p] == order[p];
    assert forall p | 0 <= p < |b| :: b[p] == order[k + 1 + p];
    RemoveFromEnumeration(order, names, k);
  }

  /** Flattening after `Append`: only the list of the appended group changes. */
  lemma FlattenAppend(groups: Groups, g: string, ip: string, a: seq<string>, b: seq<string>)
    requires g !in a && g !in b
    requires forall h | h in a :: h in groups
    requires forall h | h in b :: h in groups
    ensures Flatten(Append(groups, g, ip), a + [g] + b)
         == Flatten(groups, a) + ((if g in groups then groups[g] else []) + [ip]) + Flatten(groups, b)
  {
    var m := Append(groups, g, ip);
    assert forall h | h in a + [g] + b :: h in a || h == g || h in b;
    FlattenAround(m, a, g, b);
    FlattenAgree(m, groups, a);
    FlattenAgree(m, groups, b);
  }

  /** Adding an address to an existing group adds it once to the flattened groups. */
  lemma FlattenAppendExisting(groups: Groups, g: string, ip: string, order: seq<string>)
    requires g in groups
    requires IsEnumeration(order, groups.Keys)
    ensures multiset(Flatten(Append(groups, g, ip), order)) == multiset(Flatten(groups, order)) + multiset{ip}
  {
    var k :| 0 <= k < |order| && order[k] == g;
    SplitEnumeration(order, groups.Keys, k);
    var a, b := order[..k], order[k + 1..];
    FlattenAppend(groups, g, ip, a, b);
    FlattenAround(groups, a, g, b);
  }

  /** Adding an address to a new group adds it once to the flattened groups. */
  lemma FlattenAppendNew(groups: Groups, g: string, ip: string, order: seq<string>, k: nat)
    requires g !in groups
    requires IsEnumeration(order, groups.Keys + {g})
    requires k < |order| && order[k] == g
    ensures IsEnumeration(order[..k] + order[k + 1..], groups.Keys)
    ensures multiset(Flatten(Append(groups, g, ip), order))
         == multiset(Flatten(groups, order[..k] + order[k + 1..])) + multiset{ip}
  {
    SplitEnumeration(order, groups.Keys + {g}, k);
    assert groups.Keys + {g} - {g} == groups.Keys;
    var a, b := order[..k], order[k + 1..];
    FlattenAppend(groups, g, ip, a, b);
    FlattenConcat(groups, a, b);
  }

  /**
   * Whatever order the groups are enumerated in, their lists together hold every
   * input address exactly once: each reservation lands in exactly one group.
   */
  lemma {:induction false} ClassifyPartitionsAddresses(rs: seq<Reservation>, tagKey: string, order: seq<string>)
    requires AllClassifiable(rs, false)
    requires IsEnumeration(order, Classify(rs, tagKey).Keys)
    ensures multiset(Flatten(Classify(rs, tagKey), order)) == multiset(Ips(rs))
  {
    if |rs| == 0 {
      if |order| > 0 {
        assert order[0] in Classify(rs, tagKey);
      }
    } else {
      var n := |rs| - 1;
      var front := rs[..n];
      var m0 := Classify(front, tagKey);
      var g, ip := GroupOf(rs[n], tagKey), IpOf(rs[n]);
      assert Classify(rs, tagKey) == Append(m0, g, ip);
      assert Ips(rs) == Ips(front) + [ip];
      if g in m0 {
        FlattenAppendExisting(m0, g, ip, order);
        ClassifyPartitionsAddresses(front, tagKey, order);
      } else {
        assert g in Classify(rs, tagKey);
        var k :| 0 <= k < |order| && order[k] == g;
        FlattenAppendNew(m0, g, ip, order, k);
        ClassifyPartitionsAddresses(front, tagKey, order[..k] + order[k + 1..]);
      }
    }
  }

  /** The list lengths of all groups add up to the number of reservations. */
  lemma ClassifyTotalMembers(rs: seq<Reservation>, tagKey: string, order: seq<string>)
    requires AllClassifiable(rs, false)
    requires IsEnumeration(order, Classify(rs, tagKey).Keys)
    ensures TotalMembers(Classify(rs, tagKey), order) == |rs|
  {
    ClassifyPartitionsAddresses(rs, tagKey, order);
    TotalMembersIsFlattenLength(Classify(rs, tagKey), order);
    assert |multiset(Flatten(Classify(rs, tagKey), order))| == |multiset(Ips(rs))|;
  }
}
