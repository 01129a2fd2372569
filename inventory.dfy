/**
 * The Ansible INI-style inventory printed after classification: for each group a
 * `[name]` line and one address per line, then a fixed `[all:vars]` section that
 * names the SSH user and the private key file.
 */
module Inventory {
  import opened Grouping

  /** Newline-terminated lines, as successive `fmt.Printf("...\n")` calls write them. */
  function Unlines(lines: seq<string>): string
  {
    if |lines| == 0 then "" else lines[0] + "\n" + Unlines(lines[1..])
  }

  /** The header line of a group. */
  function Header(group: string): string
  {
    "[" + group + "]"
  }

  /** The lines of the groups named in `order`: each header followed by the group's addresses. */
  function BodyLines(groups: Groups, order: seq<string>): seq<string>
    requires forall g | g in order :: g in groups
  {
    if |order| == 0 then [] else [Header(order[0])] + groups[order[0]] + BodyLines(groups, order[1..])
  }

  const VarsHeader: string := "[all:vars]"
  const SshUserLine: string := "ansible_ssh_user=ec2-user"
  const KeyFilePrefix: string := "ansible_ssh_private_key_file=~/.ssh/"
  const KeyFileSuffix: string := ".pem"

  /** The `[all:vars]` section that ends every inventory. */
  function TrailerLines(keyname: string): seq<string>
  {
    [VarsHeader, SshUserLine, KeyFilePrefix + keyname + KeyFileSuffix]
  }

  /** The whole inventory for one enumeration order of the groups. */
  function Render(groups: Groups, order: seq<string>, keyname: string): string
    requires forall g | g in order :: g in groups
  {
    Unlines(BodyLines(groups, order) + TrailerLines(keyname))
  }

  lemma {:induction false} UnlinesConcat(a: seq<string>, b: seq<string>)
    ensures Unlines(a + b) == Unlines(a) + Unlines(b)
  {
    if |a| > 0 {
      assert (a + b)[1..] == a[1..] + b;
      UnlinesConcat(a[1..], b);
    } else {
      assert a + b == b;
    }
  }

  lemma UnlinesOne(line: string)
    ensures Unlines([line]) == line + "\n"
  {
    assert [line][1..] == [];
  }

  /** Printing one more line appends it and its newline. */
  lemma UnlinesSnoc(lines: seq<string>, line: string)
    ensures Unlines(lines + [line]) == Unlines(lines) + (line + "\n")
  {
    UnlinesConcat(lines, [line]);
    UnlinesOne(line);
  }

  lemma {:induction false} BodyLinesConcat(groups: Groups, a: seq<string>, b: seq<string>)
    requires forall g | g in a + b :: g in groups
    ensures BodyLines(groups, a + b) == BodyLines(groups, a) + BodyLines(groups, b)
  {
    if |a| > 0 {
      assert (a + b)[1..] == a[1..] + b;
      BodyLinesConcat(groups, a[1..], b);
    } else {
      assert a + b == b;
    }
  }

  /** Printing one more group appends its header and its addresses. */
  lemma BodyLinesSnoc(groups: Groups, order: seq<string>, group: string)
    requires forall g | g in order :: g in groups
    requires group in groups
    ensures BodyLines(groups, order + [group]) == BodyLines(groups, order) + [Header(group)] + groups[group]
  {
    BodyLinesConcat(groups, order, [group]);
    assert [group][1..] == [];
    assert BodyLines(groups, [group]) == [Header(group)] + groups[group];
  }

  /** Three successive writes append their concatenation. */
  lemma AppendThree(s: string, a: string, b: string, c: string)
    ensures s + a + b + c == s + (a + b + c)
  {
  }

  /**
   * The printing loops. The groups are visited in whatever order the map range
   * yields (each step picks any group not yet printed); `order` records that order.
   */
  method PrintInventory(groups: Groups, keyname: string) returns (out: string, ghost order: seq<string>)
    ensures IsEnumeration(order, groups.Keys)
    ensures out == Render(groups, order, keyname)
  {
    out := "";
    order := [];
    var pending := groups.Keys;
    while pending != {}
      invariant pending <= groups.Keys
      invariant Distinct(order)
      invariant forall g | g in order :: g in groups && g !in pending
      invariant forall g | g in groups && g !in pending :: g in order
      invariant out == Unlines(BodyLines(groups, order))
      decreases pending
    {
      var group :| group in pending;
      var members := groups[group];
      out := out + ("[" + group + "]\n");
      ghost var done := BodyLines(groups, order) + [Header(group)];
      UnlinesSnoc(BodyLines(groups, order), Header(group));
      assert done + members[..0] == done;
      for j := 0 to |members|
        invariant out == Unlines(done + members[..j])
      {
        UnlinesSnoc(done + members[..j], members[j]);
        assert done + members[..j + 1] == done + members[..j] + [members[j]];
        out := out + (members[j] + "\n");
      }
      assert members[..|members|] == members;
      BodyLinesSnoc(groups, order, group);
      assert group !in order;
      order := order + [group];
      pending := pending - {group};
    }
    ghost var body := out;
    out := out + "[all:vars]\n";
    out := out + "ansible_ssh_user=ec2-user\n";
    out := out + ("ansible_ssh_private_key_file=~/.ssh/" + keyname + ".pem\n");
    RenderEndsWithTrailer(groups, order, keyname);
    AppendThree(body, "[all:vars]\n", "ansible_ssh_user=ec2-user\n", "ansible_ssh_private_key_file=~/.ssh/" + keyname + ".pem\n");
  }

  // ---------------------------------------------------------------------------
  // The exact layout

  /** The `[all:vars]` section, line by line. */
  lemma UnlinesTrailer(keyname: string)
    ensures Unlines(TrailerLines(keyname))
         == "[all:vars]\n" + "ansible_ssh_user=ec2-user\n" + ("ansible_ssh_private_key_file=~/.ssh/" + keyname + ".pem\n")
  {
    var t := TrailerLines(keyname);
    assert t == [t[0]] + [t[1]] + [t[2]];
    UnlinesSnoc([t[0]] + [t[1]], t[2]);
    UnlinesSnoc([t[0]], t[1]);
    UnlinesOne(t[0]);
  }

  /** The inventory is the group blocks followed by exactly the three-line `[all:vars]` section. */
  lemma RenderEndsWithTrailer(groups: Groups, order: seq<string>, keyname: string)
    requires forall g | g in order :: g in groups
    ensures Render(groups, order, keyname)
         == Unlines(BodyLines(groups, order))
          + ("[all:vars]\n" + "ansible_ssh_user=ec2-user\n" + ("ansible_ssh_private_key_file=~/.ssh/" + keyname + ".pem\n"))
  {
    UnlinesConcat(BodyLines(groups, order), TrailerLines(keyname));
    UnlinesTrailer(keyname);
  }

  /** With no group left to print, the output is the `[all:vars]` section alone. */
  lemma RenderTrailer(groups: Groups, keyname: string)
    ensures Render(groups, [], keyname)
         == "[all:vars]\n" + "ansible_ssh_user=ec2-user\n" + ("ansible_ssh_private_key_file=~/.ssh/" + keyname + ".pem\n")
  {
    RenderEndsWithTrailer(groups, [], keyname);
    assert Unlines(BodyLines(groups, [])) == "";
  }

  /** A group is printed as `[g]`, then one address per line, before whatever follows it. */
  lemma RenderFirstGroup(groups: Groups, group: string, rest: seq<string>, keyname: string)
    requires group in groups
    requires forall g | g in rest :: g in groups
    ensures Render(groups, [group] + rest, keyname)
         == "[" + group + "]\n" + Unlines(groups[group]) + Render(groups, rest, keyname)
  {
    var order := [group] + rest;
    assert order[1..] == rest;
    var tail := BodyLines(groups, rest) + TrailerLines(keyname);
    assert BodyLines(groups, order) + TrailerLines(keyname) == [Header(group)] + groups[group] + tail;
    UnlinesConcat([Header(group)] + groups[group], tail);
    UnlinesConcat([Header(group)], groups[group]);
    UnlinesOne(Header(group));
  }

  /** One address line per group member: the group blocks hold as many lines as there are addresses, plus one header per group. */
  lemma {:induction false} BodyLinesCount(groups: Groups, order: seq<string>)
    requires forall g | g in order :: g in groups
    ensures |BodyLines(groups, order)| == |order| + TotalMembers(groups, order)
  {
    if |order| > 0 {
      BodyLinesCount(groups, order[1..]);
    }
  }

  /** With no reservations the inventory is the trailer alone, naming the key file `~/.ssh/.pem`. */
  lemma RenderNoReservations(tagKey: string, order: seq<string>)
    requires IsEnumeration(order, Classify([], tagKey).Keys)
    ensures Render(Classify([], tagKey), order, LastKeyName([]))
         == "[all:vars]\n" + "ansible_ssh_user=ec2-user\n" + "ansible_ssh_private_key_file=~/.ssh/.pem\n"
  {
    RenderTrailer(Classify([], tagKey), "");
  }
}
