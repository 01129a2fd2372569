# ec2inv in Dafny

ec2inv lists the EC2 instances of a CloudFormation stack and prints them as an
Ansible inventory. It groups the instances by the value of one tag and writes
each group as an INI section of public IP addresses. A fixed `[all:vars]`
section follows, naming the SSH user and the private key file.

This project models that core in Dafny and proves what it does:

- the **classifier** takes the first instance of every reservation and finds its
  group: the value of the last tag with the group-tag key, or `""`. It appends
  the instance's public IP to that group's list and remembers the instance's key
  name, so the last one seen wins;
- the **renderer** prints every group as `[name]` followed by one address per
  line, in whatever order the Go map range yields, and then the three-line
  `[all:vars]` section.

The repository holds three copies of this loop. `command/root.go` is the cobra
command, with the tag key as a flag. `ec2inv.go` hard-codes the tag key
`AnsibleInventoryGroup`. `generate.go` is a debugging variant that never reads
key names and prints only the map. One classifier method, `Classifier.ClassifyReservations`,
covers all three: it takes the tag key, plus a flag saying whether key names are tracked.

Modules, one file each:

| file | module | what it holds |
|---|---|---|
| wrappers.dfy | Wrappers | `Option` and `Result` |
| ec2.dfy | Ec2 | reservations, instances and tags as the SDK returns them; the fields the loop dereferences without a check |
| grouping.dfy | Grouping | the specification: `GroupName`, `Append`, `Classify`, the reference `Members`, enumerations of the map's keys, and the lemmas about them |
| classifier.dfy | Classifier | the tag loop and the reservation loop as methods, proved against `GroupName` and `Classify` |
| inventory.dfy | Inventory | the printing loops as a method that builds the output text, proved against `Render`; layout lemmas |
| inventory_parse.dfy | InventoryParse | a reader for the inventory format and the render-then-parse round trip |
| root_command.dfy | RootCommand | `classifyEC2instances` and the command's `RunE` |
| ec2inv.dfy | Ec2Inv | ec2inv.go's `printInventory` |
| generate.dfy | Generate | generate.go's `printInventory` |
| scenarios.dfy | Scenarios | a worked example: two `web` instances and one untagged instance |

How the model is built:

- **Input.** The `DescribeInstances` answer is an input value. It is either the
  list of reservations or an error.
- **Nil pointers.** The SDK gives `KeyName` and `PublicIpAddress` as pointers
  that may be nil, so they are `Option` fields here. The loop dereferences
  `Instances[0]`, `*PublicIpAddress` and (except in generate.go) `*KeyName`
  without checking them. Their presence is therefore a precondition
  (`Ec2.Classifiable`), not an error path.
- **Map iteration order.** Go does not specify the order of `range` over a map.
  `Inventory.PrintInventory` picks each next group with a nondeterministic
  choice, `:|`, among the groups not yet printed. A ghost out-parameter `order`
  records the order it took. Its contract holds for every order the choice can
  produce. The lemmas about `Render` hold for every enumeration of the map's keys.
- **Output.** Standard output is the string `out`; each `fmt.Printf` call
  appends its text to it.

Two further modelling decisions:

- **Tags.** Tags are the SDK's list, not a map. The loop scans the list, and
  the last tag with the group-tag key wins. Several tags may share a key.
- **Missing data.** An instance with no address is not skipped, and an empty
  query is not an error. `Ec2.Classifiable` is a precondition, because the code
  dereferences the address unchecked. `Inventory.RenderNoReservations` proves that
  with no reservations the output is the trailer alone.

## Model

| member | source | states |
|---|---|---|
| Classifier.ScanGroupName | command/root.go:87-92 | the tag loop returns `GroupName(tags, key)`: the value of the last tag whose key equals the group-tag key, `""` when none does (see the next two rows) |
| Grouping.GroupNameUnmatched | command/root.go:87-92 | an instance with no tag keyed by the group-tag key is put in the `""` group |
| Grouping.GroupNameLastMatch | command/root.go:88-91 | when tag `i` is the last tag with the group-tag key, the group is that tag's value: last match wins |
| Grouping.Append | command/root.go:93-98 | classifying one instance adds its group to the map's keys, puts its IP at the end of that group's list (a one-element list for a new group), and leaves every other group unchanged |
| Classifier.ClassifyReservations | command/root.go:79-101 | the reservation loop, starting from an empty map, returns exactly `Classify(reservations, tagKey)`; `keyname` is the key name of the last reservation's first instance, `""` with no reservations, and stays `""` when key names are not tracked |
| Grouping.ClassifyKeys | command/root.go:82-99 | a group is in the map iff some reservation was classified into it |
| Grouping.ClassifyNonEmpty | command/root.go:93-98 | no group's list is empty: a group enters the map only with the address that created it |
| Grouping.ClassifyIsMembers | command/root.go:82-99 | each group's list equals the independently defined `Members`: the IPs of exactly the reservations in that group, in input order; a group absent from the map has no members |
| Grouping.MemberAtRank | command/root.go:94-95 | reservation `i`'s IP sits in its group's list at position `Rank(i)`, the number of earlier reservations in the same group |
| Grouping.RankIncreases | command/root.go:82-98 | of two reservations in the same group, the earlier one has the smaller position: input order is kept within a group |
| Grouping.ClassifyReadsFirstInstanceOnly | command/root.go:82-83 | two inputs whose reservations have the same first instances classify identically: later instances never contribute |
| Grouping.ClassifyPartitionsAddresses | command/root.go:82-99 | for any enumeration of the groups, their lists together are a permutation of the input IPs: each reservation lands in exactly one group |
| Grouping.ClassifyTotalMembers | command/root.go:79-99 | for any enumeration of the groups, the lengths of their lists add up to the number of reservations |
| Inventory.PrintInventory | command/root.go:104-115 | the printing loops visit every group exactly once, in some order `order`, and the text they write is `Render(groups, order, keyname)` |
| Inventory.RenderFirstGroup | command/root.go:105-110 | a group is printed as `"[" + g + "]\n"`, then each member followed by `"\n"`, then the rest of the inventory |
| Inventory.RenderEndsWithTrailer | command/root.go:111-113 | after the group blocks comes exactly `"[all:vars]\n" + "ansible_ssh_user=ec2-user\n" + "ansible_ssh_private_key_file=~/.ssh/" + keyname + ".pem\n"` |
| Inventory.RenderTrailer | command/root.go:111-113 | an inventory with no groups is the three-line `[all:vars]` section alone |
| Inventory.BodyLinesCount | command/root.go:105-110 | the group blocks have one header line per group plus one line per member |
| Inventory.RenderNoReservations | command/root.go:79-113 | with no reservations, for the only possible order, the output is the trailer alone with the key file `~/.ssh/.pem` |
| InventoryParse.RenderRoundTrip | command/root.go:104-113 | if no name, address or key name holds a newline and no address looks like `[...]`, reading the printed text back gives each group with its addresses, in print order, and the key name |
| InventoryParse.ParsedGroupsAreTheGroups | command/root.go:105-110 | whatever order the map range took, the inventory read back describes exactly the classified map |
| RootCommand.ClassifyEC2Instances | command/root.go:61-102 | if the query fails: no map, key name `""` and the query's error; otherwise no error, the map `Classify(reservations, tagKey)` and the last reservation's key name |
| RootCommand.Run | command/root.go:42-49 | if the query fails the error is returned and nothing is printed; otherwise the output is `Render` of the classified map in the order the range took, with the last key name |
| Ec2Inv.PrintInventory | ec2inv.go:73-123 | if the query fails the error is returned and nothing is printed; otherwise it prints the inventory of the groups under the fixed key `AnsibleInventoryGroup`, in the order the map range took, with the last key name |
| Generate.PrintInventory | generate.go:73-113 | if the query fails the error is returned before any grouping and neither debug line is reached; otherwise the map shown before the loop is empty and the map shown after it is `Classify(reservations, "AnsibleInventoryGroup")`; key names are not needed |
| Scenarios.WebClassification | command/root.go:82-101 | the worked example: `web` gets `["1.2.3.4", "5.6.7.8"]`, `""` gets `["9.9.9.9"]`, and the key name is `prod-key` |
| Scenarios.WebRendering | command/root.go:104-113 | the worked example printed with `web` first: `[web]`, its two addresses, `[]`, its one address, then the trailer naming `~/.ssh/prod-key.pem` |
| Scenarios.WebRenderingUntaggedFirst | command/root.go:104-113 | the worked example printed with the untagged group first: `[]`, its one address, `[web]`, its two addresses, then the same trailer |
| Scenarios.WebRenderingAnyOrder | command/root.go:104-113 | whichever order the map range takes, the worked example prints as exactly one of those two texts |

The shared lemmas are stated about `Classify` for any tag key, so they also
cover the other two programs. The grouping loops of ec2inv.go (lines 91-111)
and generate.go (lines 91-109) are the same loop with the key
`AnsibleInventoryGroup`, and the printing loops of ec2inv.go (lines 113-121)
repeat those of command/root.go.

## Left out

- The AWS SDK calls are left out: the `DescribeInstances` request and its session and region (command/root.go:62-74, ec2inv.go:74-86, generate.go:74-86). They are network I/O through a foreign library. Their answer is the input `Description`.
- `uploadTemplateToS3` and `createAnsibleTargets` in ec2inv.go and generate.go are left out. They upload to S3, then create a CloudFormation stack and wait for it. This is network I/O with no logic of its own.
- The environment-variable lookups inside `uploadTemplateToS3` are left out: they read the process environment.
- Cobra flag registration, `Execute`, `main`, `log.Fatal` and `os.Exit` are left out: they are command-line plumbing.
- generate.go's debug lines format maps with `%v`. Only the map each line shows is modelled, not Go's formatting of it.
- The real Go map iteration order is not modelled. Runs may differ in order, and so may the model's output; every contract holds for every order.
- A nil `KeyName`, a nil `PublicIpAddress` or an empty `Instances` crashes the Go program. The model makes their presence a precondition. The tag pointers `Key` and `Value` are modelled as plain strings, never nil.
- Errors from writing to standard output are not modelled; the source ignores the results of `fmt.Printf`.
- InventoryParse.RenderRoundTrip: holds only for text-safe input (no newlines, no address that looks like `[...]`), because the source escapes nothing.
- InventoryParse.ParsedGroupsAreTheGroups: needs the same text-safe input, for the same reason.
- Go strings are byte strings; the model's `string` is `seq<char>`. No behaviour is lost: the core only compares, concatenates and prints strings, and never looks at their encoding.
