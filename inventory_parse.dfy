/**
 * Reading an inventory back: split the text into lines, take the last three as the
 * `[all:vars]` section and the rest as `[group]` blocks. Rendering and then parsing
 * gives back every group with its addresses in order, and the key name.
 */
module InventoryParse {
  import opened Wrappers
  import opened Grouping
  import opened Inventory

  /** The index of the first newline of `s`, or `|s|` when it has none. */
  function NewlineIndex(s: string): (i: nat)
    ensures i <= |s|
    ensures forall j | 0 <= j < i :: s[j] != '\n'
    ensures i < |s| ==> s[i] == '\n'
  {
    if |s| == 0 || s[0] == '\n' then 0 else 1 + NewlineIndex(s[1..])
  }

  /** The lines of `s`, each without its terminating newline; an unterminated last line is kept. */
  function SplitLines(s: string): seq<string>
    decreases |s|
  {
    if |s| == 0 then []
    else
      var i := NewlineIndex(s);
      if i == |s| then [s] else [s[..i]] + SplitLines(s[i + 1..])
  }

  predicate IsHeader(line: string)
  {
    |line| >= 2 && line[0] == '[' && line[|line| - 1] == ']'
  }

  function HeaderName(line: string): string
    requires IsHeader(line)
  {
    line[1..|line| - 1]
  }

  /** How many lines at the start of `lines` are not group headers. */
  function MemberCount(lines: seq<string>): (n: nat)
    ensures n <= |lines|
    ensures forall j | 0 <= j < n :: !IsHeader(lines[j])
    ensures n < |lines| ==> IsHeader(lines[n])
  {
    if |lines| == 0 || IsHeader(lines[0]) then 0 else 1 + MemberCount(lines[1..])
  }

  /** The `[group]` blocks: each header with the address lines below it. */
  function ParseBlocks(lines: seq<string>): Option<seq<(string, seq<string>)>>
    decreases |lines|
  {
    if |lines| == 0 then Some([])
    else if !IsHeader(lines[0]) then None
    else
      var n := MemberCount(lines[1..]);
      match ParseBlocks(lines[1 + n..])
      case None => None
      case Some(rest) => Some([(HeaderName(lines[0]), lines[1..1 + n])] + rest)
  }

  /** The key name written into the `ansible_ssh_private_key_file` line. */
  function ParseKeyFile(line: string): Option<string>
  {
    var p, q := |KeyFilePrefix|, |KeyFileSuffix|;
    if |line| >= p + q && line[..p] == KeyFilePrefix && line[|line| - q..] == KeyFileSuffix
    then Some(line[p..|line| - q])
    else None
  }

  datatype ParsedInventory = ParsedInventory(blocks: seq<(string, seq<string>)>, keyname: string)

  function ParseInventory(text: string): Option<ParsedInventory>
  {
    var lines := SplitLines(text);
    if |lines| < 3 then None
    else
      var n := |lines| - 3;
      if lines[n] != VarsHeader || lines[n + 1] != SshUserLine then None
      else
        match (ParseBlocks(lines[..n]), ParseKeyFile(lines[n + 2]))
        case (Some(blocks), Some(keyname)) => Some(ParsedInventory(blocks, keyname))
        case _ => None
  }

  /** The groups named in `order`, each with its list, in that order. */
  function Pairs(groups: Groups, order: seq<string>): seq<(string, seq<string>)>
    requires forall g | g in order :: g in groups
  {
    if |order| == 0 then [] else [(order[0], groups[order[0]])] + Pairs(groups, order[1..])
  }

  /** The multimap a list of blocks describes. */
  function ToGroups(blocks: seq<(string, seq<string>)>): Groups
  {
    if |blocks| == 0 then map[] else ToGroups(blocks[1..])[blocks[0].0 := blocks[0].1]
  }

  /** What the text format can carry: no newline anywhere, and no address that reads as a header. */
  predicate TextSafe(groups: Groups, keyname: string)
  {
    && '\n' !in keyname
    && (forall g | g in groups :: '\n' !in g)
    && (forall g, ip | g in groups && ip in groups[g] :: '\n' !in ip && !IsHeader(ip))
  }

  // ---------------------------------------------------------------------------

  lemma {:induction false} SplitUnlines(lines: seq<string>)
    requires forall k | 0 <= k < |lines| :: '\n' !in lines[k]
    ensures SplitLines(Unlines(lines)) == lines
  {
    if |lines| > 0 {
      var s := Unlines(lines);
      var line, tail := lines[0], Unlines(lines[1..]);
      assert s == line + ("\n" + tail);
      assert s[|line|] == '\n';
      assert forall j | 0 <= j < |line| :: s[j] == line[j];
      var i := NewlineIndex(s);
      assert i == |line|;
      assert s[..i] == line;
      assert s[i + 1..] == tail;
      SplitUnlines(lines[1..]);
    }
  }

  /** The address lines of a block end where the next header, or the text, begins. */
  lemma MemberCountOf(members: seq<string>, rest: seq<string>)
    requires forall j | 0 <= j < |members| :: !IsHeader(members[j])
    requires rest == [] || IsHeader(rest[0])
    ensures MemberCount(members + rest) == |members|
  {
    var lines := members + rest;
    assert forall j | 0 <= j < |members| :: lines[j] == members[j];
    assert |members| < |lines| ==> lines[|members|] == rest[0];
  }

  /** One `[group]` block in front of already parsed blocks parses as that group and its addresses. */
  lemma ParseOneBlock(group: string, members: seq<string>, rest: seq<string>, blocks: seq<(string, seq<string>)>)
    requires forall j | 0 <= j < |members| :: !IsHeader(members[j])
    requires rest == [] || IsHeader(rest[0])
    requires ParseBlocks(rest) == Some(blocks)
    ensures ParseBlocks([Header(group)] + (members + rest)) == Some([(group, members)] + blocks)
  {
    var lines := [Header(group)] + (members + rest);
    assert HeaderName(Header(group)) == group;
    assert lines[1..] == members + rest;
    MemberCountOf(members, rest);
    assert lines[1..1 + |members|] == members;
    assert lines[1 + |members|..] == rest;
  }

  lemma {:induction false} ParseBodyLines(groups: Groups, order: seq<string>)
    requires forall g | g in order :: g in groups
    requires forall g, ip | g in groups && ip in groups[g] :: !IsHeader(ip)
    ensures ParseBlocks(BodyLines(groups, order)) == Some(Pairs(groups, order))
  {
    if |order| > 0 {
      var g := order[0];
      var members := groups[g];
      var rest := BodyLines(groups, order[1..]);
      assert BodyLines(groups, order) == [Header(g)] + (members + rest);
      assert rest == [] || IsHeader(rest[0]);
      assert forall j | 0 <= j < |members| :: members[j] in groups[g];
      ParseBodyLines(groups, order[1..]);
      ParseOneBlock(g, members, rest, Pairs(groups, order[1..]));
    }
  }

  lemma ParseKeyFileOf(keyname: string)
    ensures ParseKeyFile(KeyFilePrefix + keyname + KeyFileSuffix) == Some(keyname)
  {
    var line := KeyFilePrefix + keyname + KeyFileSuffix;
    var p, q := |KeyFilePrefix|, |KeyFileSuffix|;
    assert line[..p] == KeyFilePrefix;
    assert line[|line| - q..] == KeyFileSuffix;
    assert line[p..|line| - q] == keyname;
  }

  lemma {:induction false} BodyLinesSafe(groups: Groups, order: seq<string>)
    requires forall g | g in order :: g in groups
    requires forall g | g in groups :: '\n' !in g
    requires forall g, ip | g in groups && ip in groups[g] :: '\n' !in ip
    ensures forall k | 0 <= k < |BodyLines(groups, order)| :: '\n' !in BodyLines(groups, order)[k]
  {
    if |order| > 0 {
      BodyLinesSafe(groups, order[1..]);
      var g := order[0];
      assert '\n' !in Header(g);
      var lines := BodyLines(groups, order);
      assert lines == [Header(g)] + groups[g] + BodyLines(groups, order[1..]);
      forall k | 0 <= k < |lines|
        ensures '\n' !in lines[k]
      {
        if 1 <= k < 1 + |groups[g]| {
          assert lines[k] == groups[g][k - 1];
        } else if k >= 1 + |groups[g]| {
          assert lines[k] == BodyLines(groups, order[1..])[k - 1 - |groups[g]|];
        }
      }
    }
  }

  lemma TrailerLinesSafe(keyname: string)
    requires '\n' !in keyname
    ensures forall k | 0 <= k < |TrailerLines(keyname)| :: '\n' !in TrailerLines(keyname)[k]
  {
    assert '\n' !in KeyFilePrefix && '\n' !in KeyFileSuffix;
    assert '\n' !in KeyFilePrefix + keyname + KeyFileSuffix;
  }

  /** No line of a rendered inventory holds a newline of its own. */
  lemma RenderLinesSafe(groups: Groups, order: seq<string>, keyname: string)
    requires forall g | g in order :: g in groups
    requires TextSafe(groups, keyname)
    ensures forall k | 0 <= k < |BodyLines(groups, order) + TrailerLines(keyname)| ::
              '\n' !in (BodyLines(groups, order) + TrailerLines(keyname))[k]
  {
    var body := BodyLines(groups, order);
    var lines := body + TrailerLines(keyname);
    BodyLinesSafe(groups, order);
    TrailerLinesSafe(keyname);
    forall k | 0 <= k < |lines|
      ensures '\n' !in lines[k]
    {
      if k < |body| {
        assert lines[k] == body[k];
      }
    }
  }

  /** Reading back a rendered inventory gives its blocks in print order and its key name. */
  lemma RenderRoundTrip(groups: Groups, order: seq<string>, keyname: string)
    requires forall g | g in order :: g in groups
    requires TextSafe(groups, keyname)
    ensures ParseInventory(Render(groups, order, keyname)) == Some(ParsedInventory(Pairs(groups, order), keyname))
  {
    var body := BodyLines(groups, order);
    var lines := body + TrailerLines(keyname);
    RenderLinesSafe(groups, order, keyname);
    SplitUnlines(lines);
    var n := |lines| - 3;
    assert lines[..n] == body;
    assert lines[n] == VarsHeader && lines[n + 1] == SshUserLine;
    assert lines[n + 2] == KeyFilePrefix + keyname + KeyFileSuffix;
    ParseBodyLines(groups, order);
    ParseKeyFileOf(keyname);
  }

  lemma {:induction false} PairsToGroups(groups: Groups, order: seq<string>)
    requires forall g | g in order :: g in groups
    ensures forall g :: g in ToGroups(Pairs(groups, order)) <==> g in order
    ensures forall g | g in order :: ToGroups(Pairs(groups, order))[g] == groups[g]
  {
    if |order| > 0 {
      PairsToGroups(groups, order[1..]);
    }
  }

  /**
   * Whichever order the map range took, the inventory read back describes exactly
   * the classified groups, each with its addresses in order.
   */
  lemma ParsedGroupsAreTheGroups(groups: Groups, order: seq<string>, keyname: string)
    requires IsEnumeration(order, groups.Keys)
    requires TextSafe(groups, keyname)
    ensures ParseInventory(Render(groups, order, keyname)).Some?
    ensures ToGroups(ParseInventory(Render(groups, order, keyname)).value.blocks) == groups
    ensures ParseInventory(Render(groups, order, keyname)).value.keyname == keyname
  {
    RenderRoundTrip(groups, order, keyname);
    PairsToGroups(groups, order);
  }
}
