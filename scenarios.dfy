/**
 * A worked example: two instances tagged `Group=web` and one without the tag,
 * all launched with the key `prod-key`.
 */
module Scenarios {
  import opened Wrappers
  import opened Ec2
  import opened Grouping
  import opened Inventory

  function WebReservations(): seq<Reservation>
  {
    [ Reservation([Instance(Some("prod-key"), Some("1.2.3.4"), [Tag("Group", "web")])]),
      Reservation([Instance(Some("prod-key"), Some("5.6.7.8"), [Tag("Group", "web")])]),
      Reservation([Instance(Some("prod-key"), Some("9.9.9.9"), [])]) ]
  }

  function WebGroups(): Groups
  {
    map["web" := ["1.2.3.4", "5.6.7.8"], "" := ["9.9.9.9"]]
  }

  lemma WebGroupNames()
    ensures AllClassifiable(WebReservations(), true)
    ensures GroupOf(WebReservations()[0], "Group") == "web"
    ensures GroupOf(WebReservations()[1], "Group") == "web"
    ensures GroupOf(WebReservations()[2], "Group") == ""
  {
    GroupNameLastMatch([Tag("Group", "web")], "Group", 0);
    GroupNameUnmatched([], "Group");
  }

  /** The two web addresses share a group in input order; the untagged one is in the "" group. */
  lemma WebClassification()
    ensures AllClassifiable(WebReservations(), true)
    ensures Classify(WebReservations(), "Group") == WebGroups()
    ensures LastKeyName(WebReservations()) == "prod-key"
  {
    var rs := WebReservations();
    WebGroupNames();
    assert rs[..1][..0] == [];
    assert rs[..2][..1] == rs[..1];
    assert rs[..3] == rs;
    var m1 := Append(map[], "web", "1.2.3.4");
    assert Classify(rs[..1], "Group") == m1;
    var m2 := Append(m1, "web", "5.6.7.8");
    assert Classify(rs[..2], "Group") == m2;
    var m3 := Append(m2, "", "9.9.9.9");
    assert Classify(rs, "Group") == m3;
    assert m3.Keys == WebGroups().Keys;
    assert m2["web"] == ["1.2.3.4"] + ["5.6.7.8"];
    assert m3["web"] == WebGroups()["web"] && m3[""] == WebGroups()[""];
    assert m3 == WebGroups();
  }

  /** The last group block and the `[all:vars]` section. */
  lemma WebRenderingTail()
    ensures Render(WebGroups(), [""], "prod-key")
         == "[]\n" + "9.9.9.9\n"
          + ("[all:vars]\n" + "ansible_ssh_user=ec2-user\n" + ("ansible_ssh_private_key_file=~/.ssh/" + "prod-key" + ".pem\n"))
  {
    var m, k := WebGroups(), "prod-key";
    assert [""] == [""] + [];
    RenderFirstGroup(m, "", [], k);
    RenderTrailer(m, k);
    UnlinesOne("9.9.9.9");
  }

  /** Printed with `web` first, the inventory reads exactly as below. */
  lemma WebRendering()
    ensures Render(WebGroups(), ["web", ""], "prod-key")
         == "[web]\n" + "1.2.3.4\n" + "5.6.7.8\n" + "[]\n" + "9.9.9.9\n"
          + ("[all:vars]\n" + "ansible_ssh_user=ec2-user\n" + ("ansible_ssh_private_key_file=~/.ssh/" + "prod-key" + ".pem\n"))
  {
    var m, k := WebGroups(), "prod-key";
    assert ["web", ""] == ["web"] + [""];
    RenderFirstGroup(m, "web", [""], k);
    assert ["1.2.3.4", "5.6.7.8"] == ["1.2.3.4"] + ["5.6.7.8"];
    UnlinesSnoc(["1.2.3.4"], "5.6.7.8");
    UnlinesOne("1.2.3.4");
    WebRenderingTail();
  }

  /** The `web` block as the last group, then the `[all:vars]` section. */
  lemma WebRenderingWebTail()
    ensures Render(WebGroups(), ["web"], "prod-key")
         == "[web]\n" + "1.2.3.4\n" + "5.6.7.8\n"
          + ("[all:vars]\n" + "ansible_ssh_user=ec2-user\n" + ("ansible_ssh_private_key_file=~/.ssh/" + "prod-key" + ".pem\n"))
  {
    var m, k := WebGroups(), "prod-key";
    assert ["web"] == ["web"] + [];
    RenderFirstGroup(m, "web", [], k);
    assert ["1.2.3.4", "5.6.7.8"] == ["1.2.3.4"] + ["5.6.7.8"];
    UnlinesSnoc(["1.2.3.4"], "5.6.7.8");
    UnlinesOne("1.2.3.4");
    RenderTrailer(m, k);
  }

  /** Printed with the untagged group first, the inventory reads exactly as below. */
  lemma WebRenderingUntaggedFirst()
    ensures Render(WebGroups(), ["", "web"], "prod-key")
         == "[]\n" + "9.9.9.9\n" + "[web]\n" + "1.2.3.4\n" + "5.6.7.8\n"
          + ("[all:vars]\n" + "ansible_ssh_user=ec2-user\n" + ("ansible_ssh_private_key_file=~/.ssh/" + "prod-key" + ".pem\n"))
  {
    var m, k := WebGroups(), "prod-key";
    assert ["", "web"] == [""] + ["web"];
    RenderFirstGroup(m, "", ["web"], k);
    UnlinesOne("9.9.9.9");
    WebRenderingWebTail();
  }

  lemma FirstThreeDistinct(order: seq<string>)
    requires Distinct(order) && |order| >= 3
    ensures order[0] != order[1] && order[0] != order[2] && order[1] != order[2]
  {
  }

  /** The example's two groups can be ranged over in exactly two orders. */
  lemma WebEnumerations(order: seq<string>)
    requires IsEnumeration(order, WebGroups().Keys)
    ensures order == ["web", ""] || order == ["", "web"]
  {
    assert WebGroups().Keys == {"web", ""};
    assert "web" in order && "" in order;
    forall k | 0 <= k < |order|
      ensures order[k] == "web" || order[k] == ""
    {
      assert order[k] in WebGroups().Keys;
    }
    if |order| > 2 {
      FirstThreeDistinct(order);
      assert false;
    }
    assert |order| == 2;
    if order[0] == "web" {
      assert order == ["web", ""];
    } else {
      assert order == ["", "web"];
    }
  }

  /** Whatever order the map range takes, the example prints as one of the two texts above. */
  lemma WebRenderingAnyOrder(order: seq<string>)
    requires IsEnumeration(order, WebGroups().Keys)
    ensures || Render(WebGroups(), order, "prod-key")
               == "[web]\n" + "1.2.3.4\n" + "5.6.7.8\n" + "[]\n" + "9.9.9.9\n"
                + ("[all:vars]\n" + "ansible_ssh_user=ec2-user\n" + ("ansible_ssh_private_key_file=~/.ssh/" + "prod-key" + ".pem\n"))
            || Render(WebGroups(), order, "prod-key")
               == "[]\n" + "9.9.9.9\n" + "[web]\n" + "1.2.3.4\n" + "5.6.7.8\n"
                + ("[all:vars]\n" + "ansible_ssh_user=ec2-user\n" + ("ansible_ssh_private_key_file=~/.ssh/" + "prod-key" + ".pem\n"))
  {
    WebEnumerations(order);
    if order == ["web", ""] {
      WebRendering();
    } else {
      WebRenderingUntaggedFirst();
    }
  }
}
