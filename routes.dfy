/** The route column: `items.map(pick).filter(Boolean).join(", ") || "-"`, where
    `pick` takes an item's description, else its service type, else its name. */
module Routes {
  import opened Invoices

  /** The first of description, service type and name that is not empty. */
  function Pick(item: Item): (r: string)
    ensures r == "" <==> item.description == "" && item.serviceType == "" && item.name == ""
    ensures item.description != "" ==> r == item.description
    ensures item.description == "" && item.serviceType != "" ==> r == item.serviceType
    ensures item.description == "" && item.serviceType == "" ==> r == item.name
  {
    if item.description != "" then item.description
    else if item.serviceType != "" then item.serviceType
    else item.name
  }

  /** `items.map(pick)`. */
  function PickAll(items: seq<Item>): (ps: seq<string>)
    ensures |ps| == |items|
    ensures forall i :: 0 <= i < |items| ==> ps[i] == Pick(items[i])
  {
    seq(|items|, i requires 0 <= i < |items| => Pick(items[i]))
  }

  /** `.filter(Boolean)`: drops the empty strings, keeps the rest in order. */
  function NonEmpty(ps: seq<string>): (r: seq<string>)
    ensures |r| <= |ps|
    decreases |ps|
  {
    if ps == [] then []
    else NonEmpty(ps[..|ps| - 1]) + (if ps[|ps| - 1] != "" then [ps[|ps| - 1]] else [])
  }

  /** `.join(sep)`. */
  function Join(ps: seq<string>, sep: string): (r: string)
    decreases |ps|
  {
    if ps == [] then ""
    else if |ps| == 1 then ps[0]
    else Join(ps[..|ps| - 1], sep) + sep + ps[|ps| - 1]
  }

  /** The non-empty picks, in item order. */
  function Picks(items: seq<Item>): (ps: seq<string>)
  {
    NonEmpty(PickAll(items))
  }

  /** The route cell; `|| "-"` replaces an empty join. */
  function Route(items: seq<Item>): (r: string)
    ensures r != ""
  {
    var joined := Join(Picks(items), ", ");
    if joined == "" then "-" else joined
  }

  // ---- Properties of the pieces

  lemma {:induction false} NonEmptyMembers(ps: seq<string>)
    ensures forall p :: p in NonEmpty(ps) ==> p != "" && p in ps
    decreases |ps|
  {
    if ps != [] {
      NonEmptyMembers(ps[..|ps| - 1]);
      forall p | p in NonEmpty(ps) ensures p != "" && p in ps {
        if p in NonEmpty(ps[..|ps| - 1]) {
          assert p in ps[..|ps| - 1];
        }
      }
    }
  }

  /** `filter(Boolean)` loses no non-empty string. */
  lemma {:induction false} NonEmptyKeeps(ps: seq<string>)
    ensures forall p :: p in ps && p != "" ==> p in NonEmpty(ps)
    decreases |ps|
  {
    if ps != [] {
      var init, last := ps[..|ps| - 1], ps[|ps| - 1];
      NonEmptyKeeps(init);
      assert ps == init + [last];
      forall p | p in ps && p != "" ensures p in NonEmpty(ps) {
        if p != last {
          assert p in init;
        }
      }
    }
  }

  /** The filter leaves nothing exactly when every string is empty. */
  lemma {:induction false} NonEmptyEmptyIff(ps: seq<string>)
    ensures NonEmpty(ps) == [] <==> forall p :: p in ps ==> p == ""
    decreases |ps|
  {
    if ps != [] {
      var init, last := ps[..|ps| - 1], ps[|ps| - 1];
      NonEmptyEmptyIff(init);
      assert ps == init + [last];
      assert NonEmpty(ps) == [] <==> NonEmpty(init) == [] && last == "";
      if forall p :: p in ps ==> p == "" {
        assert last in ps;
        forall p | p in init ensures p == "" {
          assert p in ps;
        }
      }
      if NonEmpty(ps) == [] {
        forall p | p in ps ensures p == "" {
          assert p in init || p == last;
        }
      }
    }
  }

  /** Joining non-empty strings gives the empty string only for no strings at all. */
  lemma JoinEmptyIff(ps: seq<string>, sep: string)
    requires forall p :: p in ps ==> p != ""
    ensures Join(ps, sep) == "" <==> ps == []
  {
    if |ps| > 1 {
      assert ps[|ps| - 1] in ps;
    } else if |ps| == 1 {
      assert ps[0] in ps;
    }
  }

  /** A join of two or more strings contains the separator, so it is at least as long
      as the separator plus its first and last parts. */
  lemma {:induction false} JoinLength(ps: seq<string>, sep: string)
    requires |ps| >= 2
    ensures |Join(ps, sep)| >= |sep| + |ps[0]| + |ps[|ps| - 1]|
    decreases |ps|
  {
    if |ps| > 2 {
      JoinLength(ps[..|ps| - 1], sep);
    }
  }

  // ---- The route

  /** The route is the non-empty picks joined by ", " or, when there is none, "-". */
  lemma RouteIsJoinedPicks(items: seq<Item>)
    ensures Picks(items) == [] ==> Route(items) == "-"
    ensures Picks(items) != [] ==> Route(items) == Join(Picks(items), ", ")
  {
    NonEmptyMembers(PickAll(items));
    JoinEmptyIff(Picks(items), ", ");
  }

  /** The route is "-" exactly when no item yields a non-empty pick, or the only one is "-". */
  lemma RouteIsDashIff(items: seq<Item>)
    ensures Route(items) == "-" <==> Picks(items) == [] || Picks(items) == ["-"]
  {
    var ps := Picks(items);
    RouteIsJoinedPicks(items);
    NonEmptyMembers(PickAll(items));
    if |ps| >= 2 {
      JoinLength(ps, ", ");
      assert ps[0] in ps;
    }
  }

  /** When no item has a description, service type or name, the route is "-";
      any item with one of them gives a non-empty pick. */
  lemma RouteDashForBlankItems(items: seq<Item>)
    ensures (forall i :: 0 <= i < |items| ==> Pick(items[i]) == "") <==> Picks(items) == []
  {
    var ps := PickAll(items);
    NonEmptyEmptyIff(ps);
    if Picks(items) == [] {
      forall i | 0 <= i < |items| ensures Pick(items[i]) == "" {
        assert ps[i] in ps;
      }
    }
  }

  // ---- An independent, one-pass definition

  /** Appends one pick to a partial route, the way a hand-written loop would. */
  function AddPick(acc: string, p: string): (r: string)
  {
    if p == "" then acc else if acc == "" then p else acc + ", " + p
  }

  /** The one-pass route text before the "-" default. */
  function RouteByPass(items: seq<Item>): (r: string)
    decreases |items|
  {
    if items == [] then "" else AddPick(RouteByPass(items[..|items| - 1]), Pick(items[|items| - 1]))
  }

  /** Map, filter and join build the same text as one pass over the items. */
  lemma {:induction false} JoinedPicksIsOnePass(items: seq<Item>)
    ensures Join(Picks(items), ", ") == RouteByPass(items)
    decreases |items|
  {
    if items != [] {
      var init, last := items[..|items| - 1], items[|items| - 1];
      JoinedPicksIsOnePass(init);
      var ps := PickAll(items);
      assert ps[..|ps| - 1] == PickAll(init);
      assert Picks(items) == Picks(init) + (if Pick(last) != "" then [Pick(last)] else []);
      NonEmptyMembers(PickAll(init));
      JoinEmptyIff(Picks(init), ", ");
      var acc := Join(Picks(init), ", ");
      assert RouteByPass(items) == AddPick(acc, Pick(last));
      if Pick(last) == "" {
        assert Picks(items) == Picks(init) + [] == Picks(init);
      } else if Picks(init) == [] {
        assert Picks(items) == [Pick(last)];
      } else {
        var qs := Picks(init) + [Pick(last)];
        assert Picks(items) == qs;
        assert qs[..|qs| - 1] == Picks(init);
        assert Join(qs, ", ") == acc + ", " + Pick(last);
      }
    }
  }

  /** Three items with one field each: a description, a service type, a name. */
  lemma RouteExampleThreeItems()
    ensures Route([Item("A", "", ""), Item("", "B", ""), Item("", "", "C")]) == "A, B, C"
  {
    var items := [Item("A", "", ""), Item("", "B", ""), Item("", "", "C")];
    var ps := ["A", "B", "C"];
    assert PickAll(items) == ps;
    assert ps[..2] == ["A", "B"] && ["A", "B"][..1] == ["A"] && ["A"][..0] == [];
    assert NonEmpty(["A"]) == NonEmpty([]) + ["A"] == ["A"];
    assert NonEmpty(["A", "B"]) == NonEmpty(["A"]) + ["B"] == ["A", "B"];
    assert NonEmpty(ps) == NonEmpty(["A", "B"]) + ["C"] == ps;
    assert Picks(items) == ps;
    assert Join(["A"], ", ") == "A";
    assert Join(["A", "B"], ", ") == Join(["A"], ", ") + ", " + "B" == "A, B";
    assert Join(ps, ", ") == Join(["A", "B"], ", ") + ", " + "C" == "A, B, C";
  }

  /** One item with no description, service type or name. */
  lemma RouteExampleBlankItem()
    ensures Route([Item("", "", "")]) == "-"
  {
    var items := [Item("", "", "")];
    assert PickAll(items) == [""];
    assert [""][..0] == [];
    assert NonEmpty([""]) == NonEmpty([]) + [] == [];
    assert Picks(items) == [];
    assert Join([], ", ") == "";
  }
}
