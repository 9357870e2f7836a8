/** The two tables that relate NYC building-class categories to Zillow-style
    home types (project/helpers.py), and the two ways the pipeline reads them:
    inverted into a class-to-group lookup, and flattened into (group, class) pairs. */
module Categories {
  import opened Frame

  /** A Python dict from a group name to a list of building classes, in insertion order. */
  type Groups = seq<(string, seq<string>)>

  /** `mapping`: several groups share classes ('01 ONE FAMILY DWELLINGS' is in four). */
  const Mapping: Groups := [
    ("Single-family home", ["01 ONE FAMILY DWELLINGS"]),
    ("Multi-family home", [
      "03 THREE FAMILY DWELLINGS",
      "07 RENTALS - WALKUP APARTMENTS",
      "08 RENTALS - ELEVATOR APARTMENTS",
      "14 RENTALS - 4-10 UNIT",
      "15 CONDOS - 2-10 UNIT RESIDENTIAL",
      "16 CONDOS - 2-10 UNIT WITH COMMERCIAL UNIT"]),
    ("Apartment", [
      "07 RENTALS - WALKUP APARTMENTS",
      "08 RENTALS - ELEVATOR APARTMENTS",
      "09 COOPS - WALKUP APARTMENTS",
      "10 COOPS - ELEVATOR APARTMENTS"]),
    ("Condo", [
      "04 TAX CLASS 1 CONDOS",
      "12 CONDOS - WALKUP APARTMENTS",
      "13 CONDOS - ELEVATOR APARTMENTS"]),
    ("Co-op", [
      "09 COOPS - WALKUP APARTMENTS",
      "10 COOPS - ELEVATOR APARTMENTS",
      "17 CONDO COOPS"]),
    ("Duplex", ["02 TWO FAMILY DWELLINGS"]),
    ("Townhouse", ["01 ONE FAMILY DWELLINGS", "02 TWO FAMILY DWELLINGS"]),
    ("Brownstone", ["01 ONE FAMILY DWELLINGS", "02 TWO FAMILY DWELLINGS"]),
    ("Row house", ["01 ONE FAMILY DWELLINGS", "02 TWO FAMILY DWELLINGS"])
  ]

  /** `intermediary_mapping`: every class is listed under exactly one group. */
  const IntermediaryMapping: Groups := [
    ("Single-family home", ["01 ONE FAMILY DWELLINGS"]),
    ("Duplex", ["02 TWO FAMILY DWELLINGS"]),
    ("Multi-family home", [
      "03 THREE FAMILY DWELLINGS",
      "14 RENTALS - 4-10 UNIT",
      "15 CONDOS - 2-10 UNIT RESIDENTIAL",
      "16 CONDOS - 2-10 UNIT WITH COMMERCIAL UNIT"]),
    ("Apartment", [
      "08 RENTALS - ELEVATOR APARTMENTS",
      "07 RENTALS - WALKUP APARTMENTS"]),
    ("Condo", [
      "04 TAX CLASS 1 CONDOS",
      "12 CONDOS - WALKUP APARTMENTS",
      "13 CONDOS - ELEVATOR APARTMENTS"]),
    ("Co-op", [
      "17 CONDO COOPS",
      "09 COOPS - WALKUP APARTMENTS",
      "10 COOPS - ELEVATOR APARTMENTS"])
  ]

  /** Whether `cls` is in the list of group number `i`. */
  predicate ListedAt(m: Groups, i: int, cls: string) {
    0 <= i < |m| && cls in m[i].1
  }

  /** No building class is listed under two groups. */
  predicate Disjoint(m: Groups) {
    forall i, j, cls :: 0 <= i < j < |m| && cls in m[i].1 ==> cls !in m[j].1
  }

  /** The dict comprehension `{cls: group for group, classes in m.items() for cls in classes}`:
      it runs over the groups in order, so a class listed twice ends with the later group. */
  function Invert(m: Groups): map<string, string>
    decreases |m|
  {
    if m == [] then map[]
    else
      var last := m[|m| - 1];
      Invert(m[..|m| - 1]) + map cls | cls in last.1 :: last.0
  }

  /** A class is in the inverted map exactly when some group lists it, and it maps
      to the LAST group that lists it. */
  lemma {:induction false} InvertPicksLastGroup(m: Groups, cls: string)
    ensures cls in Invert(m) <==> exists i :: ListedAt(m, i, cls)
    ensures forall i :: ListedAt(m, i, cls) && (forall j :: i < j < |m| ==> !ListedAt(m, j, cls)) ==>
      cls in Invert(m) && Invert(m)[cls] == m[i].0
    decreases |m|
  {
    if m != [] {
      var n := |m| - 1;
      var init := m[..n];
      InvertPicksLastGroup(init, cls);
      assert forall i :: 0 <= i < n ==> init[i] == m[i];
      assert forall i :: ListedAt(init, i, cls) ==> ListedAt(m, i, cls);
      if cls in m[n].1 {
        assert ListedAt(m, n, cls);
        assert Invert(m)[cls] == m[n].0;
      } else {
        assert forall i :: ListedAt(m, i, cls) ==> ListedAt(init, i, cls);
        assert cls in Invert(m) <==> cls in Invert(init);
        forall i | ListedAt(m, i, cls) && (forall j :: i < j < |m| ==> !ListedAt(m, j, cls))
          ensures cls in Invert(m) && Invert(m)[cls] == m[i].0
        {
          assert ListedAt(init, i, cls);
          assert forall j :: i < j < |init| ==> !ListedAt(init, j, cls) by {
            forall j | i < j < |init| ensures !ListedAt(init, j, cls) {
              assert !ListedAt(m, j, cls);
            }
          }
        }
      }
    }
  }

  /** When the lists are disjoint the inversion is exact: looking up any listed
      class gives back the one group whose list holds it. */
  lemma {:induction false} InvertRecoversGroup(m: Groups, i: int, cls: string)
    requires Disjoint(m) && ListedAt(m, i, cls)
    ensures cls in Invert(m) && Invert(m)[cls] == m[i].0
  {
    InvertPicksLastGroup(m, cls);
  }

  /** The inverted map knows only listed classes. */
  lemma {:induction false} InvertOnlyListed(m: Groups, cls: string)
    requires cls !in Invert(m)
    ensures forall i :: 0 <= i < |m| ==> cls !in m[i].1
  {
    InvertPicksLastGroup(m, cls);
    assert forall i :: 0 <= i < |m| && cls in m[i].1 ==> ListedAt(m, i, cls);
  }

  /** `[(group, cls) for group, classes in m.items() for cls in classes]`, the
      form the notebook stores `mapping` in because its lists overlap. */
  function Flatten(m: Groups): seq<(string, string)>
  {
    if m == [] then []
    else seq(|m[0].1|, k requires 0 <= k < |m[0].1| => (m[0].0, m[0].1[k])) + Flatten(m[1..])
  }

  /** Group `g` lists class `cls`. */
  ghost predicate Pairs(m: Groups, g: string, cls: string) {
    exists i :: ListedAt(m, i, cls) && m[i].0 == g
  }

  /** Flattening loses no pair and invents none, even where the lists overlap. */
  lemma {:induction false} FlattenKeepsEveryPair(m: Groups, g: string, cls: string)
    ensures (g, cls) in Flatten(m) <==> Pairs(m, g, cls)
  {
    if m != [] {
      FlattenKeepsEveryPair(m[1..], g, cls);
      var head := seq(|m[0].1|, k requires 0 <= k < |m[0].1| => (m[0].0, m[0].1[k]));
      assert Flatten(m) == head + Flatten(m[1..]);
      assert (g, cls) in head <==> g == m[0].0 && cls in m[0].1 by {
        if g == m[0].0 && cls in m[0].1 {
          var k :| 0 <= k < |m[0].1| && m[0].1[k] == cls;
          assert head[k] == (g, cls);
        }
      }
      if Pairs(m[1..], g, cls) {
        var i :| ListedAt(m[1..], i, cls) && m[1..][i].0 == g;
        assert ListedAt(m, i + 1, cls) && m[i + 1].0 == g;
      }
      if Pairs(m, g, cls) {
        var i :| ListedAt(m, i, cls) && m[i].0 == g;
        if i > 0 {
          assert ListedAt(m[1..], i - 1, cls) && m[1..][i - 1].0 == g;
        }
      }
    }
  }

  function ListedCount(m: Groups): nat {
    if m == [] then 0 else |m[0].1| + ListedCount(m[1..])
  }

  /** Flattening keeps one pair per listing, repeats included. */
  lemma {:induction false} FlattenSize(m: Groups)
    ensures |Flatten(m)| == ListedCount(m)
  {
    if m != [] {
      FlattenSize(m[1..]);
    }
  }

  lemma IntermediaryMappingIsDisjoint()
    ensures Disjoint(IntermediaryMapping)
  {
  }

  /** `mapping` is not disjoint: its one-family class is listed under four groups. */
  lemma MappingOverlaps()
    ensures !Disjoint(Mapping)
  {
    var cls := "01 ONE FAMILY DWELLINGS";
    assert cls in Mapping[0].1 && cls in Mapping[6].1;
  }

  /** So inverting `mapping` would lose groups: the one-family class would keep only
      "Row house", the last group to list it ... */
  lemma {:induction false} InvertingMappingLosesGroups()
    ensures Invert(Mapping)["01 ONE FAMILY DWELLINGS"] == "Row house"
  {
    var cls := "01 ONE FAMILY DWELLINGS";
    assert ListedAt(Mapping, 8, cls);
    InvertPicksLastGroup(Mapping, cls);
  }

  /** A listed class is paired with the group that lists it. */
  lemma {:induction false} FlattenKeepsListing(m: Groups, i: int, cls: string)
    requires ListedAt(m, i, cls)
    ensures (m[i].0, cls) in Flatten(m)
  {
    FlattenKeepsEveryPair(m, m[i].0, cls);
  }

  /** ... while the flattened pairs keep all four groups that list it. */
  lemma {:induction false} FlatteningMappingKeepsGroups()
    ensures ("Single-family home", "01 ONE FAMILY DWELLINGS") in Flatten(Mapping)
    ensures ("Townhouse", "01 ONE FAMILY DWELLINGS") in Flatten(Mapping)
    ensures ("Brownstone", "01 ONE FAMILY DWELLINGS") in Flatten(Mapping)
    ensures ("Row house", "01 ONE FAMILY DWELLINGS") in Flatten(Mapping)
  {
    var cls := "01 ONE FAMILY DWELLINGS";
    FlattenKeepsListing(Mapping, 0, cls);
    FlattenKeepsListing(Mapping, 6, cls);
    FlattenKeepsListing(Mapping, 7, cls);
    FlattenKeepsListing(Mapping, 8, cls);
  }

  /** `series.map(invert_mapping)` on one cell, with `invert_mapping` built from
      `intermediary_mapping`: a class the inverted map knows becomes its group,
      anything else (an unknown class, a missing value, a number) becomes NaN. */
  function GroupOf(c: Cell): (g: Cell)
    ensures g == Null || g.Text?
  {
    if c.Text? && c.s in Invert(IntermediaryMapping) then Text(Invert(IntermediaryMapping)[c.s]) else Null
  }

  /** A class listed under group `i` of `intermediary_mapping` is mapped to that group. */
  lemma GroupOfRecoversGroup(cls: string, i: int)
    requires ListedAt(IntermediaryMapping, i, cls)
    ensures GroupOf(Text(cls)) == Text(IntermediaryMapping[i].0)
  {
    IntermediaryMappingIsDisjoint();
    InvertRecoversGroup(IntermediaryMapping, i, cls);
  }

  /** A cell maps to NaN exactly when it is not a class that some group lists. */
  lemma GroupOfMissing(c: Cell)
    ensures GroupOf(c) == Null <==> !c.Text? || forall i :: 0 <= i < |IntermediaryMapping| ==> !ListedAt(IntermediaryMapping, i, c.s)
  {
    if c.Text? {
      InvertPicksLastGroup(IntermediaryMapping, c.s);
    }
  }
}
