/**
 * The layout view's figures: the selected profile, the panel total, the scanned count,
 * and the distinct sections in order of first appearance.
 */
module LayoutView {
  import opened Wrappers
  import opened Seqs
  import opened Sorting
  import opened Panels

  /** `profiles.find(p => p.id === selectedProfileId)`; a null selection never matches. */
  function SelectedProfile(profiles: seq<Profile>, selectedId: Option<int>): (r: Option<Profile>)
    ensures r.Some? ==> selectedId.Some? && r.value in profiles && r.value.id == selectedId.value
    ensures r.None? <==> selectedId.None? || forall i :: 0 <= i < |profiles| ==> profiles[i].id != selectedId.value
    ensures r.Some? ==> exists i :: (0 <= i < |profiles| && profiles[i] == r.value
      && forall j :: 0 <= j < i ==> profiles[j].id != selectedId.value)
  {
    if selectedId.None? || profiles == [] then None
    else if profiles[0].id == selectedId.value then Some(profiles[0])
    else
      var rest := SelectedProfile(profiles[1..], selectedId);
      assert forall j :: 1 <= j < |profiles| ==> profiles[j] == profiles[1..][j - 1];
      if rest.Some? then
        assert exists i :: (0 <= i < |profiles| && profiles[i] == rest.value
          && forall j :: 0 <= j < i ==> profiles[j].id != selectedId.value) by {
          var i :| 0 <= i < |profiles[1..]| && profiles[1..][i] == rest.value
            && forall j :: 0 <= j < i ==> profiles[1..][j].id != selectedId.value;
          assert profiles[i + 1] == rest.value;
        }
        rest
      else rest
  }

  /** The figures handed to the dashboard. */
  datatype Stats = Stats(totalPanels: nat, scannedPanels: nat, sections: seq<string>)

  function PanelStats(panels: seq<Panel>): (s: Stats)
    ensures s.totalPanels == |panels|
    ensures s.scannedPanels <= s.totalPanels
    ensures s.scannedPanels == |Filter(panels, IsScanned)|
  {
    FilterLength(panels, IsScanned);
    Stats(|panels|, Count(panels, IsScanned), DistinctSections(panels))
  }

  /** `panels.filter(p => p.section).map(p => p.section!)`. */
  function SectionValues(panels: seq<Panel>): (vs: seq<string>)
    ensures forall v :: v in vs <==> exists i :: 0 <= i < |panels| && panels[i].section == Some(v) && v != ""
    decreases |panels|
  {
    if panels == [] then []
    else
      var init := panels[..|panels| - 1];
      var last := panels[|panels| - 1];
      assert forall i :: 0 <= i < |init| ==> init[i] == panels[i];
      SectionValues(init) + (if last.section.Some? && last.section.value != "" then [last.section.value] else [])
  }

  /** `[...new Set(values)]`: each value once, where it first appears. */
  function Dedup(vs: seq<string>): (r: seq<string>)
    ensures forall v :: v in r <==> v in vs
    ensures Distinct(r)
  {
    if vs == [] then []
    else
      var init := vs[..|vs| - 1];
      var d := Dedup(init);
      assert forall v :: v in init ==> v in vs;
      assert vs == init + [vs[|vs| - 1]];
      if vs[|vs| - 1] in d then d else d + [vs[|vs| - 1]]
  }

  function DistinctSections(panels: seq<Panel>): seq<string> {
    Dedup(SectionValues(panels))
  }

  /** The position of the first occurrence of `v`. */
  function IndexOf(vs: seq<string>, v: string): (k: nat)
    requires v in vs
    ensures k < |vs| && vs[k] == v && v !in vs[..k]
  {
    var init := vs[..|vs| - 1];
    if v in init then
      var k := IndexOf(init, v);
      assert vs[..k] == init[..k];
      k
    else
      assert vs == init + [vs[|vs| - 1]];
      |vs| - 1
  }

  lemma IndexOfExtend(vs: seq<string>, x: string, v: string)
    requires v in vs
    ensures IndexOf(vs + [x], v) == IndexOf(vs, v)
  {
    assert (vs + [x])[..|vs|] == vs;
  }

  /** Sections are listed in the order in which they first occur among the panels. */
  lemma {:induction false} DedupFirstOccurrenceOrder(vs: seq<string>)
    ensures forall i, j :: 0 <= i < j < |Dedup(vs)| ==> IndexOf(vs, Dedup(vs)[i]) < IndexOf(vs, Dedup(vs)[j])
  {
    if vs != [] {
      var init := vs[..|vs| - 1];
      var x := vs[|vs| - 1];
      assert vs == init + [x];
      DedupFirstOccurrenceOrder(init);
      var d := Dedup(init);
      forall v | v in d ensures IndexOf(vs, v) == IndexOf(init, v) {
        IndexOfExtend(init, x, v);
      }
      if x !in d {
        assert IndexOf(vs, x) == |vs| - 1;
        forall i | 0 <= i < |d| ensures IndexOf(vs, d[i]) < |vs| - 1 {
          assert d[i] in d;
        }
      }
    }
  }

  /** Every sectioned panel's section is listed, once, and nothing else is. */
  lemma DistinctSectionsComplete(panels: seq<Panel>)
    ensures forall v :: v in DistinctSections(panels) <==>
      exists i :: 0 <= i < |panels| && panels[i].section == Some(v) && v != ""
    ensures Distinct(DistinctSections(panels))
  {
  }
}
