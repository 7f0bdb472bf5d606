/**
 * The section layout: panels grouped by section, sections in plain string order, and
 * per section a dense grid of maxRow x maxCol cells in which each placed panel sits at
 * its (row, column), later panels overwriting earlier ones.
 */
module SectionGrid {
  import opened Wrappers
  import opened Seqs
  import opened Sorting
  import opened Panels

  /** The panel's section is truthy and equal to `name`. */
  predicate InSection(name: string, p: Panel) {
    name != "" && p.section == Some(name)
  }

  /** `panel.section` is truthy. */
  predicate Sectioned(p: Panel) {
    p.section.Some? && p.section.value != ""
  }

  /** `panelsBySection[name]`: the panels of the section, in input order. */
  function PanelsIn(ps: seq<Panel>, name: string): (r: seq<Panel>)
    ensures |r| <= |ps|
    ensures forall i :: 0 <= i < |r| ==> InSection(name, r[i])
    ensures r == [] <==> forall i :: 0 <= i < |ps| ==> !InSection(name, ps[i])
  {
    if ps == [] then []
    else
      var init := ps[..|ps| - 1];
      var last := ps[|ps| - 1];
      assert forall i :: 0 <= i < |init| ==> init[i] == ps[i];
      PanelsIn(init, name) + (if InSection(name, last) then [last] else [])
  }

  /** A panel is in its section's group exactly when it is one of the panels and carries that section. */
  lemma {:induction false} PanelsInMembers(ps: seq<Panel>, name: string)
    ensures forall p :: p in PanelsIn(ps, name) <==> p in ps && InSection(name, p)
  {
    if ps != [] {
      var init := ps[..|ps| - 1];
      PanelsInMembers(init, name);
      assert ps == init + [ps[|ps| - 1]];
    }
  }

  /** A panel belongs to one group only. */
  lemma GroupsDisjoint(ps: seq<Panel>, a: string, b: string, p: Panel)
    requires p in PanelsIn(ps, a) && p in PanelsIn(ps, b)
    ensures a == b
  {
    PanelsInMembers(ps, a);
    PanelsInMembers(ps, b);
  }

  /** PanelsIn keeps the order of the panels: it is Array.prototype.filter with InSection. */
  lemma {:induction false} PanelsInIsFilter(ps: seq<Panel>, name: string)
    ensures PanelsIn(ps, name) == Filter(ps, p => InSection(name, p))
  {
    if ps != [] {
      var init := ps[..|ps| - 1];
      PanelsInIsFilter(init, name);
      assert init + [ps[|ps| - 1]] == ps;
      FilterAppend(init, ps[|ps| - 1], p => InSection(name, p));
    }
  }

  /** One more panel joins the group of its own section and no other. */
  lemma PanelsInStep(ps: seq<Panel>, i: int)
    requires 0 <= i < |ps|
    ensures forall k :: (PanelsIn(ps[..i + 1], k)
      == PanelsIn(ps[..i], k) + if InSection(k, ps[i]) then [ps[i]] else [])
  {
    assert ps[..i + 1][..i] == ps[..i];
  }

  /** The reduce over the panels: a group per truthy section, with the keys in insertion order. */
  method GroupBySection(panels: seq<Panel>) returns (groups: map<string, seq<Panel>>, keys: seq<string>)
    ensures forall k :: k in groups <==> exists i :: 0 <= i < |panels| && InSection(k, panels[i])
    ensures forall k :: k in groups ==> groups[k] == PanelsIn(panels, k)
    ensures forall k :: k in groups <==> k in keys
    ensures Distinct(keys)
  {
    groups := map[];
    keys := [];
    var i := 0;
    while i < |panels|
      invariant 0 <= i <= |panels|
      invariant forall k :: k in groups <==> exists j :: 0 <= j < i && InSection(k, panels[j])
      invariant forall k :: k in groups ==> groups[k] == PanelsIn(panels[..i], k)
      invariant forall k :: k in groups <==> k in keys
      invariant Distinct(keys)
    {
      var p := panels[i];
      PanelsInStep(panels, i);
      if p.section.Some? && p.section.value != "" {
        var name := p.section.value;
        assert InSection(name, panels[i]);
        if name !in groups {
          groups := groups[name := []];
          keys := keys + [name];
        }
        groups := groups[name := groups[name] + [p]];
      }
      i := i + 1;
    }
    assert panels[..i] == panels;
  }

  /** `Object.keys(panelsBySection).sort()`: each section once, ascending in plain string order. */
  function SectionOrder(keys: seq<string>): (sections: seq<string>)
    requires Distinct(keys)
    ensures multiset(sections) == multiset(keys)
    ensures forall i, j :: 0 <= i < j < |sections| ==> LexLess(sections[i], sections[j])
  {
    SortDistinct(keys);
    SortStrings(keys)
  }

  /** `p.row_number || 0` and `p.column_number || 0`. */
  function RowOrZero(p: Panel): int {
    p.rowNumber.GetOr(0)
  }

  function ColumnOrZero(p: Panel): int {
    p.columnNumber.GetOr(0)
  }

  /** `Math.max(...values)` over a non-empty group. */
  function MaxOf(values: seq<int>): (m: int)
    requires values != []
    ensures forall i :: 0 <= i < |values| ==> values[i] <= m
    ensures exists i :: 0 <= i < |values| && values[i] == m
  {
    if |values| == 1 then values[0]
    else
      var rest := MaxOf(values[1..]);
      assert forall i :: 1 <= i < |values| ==> values[i] == values[1..][i - 1];
      if values[0] >= rest then values[0] else rest
  }

  function Rows(ps: seq<Panel>): (rs: seq<int>)
    ensures |rs| == |ps| && forall i :: 0 <= i < |ps| ==> rs[i] == RowOrZero(ps[i])
  {
    seq(|ps|, i requires 0 <= i < |ps| => RowOrZero(ps[i]))
  }

  function Columns(ps: seq<Panel>): (cs: seq<int>)
    ensures |cs| == |ps| && forall i :: 0 <= i < |ps| ==> cs[i] == ColumnOrZero(ps[i])
  {
    seq(|ps|, i requires 0 <= i < |ps| => ColumnOrZero(ps[i]))
  }

  /** Positions are never negative; a negative one makes the render throw. */
  predicate NonNegativePositions(ps: seq<Panel>) {
    forall i :: 0 <= i < |ps| ==> RowOrZero(ps[i]) >= 0 && ColumnOrZero(ps[i]) >= 0
  }

  /** The forEach's test: both row_number and column_number are truthy. */
  predicate Placed(p: Panel) {
    RowOrZero(p) != 0 && ColumnOrZero(p) != 0
  }

  /** The forEach writes `p` at (row, column), counting from 1. */
  predicate PlacedAt(p: Panel, row: int, column: int) {
    Placed(p) && RowOrZero(p) == row && ColumnOrZero(p) == column
  }

  /** The panel the grid shows at (row, column): the last one placed there. */
  function LastAt(ps: seq<Panel>, row: int, column: int): Option<Panel> {
    if ps == [] then None
    else if PlacedAt(ps[|ps| - 1], row, column) then Some(ps[|ps| - 1])
    else LastAt(ps[..|ps| - 1], row, column)
  }

  /**
   * Later panels overwrite earlier ones: a cell holds the last panel placed at it, and is
   * empty exactly when no panel is placed there.
   */
  lemma {:induction false} LastAtIsLast(ps: seq<Panel>, row: int, column: int)
    ensures var cell := LastAt(ps, row, column);
      (cell.None? <==> forall i :: 0 <= i < |ps| ==> !PlacedAt(ps[i], row, column))
      && (cell.Some? ==> exists i :: (0 <= i < |ps| && ps[i] == cell.value && PlacedAt(ps[i], row, column)
           && forall j :: i < j < |ps| ==> !PlacedAt(ps[j], row, column)))
  {
    if ps != [] && !PlacedAt(ps[|ps| - 1], row, column) {
      var init := ps[..|ps| - 1];
      LastAtIsLast(init, row, column);
      assert forall i :: 0 <= i < |init| ==> init[i] == ps[i];
    }
  }

  /** One more panel: it takes the cells it is placed at, the others keep their panel. */
  lemma LastAtStep(ps: seq<Panel>, i: int)
    requires 0 <= i < |ps|
    ensures forall r, c :: (LastAt(ps[..i + 1], r, c)
      == if PlacedAt(ps[i], r, c) then Some(ps[i]) else LastAt(ps[..i], r, c))
  {
    assert ps[..i + 1][..i] == ps[..i];
  }

  /**
   * The grid of one section: maxRow x maxCol cells, each panel with both coordinates set
   * written at [row - 1][column - 1], which is always inside the grid.
   */
  method BuildGrid(sectionPanels: seq<Panel>) returns (grid: array2<Option<Panel>>)
    requires sectionPanels != [] && NonNegativePositions(sectionPanels)
    ensures grid.Length0 == MaxOf(Rows(sectionPanels)) && grid.Length1 == MaxOf(Columns(sectionPanels))
    ensures forall r, c :: 0 <= r < grid.Length0 && 0 <= c < grid.Length1 ==>
      grid[r, c] == LastAt(sectionPanels, r + 1, c + 1)
    ensures fresh(grid)
  {
    var maxRow := MaxOf(Rows(sectionPanels));
    var maxCol := MaxOf(Columns(sectionPanels));
    assert RowOrZero(sectionPanels[0]) >= 0 && ColumnOrZero(sectionPanels[0]) >= 0;
    grid := new Option<Panel>[maxRow, maxCol]((_, _) => None);
    var i := 0;
    while i < |sectionPanels|
      invariant 0 <= i <= |sectionPanels|
      invariant forall r, c :: 0 <= r < maxRow && 0 <= c < maxCol ==>
        grid[r, c] == LastAt(sectionPanels[..i], r + 1, c + 1)
    {
      var p := sectionPanels[i];
      LastAtStep(sectionPanels, i);
      if p.rowNumber.GetOr(0) != 0 && p.columnNumber.GetOr(0) != 0 {
        var row, col := RowOrZero(p) - 1, ColumnOrZero(p) - 1;
        assert 0 <= row < maxRow && 0 <= col < maxCol by {
          assert Rows(sectionPanels)[i] == RowOrZero(p) && Columns(sectionPanels)[i] == ColumnOrZero(p);
        }
        label Before:
        grid[row, col] := Some(p);
        forall r, c | 0 <= r < maxRow && 0 <= c < maxCol
          ensures grid[r, c] == LastAt(sectionPanels[..i + 1], r + 1, c + 1)
        {
          if r == row && c == col {
            assert PlacedAt(p, r + 1, c + 1);
          } else {
            assert !PlacedAt(p, r + 1, c + 1);
            assert grid[r, c] == old@Before(grid[r, c]) == LastAt(sectionPanels[..i], r + 1, c + 1);
          }
        }
      } else {
        forall r, c | 0 <= r < maxRow && 0 <= c < maxCol
          ensures grid[r, c] == LastAt(sectionPanels[..i + 1], r + 1, c + 1)
        {
          assert !PlacedAt(p, r + 1, c + 1);
        }
      }
      i := i + 1;
    }
    assert sectionPanels[..i] == sectionPanels;
  }

  /** A cell's colour: green for a scanned panel, yellow for a pending one, grey when empty. */
  datatype CellState = ScannedCell | PendingCell | EmptyCell

  function CellColor(cell: Option<Panel>): (c: CellState)
    ensures c == ScannedCell <==> cell.Some? && IsScanned(cell.value)
    ensures c == PendingCell <==> cell.Some? && !IsScanned(cell.value)
    ensures c == EmptyCell <==> cell.None?
  {
    match cell
    case None => EmptyCell
    case Some(p) => if p.scannedAt.Some? then ScannedCell else PendingCell
  }

  /** The header of one section card. */
  datatype SectionCard = SectionCard(name: string, scanned: nat, total: nat, maxRow: int, maxCol: int)

  /** The layout: the "No sections" state, or one card per section in order. */
  datatype Layout = NoSections | Sections(cards: seq<SectionCard>)

  function Card(name: string, sectionPanels: seq<Panel>): (card: SectionCard)
    requires sectionPanels != []
    ensures card.scanned <= card.total == |sectionPanels|
  {
    SectionCard(name, Count(sectionPanels, IsScanned), |sectionPanels|,
                MaxOf(Rows(sectionPanels)), MaxOf(Columns(sectionPanels)))
  }

  /**
   * The cards show each section that some panel carries, once, in ascending plain string
   * order, each with the counts and dimensions of that section's panels.
   */
  ghost predicate DescribesSections(panels: seq<Panel>, cards: seq<SectionCard>) {
    (forall i, j :: 0 <= i < j < |cards| ==> LexLess(cards[i].name, cards[j].name))
    && (forall k :: k in SectionNames(cards) <==> exists i :: 0 <= i < |panels| && InSection(k, panels[i]))
    && forall m :: 0 <= m < |cards| ==>
      PanelsIn(panels, cards[m].name) != [] && cards[m] == Card(cards[m].name, PanelsIn(panels, cards[m].name))
  }

  /** The whole component's content for a list of panels. */
  method RenderLayout(panels: seq<Panel>) returns (layout: Layout)
    ensures layout == NoSections <==> forall i :: 0 <= i < |panels| ==> !Sectioned(panels[i])
    ensures layout.Sections? ==> DescribesSections(panels, layout.cards)
  {
    var groups, keys := GroupBySection(panels);
    var sections := SectionOrder(keys);
    if |sections| == 0 {
      assert |multiset(keys)| == 0;
      assert keys == [];
      GroupsCover(panels, groups);
      return NoSections;
    }
    SameElements(keys, sections);
    GroupsNonEmpty(panels, groups);
    var cards := BuildCards(groups, sections);
    layout := Sections(cards);
    SomeSectioned(panels, groups, sections);
    CardNames(groups, sections, cards);
    CardsMatch(panels, groups, sections, cards);
    DescribesFromParts(panels, sections, cards);
  }

  lemma SameElements(keys: seq<string>, sections: seq<string>)
    requires multiset(sections) == multiset(keys)
    ensures forall k :: k in sections <==> k in keys
  {
    forall k ensures k in sections <==> k in keys {
      assert k in sections <==> k in multiset(sections);
      assert k in keys <==> k in multiset(keys);
    }
  }

  lemma DescribesFromParts(panels: seq<Panel>, sections: seq<string>, cards: seq<SectionCard>)
    requires SectionNames(cards) == sections
    requires forall i, j :: 0 <= i < j < |sections| ==> LexLess(sections[i], sections[j])
    requires forall k :: k in sections <==> exists i :: 0 <= i < |panels| && InSection(k, panels[i])
    requires forall m :: 0 <= m < |cards| ==>
      PanelsIn(panels, cards[m].name) != [] && cards[m] == Card(cards[m].name, PanelsIn(panels, cards[m].name))
    ensures DescribesSections(panels, cards)
  {
    forall i, j | 0 <= i < j < |cards| ensures LexLess(cards[i].name, cards[j].name) {
      assert cards[i].name == sections[i] && cards[j].name == sections[j];
    }
  }

  lemma CardNames(groups: map<string, seq<Panel>>, sections: seq<string>, cards: seq<SectionCard>)
    requires forall k :: k in groups ==> groups[k] != []
    requires |cards| == |sections|
    requires forall m :: 0 <= m < |sections| ==> sections[m] in groups
    requires forall m :: 0 <= m < |sections| ==> cards[m] == Card(sections[m], groups[sections[m]])
    ensures SectionNames(cards) == sections
  {
  }

  lemma SomeSectioned(panels: seq<Panel>, groups: map<string, seq<Panel>>, sections: seq<string>)
    requires forall k :: k in groups <==> exists i :: 0 <= i < |panels| && InSection(k, panels[i])
    requires forall k :: k in sections <==> k in groups
    requires |sections| > 0
    ensures exists i :: 0 <= i < |panels| && Sectioned(panels[i])
  {
    assert sections[0] in groups;
    var i :| 0 <= i < |panels| && InSection(sections[0], panels[i]);
    assert Sectioned(panels[i]);
  }

  lemma CardsMatch(panels: seq<Panel>, groups: map<string, seq<Panel>>, sections: seq<string>, cards: seq<SectionCard>)
    requires forall k :: k in groups ==> groups[k] == PanelsIn(panels, k) && groups[k] != []
    requires forall k :: k in sections <==> k in groups
    requires |cards| == |sections|
    requires forall m :: 0 <= m < |sections| ==> cards[m] == Card(sections[m], groups[sections[m]])
    ensures forall m :: 0 <= m < |cards| ==>
      PanelsIn(panels, cards[m].name) != [] && cards[m] == Card(cards[m].name, PanelsIn(panels, cards[m].name))
  {
    forall m | 0 <= m < |cards|
      ensures PanelsIn(panels, cards[m].name) != [] && cards[m] == Card(cards[m].name, PanelsIn(panels, cards[m].name))
    {
      assert sections[m] in groups;
      assert cards[m].name == sections[m];
    }
  }

  /** `sections.map(...)`: one card per section name. */
  method BuildCards(groups: map<string, seq<Panel>>, sections: seq<string>)
    returns (cards: seq<SectionCard>)
    requires forall k :: k in groups ==> groups[k] != []
    requires forall m :: 0 <= m < |sections| ==> sections[m] in groups
    ensures |cards| == |sections|
    ensures forall m :: 0 <= m < |sections| ==> cards[m] == Card(sections[m], groups[sections[m]])
  {
    cards := [];
    var n := 0;
    while n < |sections|
      invariant 0 <= n <= |sections|
      invariant |cards| == n
      invariant forall m :: 0 <= m < n ==> cards[m] == Card(sections[m], groups[sections[m]])
    {
      var name := sections[n];
      cards := cards + [Card(name, groups[name])];
      n := n + 1;
    }
  }

  lemma GroupsNonEmpty(panels: seq<Panel>, groups: map<string, seq<Panel>>)
    requires forall k :: k in groups <==> exists i :: 0 <= i < |panels| && InSection(k, panels[i])
    requires forall k :: k in groups ==> groups[k] == PanelsIn(panels, k)
    ensures forall k :: k in groups ==> groups[k] != []
  {
  }

  /** Every sectioned panel has its group. */
  lemma GroupsCover(panels: seq<Panel>, groups: map<string, seq<Panel>>)
    requires forall k :: k in groups <==> exists i :: 0 <= i < |panels| && InSection(k, panels[i])
    ensures forall i :: 0 <= i < |panels| && Sectioned(panels[i]) ==> panels[i].section.value in groups
  {
    forall i | 0 <= i < |panels| && Sectioned(panels[i]) ensures panels[i].section.value in groups {
      assert InSection(panels[i].section.value, panels[i]);
    }
  }

  function SectionNames(cards: seq<SectionCard>): (names: seq<string>)
    ensures |names| == |cards| && forall i :: 0 <= i < |cards| ==> names[i] == cards[i].name
  {
    seq(|cards|, i requires 0 <= i < |cards| => cards[i].name)
  }

  /** Section order is plain string order, so "A10" is listed before "A2". */
  lemma SectionOrderIsNotNatural()
    ensures SectionOrder(["A2", "A10"]) == ["A10", "A2"]
  {
    assert LexLess("A10", "A2");
  }
}
