/** The scrolling menu: redrawing two items against redrawing everything. */
module Menu {
  import opened Bits
  import Lines

  /** One character cell of the screen. */
  datatype Cell = Empty | Glyph(ch: int, highlighted: bool)

  /** Display and fixed font, in pixels and in pages of eight rows. */
  datatype Geometry = Geometry(width: nat, height: nat, fontWidth: nat, fontPages: nat)
  {
    /** There is room for a character to the right of the margin, and for an item. */
    predicate Valid() {
      && width <= 128 && height <= 64 && height % 8 == 0 && 0 < fontWidth && 0 < fontPages
      && 8 + fontWidth <= width && 16 + fontPages * 8 <= height
    }

    /** `getMaxScreenItems`. */
    function Visible(): int
      requires fontPages > 0
    {
      (height - 16) / (fontPages * 8)
    }

    /** Characters to a line of text, printed from column 8. */
    function PerLine(): int
      requires fontWidth > 0
    {
      (width - 8) / fontWidth
    }

    /** Lines of text from page 1 down to the bottom, the last one possibly cut off. */
    function TextLines(): int
      requires fontPages > 0
    {
      (height / 8 - 1 + fontPages - 1) / fontPages
    }
  }

  /** As many items and characters as there is room for below the title lines and right of the margin, and lines until
      the page rows below the first are used up. */
  lemma GeometryFits(g: Geometry, n: int)
    requires g.fontWidth > 0 && g.fontPages > 0
    ensures n <= g.Visible() <==> 16 + n * (g.fontPages * 8) <= g.height
    ensures n <= g.PerLine() <==> 8 + n * g.fontWidth <= g.width
    ensures g.TextLines() <= n <==> g.height / 8 - 1 <= n * g.fontPages
  {
    AtMostQuotient(g.height - 16, g.fontPages * 8, n);
    AtMostQuotient(g.width - 8, g.fontWidth, n);
    AtMostQuotient(g.height / 8 - 1 + g.fontPages - 1, g.fontPages, n + 1);
    Lines.OneMore(n, g.fontPages);
  }

  lemma AtMostQuotient(a: int, d: int, n: int)
    requires 0 < d
    ensures n <= a / d <==> n * d <= a
  {
    assert a == d * (a / d) + a % d;
    if n <= a / d {
      MulLe(n, a / d, d);
    } else {
      MulLe(a / d + 1, n, d);
    }
  }

  /** What does not change: the geometry and the labels. */
  datatype Items = Items(g: Geometry, labels: seq<seq<int>>)
  {
    /** Printing an empty label in a font of several pages reads past its end. */
    predicate Valid() {
      && g.Valid() && 0 < |labels| < 0x100
      && forall i | 0 <= i < |labels| :: |labels[i]| < 0xFF && (|labels[i]| > 0 || g.fontPages == 1)
    }

    function Count(): nat {
      |labels|
    }
  }

  lemma MoreLinesThanItems(g: Geometry)
    requires g.Valid()
    ensures 1 <= g.Visible() < g.TextLines() && 1 <= g.PerLine()
  {
    var p, d := g.fontPages, g.height / 8;
    assert g.height == 8 * d;
    Lines.Quotient(g.height - 16, p * 8);
    Lines.Quotient(d - 1 + p - 1, p);
    Lines.Quotient(g.width - 8, g.fontWidth);
    hide *;
    FewerItems(d, p, (g.height - 16) / (p * 8), (d - 1 + p - 1) / p);
  }

  lemma FewerItems(d: int, p: int, v: int, n: int)
    requires 0 < p && v * (p * 8) <= 8 * d - 16 && d - 1 + p - 1 < n * p + p
    ensures v < n
  {
    assert v * (p * 8) == 8 * (v * p);
    if n <= v {
      MulLe(n, v, p);
    }
  }

  /** The menu, and the cells of the lines it is printed on, line after line. */
  datatype State = State(items: Items, selection: int, oldSelection: int, scroll: int, cells: seq<Cell>)
  {
    /** The item drawn last is in the window, and the window does not reach past the list unless the list fits. */
    predicate Valid() {
      && items.Valid() && 0 <= selection < items.Count() && 0 <= oldSelection < items.Count()
      && |cells| == items.g.TextLines() * items.g.PerLine()
      && InWindow(oldSelection) && 0 <= scroll && (scroll == 0 || scroll <= items.Count() - items.g.Visible())
    }

    predicate InWindow(item: int)
      requires items.Valid()
    {
      scroll <= item < scroll + items.g.Visible()
    }

    /** Past the last item drawn from the top of the window. */
    function End(): int
      requires items.Valid()
    {
      Min(items.Count(), scroll + items.g.Visible())
    }
  }

  /** The first cell of an item when the window begins at item `scroll`. */
  function FirstCell(items: Items, scroll: int, item: int): int
    requires items.Valid()
  {
    (item - scroll) * items.g.PerLine()
  }

  /** The label of the item, wrapped at the right edge, is printed on the cell. */
  predicate Covers(items: Items, scroll: int, item: int, q: int)
    requires items.Valid() && 0 <= item < items.Count()
  {
    0 <= q - FirstCell(items, scroll, item) < |items.labels[item]|
  }

  /** What it prints there. */
  function Ink(items: Items, scroll: int, item: int, q: int, selected: int): Cell
    requires items.Valid() && 0 <= item < items.Count() && Covers(items, scroll, item, q)
  {
    Glyph(items.labels[item][q - FirstCell(items, scroll, item)], item == selected)
  }

  function Min(a: int, b: int): int {
    if a < b then a else b
  }

  /** `calculateScrollPosition`. */
  function ScrollFor(scroll: int, visible: int, selection: int): int {
    if selection < scroll then selection
    else if selection - scroll > visible - 1 then selection - visible + 1
    else scroll
  }

  /** The window scrolls to the selection exactly when there is a line to show it on. */
  lemma ScrollShowsSelection(scroll: int, visible: nat, selection: int)
    requires 0 <= scroll && 0 <= selection
    ensures
      var to := ScrollFor(scroll, visible, selection);
      to <= selection < to + visible <==> visible >= 1
  {
  }

  /** The window moves least: no other window that shows the selection is nearer. */
  lemma ScrollMovesLeast(scroll: int, visible: nat, selection: int, t: int)
    requires t <= selection < t + visible
    ensures
      var to := ScrollFor(scroll, visible, selection);
      && to <= selection < to + visible
      && (if to < scroll then scroll - to else to - scroll) <= (if t < scroll then scroll - t else t - scroll)
  {
  }

  /** Text printed from cell `at` goes on in the next line at the right edge, stops at the bottom of the screen, and
      leaves all other cells as they were. */
  function Printed(cells: seq<Cell>, at: int, text: seq<int>, highlighted: bool): (after: seq<Cell>)
    ensures |after| == |cells|
  {
    seq(|cells|, q requires 0 <= q < |cells| =>
      if 0 <= q - at < |text| then Glyph(text[q - at], highlighted) else cells[q])
  }

  function DrawItem(s: State, item: int): State
    requires s.items.Valid() && 0 <= item < s.items.Count()
  {
    s.(cells := Printed(s.cells, FirstCell(s.items, s.scroll, item), s.items.labels[item], item == s.selection))
  }

  /** Items from `first` up to `end` printed one after the other. */
  function DrawItems(s: State, first: int, end: int): State
    requires s.items.Valid() && 0 <= first && end <= s.items.Count()
    decreases end - first
  {
    if first >= end then s else DrawItems(DrawItem(s, first), first + 1, end)
  }

  function Cleared(s: State): State {
    s.(cells := seq(|s.cells|, _ => Empty))
  }

  function Show(s: State): State
    requires s.items.Valid() && 0 <= s.selection && 0 <= s.scroll
  {
    var moved := s.(scroll := ScrollFor(s.scroll, s.items.g.Visible(), s.selection));
    assert 0 <= moved.scroll by { MoreLinesThanItems(s.items.g); }
    DrawItems(moved, moved.scroll, moved.End()).(oldSelection := s.selection)
  }

  datatype Event = Up | Down | Update

  /** What one call does. */
  function Step(s: State, e: Event): State
    requires s.Valid()
  {
    match e
    case Down => s.(selection := if s.selection < s.items.Count() - 1 then s.selection + 1 else 0)
    case Up => s.(selection := if s.selection > 0 then s.selection - 1 else s.items.Count() - 1)
    case Update =>
      if s.selection == s.oldSelection then s
      else if ScrollFor(s.scroll, s.items.g.Visible(), s.selection) != s.scroll then Show(Cleared(s))
      else DrawItem(DrawItem(s, s.oldSelection), s.selection).(oldSelection := s.selection)
  }

  /** The menu object and its screen. */
  class AppMenu {
    const items: Items
    var selection: int
    var oldSelection: int
    var scroll: int
    var cells: seq<Cell>

    /** `ssd1306_createMenu`, on a blank screen. */
    constructor (items: Items)
      requires items.Valid()
      ensures Abs() == Created(items)
      ensures selection == 0 && oldSelection == 0 && scroll == 0 && forall q | 0 <= q < |cells| :: cells[q] == Empty
    {
      this.items, selection, oldSelection, scroll := items, 0, 0, 0;
      MoreLinesThanItems(items.g);
      MulLe(0, items.g.TextLines(), items.g.PerLine());
      cells := seq(items.g.TextLines() * items.g.PerLine(), _ => Empty);
    }

    ghost function Abs(): State
      reads this
    {
      State(items, selection, oldSelection, scroll, cells)
    }

    /** `calculateScrollPosition`, with the width of the screen in items from `getMaxScreenItems`. */
    method CalculateScrollPosition(selection: int) returns (to: int)
      requires items.Valid()
      ensures to == ScrollFor(scroll, items.g.Visible(), selection)
    {
      if selection < scroll {
        return selection;
      } else if selection - scroll > items.g.Visible() - 1 {
        return selection - items.g.Visible() + 1;
      }
      return scroll;
    }

    /** `drawMenuItem`: the label printed on the item's line, highlighted when it is selected. */
    method DrawMenuItem(index: int)
      requires items.Valid() && 0 <= index < items.Count()
      modifies this`cells
      ensures Abs() == DrawItem(old(Abs()), index)
    {
      var highlighted := index == selection;
      cells := Printed(cells, (index - scroll) * items.g.PerLine(), items.labels[index], highlighted);
    }

    /** `ssd1306_showMenu`. */
    method ShowMenu()
      requires items.Valid() && 0 <= selection && 0 <= scroll
      modifies this
      ensures Abs() == Show(old(Abs()))
    {
      MoreLinesThanItems(items.g);
      scroll := CalculateScrollPosition(selection);
      var i, end := scroll, Min(items.Count(), scroll + items.g.Visible());
      ghost var moved := Abs();
      hide DrawItem;
      while i < end
        invariant 0 <= scroll == moved.scroll <= i
        invariant selection == moved.selection && oldSelection == moved.oldSelection
        invariant DrawItems(Abs(), i, end) == DrawItems(moved, scroll, end)
      {
        DrawMenuItem(i);
        i := i + 1;
      }
      oldSelection := selection;
    }

    /** `ssd1306_updateMenu`. */
    method UpdateMenu()
      requires Abs().Valid()
      modifies this
      ensures Abs() == Step(old(Abs()), Update)
    {
      hide Show, DrawItem, DrawItems;
      if selection != oldSelection {
        var to := CalculateScrollPosition(selection);
        if to != scroll {
          cells := seq(|cells|, _ => Empty);
          assert Abs() == Cleared(old(Abs()));
          ShowMenu();
        } else {
          DrawMenuItem(oldSelection);
          DrawMenuItem(selection);
          oldSelection := selection;
        }
      }
    }

    /** `ssd1306_menuDown`. */
    method MenuDown()
      requires Abs().Valid()
      modifies this`selection
      ensures Abs() == Step(old(Abs()), Down)
    {
      if selection < items.Count() - 1 {
        selection := selection + 1;
      } else {
        selection := 0;
      }
    }

    /** `ssd1306_menuUp`. */
    method MenuUp()
      requires Abs().Valid()
      modifies this`selection
      ensures Abs() == Step(old(Abs()), Up)
    {
      if selection > 0 {
        selection := selection - 1;
      } else {
        selection := items.Count() - 1;
      }
    }
  }

  // Runs keep the window right, whatever the labels

  /** A new menu on a blank screen. */
  function Created(items: Items): State
    requires items.Valid()
  {
    MoreLinesThanItems(items.g);
    MulLe(0, items.g.TextLines(), items.g.PerLine());
    State(items, 0, 0, 0, seq(items.g.TextLines() * items.g.PerLine(), _ => Empty))
  }

  lemma {:induction false} ItemsKeepState(s: State, first: int, end: int)
    requires s.items.Valid() && 0 <= first && end <= s.items.Count()
    ensures
      var after := DrawItems(s, first, end);
      after == s.(cells := after.cells) && |after.cells| == |s.cells|
    decreases end - first
  {
    if first < end {
      ItemsKeepState(DrawItem(s, first), first + 1, end);
    }
  }

  lemma ShowIsValid(s: State)
    requires s.Valid()
    ensures Show(s).Valid() && Show(s).items == s.items && Show(s).selection == s.selection == Show(s).oldSelection
    ensures Show(s).scroll == ScrollFor(s.scroll, s.items.g.Visible(), s.selection)
  {
    MoreLinesThanItems(s.items.g);
    var moved := s.(scroll := ScrollFor(s.scroll, s.items.g.Visible(), s.selection));
    ItemsKeepState(moved, moved.scroll, moved.End());
    hide DrawItems;
  }

  /** Every call keeps the item drawn last in the window and the window inside the list; an update draws the
      selection last. */
  lemma StepIsValid(s: State, e: Event)
    requires s.Valid()
    ensures Step(s, e).Valid() && Step(s, e).items == s.items
    ensures e.Update? ==> Step(s, e).oldSelection == Step(s, e).selection == s.selection
    ensures e.Update? ==> Step(s, e).scroll == ScrollFor(s.scroll, s.items.g.Visible(), s.selection)
  {
    MoreLinesThanItems(s.items.g);
    ShowIsValid(Cleared(s));
    hide Show;
  }

  function Run(s: State, events: seq<Event>): (r: State)
    requires s.Valid()
    ensures r.Valid() && r.items == s.items
    decreases |events|
  {
    if events == [] then s
    else
      StepIsValid(s, events[0]);
      Run(Step(s, events[0]), events[1..])
  }

  lemma {:induction false} RunConcat(s: State, a: seq<Event>, b: seq<Event>)
    requires s.Valid()
    ensures Run(s, a + b) == Run(Run(s, a), b)
    decreases |a|
  {
    if a == [] {
      assert a + b == b;
    } else {
      assert (a + b)[0] == a[0] && (a + b)[1..] == a[1..] + b;
      StepIsValid(s, a[0]);
      RunConcat(Step(s, a[0]), a[1..], b);
    }
  }

  // When two items share a cell

  /** No two items that can be in the window together are printed on a common cell. */
  predicate Apart(items: Items)
    requires items.Valid()
  {
    forall i, k | 0 <= i < k < items.Count() && k - i < items.g.Visible() ::
      |items.labels[k]| == 0 || |items.labels[i]| <= (k - i) * items.g.PerLine()
  }

  lemma Offsets(s: State, i: int, k: int)
    requires s.items.Valid()
    ensures FirstCell(s.items, s.scroll, k) - FirstCell(s.items, s.scroll, i) == (k - i) * s.items.g.PerLine()
  {
  }

  lemma NotBoth(s: State, i: int, k: int, q: int)
    requires s.items.Valid() && Apart(s.items) && 0 <= i < k < s.items.Count() && s.InWindow(i) && s.InWindow(k)
    ensures !(Covers(s.items, s.scroll, i, q) && Covers(s.items, s.scroll, k, q))
  {
    Offsets(s, i, k);
    assert |s.items.labels[k]| == 0 || |s.items.labels[i]| <= (k - i) * s.items.g.PerLine();
  }

  lemma OneCoverer(s: State, i: int, k: int, q: int)
    requires s.items.Valid() && Apart(s.items) && 0 <= i < s.items.Count() && 0 <= k < s.items.Count()
    requires s.InWindow(i) && s.InWindow(k) && Covers(s.items, s.scroll, i, q) && Covers(s.items, s.scroll, k, q)
    ensures i == k
  {
    if i < k {
      NotBoth(s, i, k, q);
    } else if k < i {
      NotBoth(s, k, i, q);
    }
  }

  /** The items of the window show on their cells, `selected` highlighted, and all other cells are empty. */
  ghost predicate Pictured(s: State, cells: seq<Cell>, selected: int)
    requires s.items.Valid()
  {
    && (forall i, q | 0 <= s.scroll <= i < s.End() && 0 <= q < |cells| && Covers(s.items, s.scroll, i, q) ::
          cells[q] == Ink(s.items, s.scroll, i, q, selected))
    && forall q | 0 <= q < |cells| ::
         (exists i :: 0 <= s.scroll <= i < s.End() && Covers(s.items, s.scroll, i, q)) || cells[q] == Empty
  }

  lemma PictureIsUnique(s: State, c: seq<Cell>, d: seq<Cell>, selected: int)
    requires s.items.Valid() && |c| == |d| && Pictured(s, c, selected) && Pictured(s, d, selected)
    ensures c == d
  {
    EndInList(s);
    hide Covers, Ink, State.End;
    forall q | 0 <= q < |c|
      ensures c[q] == d[q]
    {
      if i :| 0 <= s.scroll <= i < s.End() && Covers(s.items, s.scroll, i, q) {
        assert c[q] == Ink(s.items, s.scroll, i, q, selected);
      }
    }
  }

  lemma EndInList(s: State)
    requires s.items.Valid()
    ensures s.End() <= s.items.Count() && s.End() <= s.scroll + s.items.g.Visible()
  {
  }

  /** What printing an item does to a cell. */
  lemma ItemDrawn(s: State, item: int, q: int)
    requires s.items.Valid() && 0 <= item < s.items.Count() && 0 <= q < |s.cells|
    ensures DrawItem(s, item).cells[q] == if Covers(s.items, s.scroll, item, q)
                                          then Ink(s.items, s.scroll, item, q, s.selection) else s.cells[q]
  {
  }

  /** Items apart from each other are drawn in any order: each ends on its cells, and no other cell changes. */
  lemma {:induction false} ItemsDrawn(s: State, first: int, end: int)
    requires s.items.Valid() && Apart(s.items) && 0 <= s.scroll <= first <= end <= s.End()
    ensures
      var after := DrawItems(s, first, end).cells;
      && |after| == |s.cells|
      && (forall i, q | first <= i < end && 0 <= q < |after| && Covers(s.items, s.scroll, i, q) ::
            after[q] == Ink(s.items, s.scroll, i, q, s.selection))
      && forall q | 0 <= q < |after| :: (exists i :: first <= i < end && Covers(s.items, s.scroll, i, q)) || after[q] == s.cells[q]
    decreases end - first
  {
    if first < end {
      var next := DrawItem(s, first);
      ItemsDrawn(next, first + 1, end);
      var after := DrawItems(s, first, end).cells;
      assert after == DrawItems(next, first + 1, end).cells && |next.cells| == |s.cells|;
      EndInList(s);
      hide Covers, Ink, DrawItem, DrawItems, State.End, Apart;
      forall i, q | first <= i < end && 0 <= q < |after| && Covers(s.items, s.scroll, i, q)
        ensures after[q] == Ink(s.items, s.scroll, i, q, s.selection)
      {
        if i == first {
          ItemDrawn(s, first, q);
          if k :| first + 1 <= k < end && Covers(s.items, s.scroll, k, q) {
            OneCoverer(s, first, k, q);
          }
        }
      }
      forall q | 0 <= q < |after| && after[q] != s.cells[q]
        ensures exists i :: first <= i < end && Covers(s.items, s.scroll, i, q)
      {
        ItemDrawn(s, first, q);
      }
    }
  }

  /** The screen shows the menu as it was last drawn. */
  ghost predicate InStep(s: State) {
    s.Valid() && Apart(s.items) && Pictured(s, s.cells, s.oldSelection)
  }

  lemma ShownInStep(s: State)
    requires s.Valid() && Apart(s.items) && forall q | 0 <= q < |s.cells| :: s.cells[q] == Empty
    ensures InStep(Show(s))
  {
    ShowIsValid(s);
    MoreLinesThanItems(s.items.g);
    var moved := s.(scroll := ScrollFor(s.scroll, s.items.g.Visible(), s.selection));
    ItemsDrawn(moved, moved.scroll, moved.End());
    hide DrawItems, Covers, Ink;
  }

  /** The cell of character `k` of an item, `n` characters to a line. */
  function Place(scroll: int, n: int, item: int, k: int): int {
    (item - scroll) * n + k
  }

  /** Character `k` of each item of the window stands `k` cells after the beginning of the item's line, highlighted
      when the item is selected, and nothing else is on the screen. */
  ghost predicate ShowsItems(items: Items, cells: seq<Cell>, scroll: int, selected: int)
    requires items.g.Valid()
  {
    var n, end := items.g.PerLine(), scroll + items.g.Visible();
    && (forall i, k | scroll <= i < end && 0 <= i < |items.labels| && 0 <= k < |items.labels[i]| ::
          Place(scroll, n, i, k) < |cells| ==>
            0 <= Place(scroll, n, i, k) && cells[Place(scroll, n, i, k)] == Glyph(items.labels[i][k], i == selected))
    && forall q | 0 <= q < |cells| && cells[q] != Empty ::
         exists i, k ::
           scroll <= i < end && 0 <= i < |items.labels| && 0 <= k < |items.labels[i]| && Place(scroll, n, i, k) == q
  }

  lemma ItemShown(u: State, selected: int, i: int, k: int)
    requires u.items.Valid() && 0 <= u.scroll && u.items.g.PerLine() >= 1 && Pictured(u, u.cells, selected)
    requires u.InWindow(i) && 0 <= i < u.items.Count() && 0 <= k < |u.items.labels[i]|
    ensures
      var q := Place(u.scroll, u.items.g.PerLine(), i, k);
      q < |u.cells| ==> 0 <= q && u.cells[q] == Glyph(u.items.labels[i][k], i == selected)
  {
    MulLe(0, i - u.scroll, u.items.g.PerLine());
    var q := Place(u.scroll, u.items.g.PerLine(), i, k);
    assert Covers(u.items, u.scroll, i, q);
    hide Covers;
  }

  lemma OnlyItemsShown(u: State, selected: int, q: int) returns (i: int, k: int)
    requires u.items.Valid() && 0 <= u.scroll && Pictured(u, u.cells, selected)
    requires 0 <= q < |u.cells| && u.cells[q] != Empty
    ensures u.InWindow(i) && 0 <= i < u.items.Count() && 0 <= k < |u.items.labels[i]|
    ensures u.items.g.fontWidth > 0 && Place(u.scroll, u.items.g.PerLine(), i, k) == q
  {
    EndInList(u);
    hide Geometry.PerLine, Geometry.Visible, State.End, Ink;
    i :| 0 <= u.scroll <= i < u.End() && Covers(u.items, u.scroll, i, q);
    k := q - FirstCell(u.items, u.scroll, i);
  }

  lemma ItemsShown(u: State, selected: int)
    requires u.items.Valid() && 0 <= u.scroll && u.items.g.PerLine() >= 1 && Pictured(u, u.cells, selected)
    ensures ShowsItems(u.items, u.cells, u.scroll, selected)
  {
    var labels, n, end := u.items.labels, u.items.g.PerLine(), u.scroll + u.items.g.Visible();
    hide Geometry.PerLine, Geometry.Visible, Pictured, Place;
    forall i, k | && u.scroll <= i < end && 0 <= i < |labels| && 0 <= k < |labels[i]|
                  && Place(u.scroll, n, i, k) < |u.cells|
      ensures 0 <= Place(u.scroll, n, i, k)
      ensures u.cells[Place(u.scroll, n, i, k)] == Glyph(labels[i][k], i == selected)
    {
      ItemShown(u, selected, i, k);
    }
    forall q | 0 <= q < |u.cells| && u.cells[q] != Empty
      ensures exists i, k ::
        u.scroll <= i < end && 0 <= i < |labels| && 0 <= k < |labels[i]| && Place(u.scroll, n, i, k) == q
    {
      var i, k := OnlyItemsShown(u, selected, q);
    }
  }

  /** A menu shown on a blank screen shows its items, the selected one highlighted. */
  lemma ShownCells(s: State)
    requires s.Valid() && Apart(s.items) && forall c | 0 <= c < |s.cells| :: s.cells[c] == Empty
    ensures ShowsItems(s.items, Show(s).cells, Show(s).scroll, s.selection)
    ensures |Show(s).cells| == s.items.g.TextLines() * s.items.g.PerLine()
  {
    MoreLinesThanItems(s.items.g);
    ShowIsValid(s);
    ShownInStep(s);
    hide Show, Pictured, ShowsItems, Apart;
    ItemsShown(Show(s), s.selection);
  }

  /** Redrawing the item drawn last and the new selection gives the picture of the new selection. */
  lemma TwoItemsPictured(s: State)
    requires InStep(s) && s.InWindow(s.selection) && s.selection != s.oldSelection
    ensures Pictured(s, DrawItem(DrawItem(s, s.oldSelection), s.selection).cells, s.selection)
  {
    var o, n := s.oldSelection, s.selection;
    var mid := DrawItem(s, o);
    var after := DrawItem(mid, n).cells;
    forall i, q | 0 <= s.scroll <= i < s.End() && 0 <= q < |after| && Covers(s.items, s.scroll, i, q)
      ensures after[q] == Ink(s.items, s.scroll, i, q, n)
    {
      if Covers(s.items, s.scroll, n, q) {
        OneCoverer(s, i, n, q);
      } else if Covers(s.items, s.scroll, o, q) {
        OneCoverer(s, i, o, q);
      }
    }
    forall q | 0 <= q < |after| && after[q] != Empty
      ensures exists i :: 0 <= s.scroll <= i < s.End() && Covers(s.items, s.scroll, i, q)
    {
      if Covers(s.items, s.scroll, n, q) {
      } else if Covers(s.items, s.scroll, o, q) {
      } else {
        assert after[q] == s.cells[q];
      }
    }
  }

  lemma StepKeepsInStep(s: State, e: Event)
    requires InStep(s)
    ensures InStep(Step(s, e))
  {
    StepIsValid(s, e);
    MoreLinesThanItems(s.items.g);
    var after := Step(s, e);
    if e.Update? && s.selection != s.oldSelection {
      if ScrollFor(s.scroll, s.items.g.Visible(), s.selection) != s.scroll {
        ShownInStep(Cleared(s));
      } else {
        TwoItemsPictured(s);
        SamePicture(s, after, after.cells, s.selection);
      }
    } else {
      SamePicture(s, after, s.cells, s.oldSelection);
    }
  }

  lemma SamePicture(s: State, t: State, cells: seq<Cell>, selected: int)
    requires s.items.Valid() && s.items == t.items && s.scroll == t.scroll && Pictured(s, cells, selected)
    ensures Pictured(t, cells, selected)
  {
    hide Covers, Ink;
  }

  lemma {:induction false} RunKeepsInStep(s: State, events: seq<Event>)
    requires InStep(s)
    ensures InStep(Run(s, events))
    decreases |events|
  {
    if events != [] {
      StepKeepsInStep(s, events[0]);
      hide InStep, Step;
      RunKeepsInStep(Step(s, events[0]), events[1..]);
    }
  }

  /** An update after some calls leaves what showing the whole menu on a blank screen would. */
  ghost predicate UpdateIsExact(s: State, events: seq<Event>)
    requires s.Valid()
  {
    ShowIsValid(s);
    StepIsValid(Run(Show(s), events), Update);
    var u := Step(Run(Show(s), events), Update);
    u.cells == Show(Cleared(u)).cells
  }

  /** Items apart from each other: from any blank screen, after each update of each run. */
  lemma ApartSuffices(s: State, events: seq<Event>)
    requires s.Valid() && Apart(s.items) && forall q | 0 <= q < |s.cells| :: s.cells[q] == Empty
    ensures UpdateIsExact(s, events)
  {
    ShowIsValid(s);
    ShownInStep(s);
    RunKeepsInStep(Show(s), events);
    var w := Run(Show(s), events);
    StepIsValid(w, Update);
    StepKeepsInStep(w, Update);
    var u := Step(w, Update);
    ShownInStep(Cleared(u));
    ShowIsValid(Cleared(u));
    var full := Show(Cleared(u));
    hide Show, Step, Run;
    SamePicture(full, u, full.cells, u.selection);
    PictureIsUnique(u, u.cells, full.cells, u.selection);
  }

  function Repeat(e: Event, n: nat): (events: seq<Event>)
    ensures |events| == n
  {
    seq(n, _ => e)
  }

  /** Moving down `n` times goes around the list. */
  lemma {:induction false} RunDown(s: State, n: nat)
    requires s.Valid()
    ensures Run(s, Repeat(Down, n)) == s.(selection := Around(s.selection + n, s.items.Count()))
    decreases n
  {
    AroundFacts(s.selection, n, s.items.Count());
    if n > 0 {
      assert Repeat(Down, n)[1..] == Repeat(Down, n - 1);
      StepIsValid(s, Down);
      hide Around, State.Valid;
      RunDown(Step(s, Down), n - 1);
    }
  }

  /** And moving up the other way. */
  lemma {:induction false} RunUp(s: State, n: nat)
    requires s.Valid()
    ensures Run(s, Repeat(Up, n)) == s.(selection := Around(s.selection - n, s.items.Count()))
    decreases n
  {
    AroundFacts(s.selection, n, s.items.Count());
    if n > 0 {
      assert Repeat(Up, n)[1..] == Repeat(Up, n - 1);
      StepIsValid(s, Up);
      hide Around, State.Valid;
      RunUp(Step(s, Up), n - 1);
    }
  }

  /** Position `v` of a ring of `n`. */
  function Around(v: int, n: nat): int
    requires 0 < n
  {
    v % n
  }

  lemma AroundFacts(v: int, k: int, n: nat)
    requires 0 <= v < n
    ensures Around(v, n) == v && Around(v + 0, n) == v && Around(v - 0, n) == v
    ensures v == n - 1 ==> Around(v + k, n) == Around(0 + (k - 1), n)
    ensures v == 0 ==> Around(v - k, n) == Around(n - 1 - (k - 1), n)
    ensures v < n - 1 ==> Around(v + k, n) == Around(v + 1 + (k - 1), n)
    ensures v > 0 ==> Around(v - k, n) == Around(v - 1 - (k - 1), n)
  {
    Lines.DivUnique(v, n, 0, v);
    FullTurn(k - 1, n);
    FullTurn(-k, n);
  }

  lemma AroundSelf(v: int, n: nat)
    requires 0 <= v < n
    ensures Around(v, n) == v
  {
    AroundFacts(v, 0, n);
  }

  lemma FullTurn(v: int, n: nat)
    requires 0 < n
    ensures (n + v) % n == v % n
  {
    Lines.OneMore(v / n, n);
    Lines.DivUnique(n + v, n, v / n + 1, v % n);
  }

  predicate Plain(cells: seq<Cell>, q: int) {
    0 <= q < |cells| && cells[q].Glyph? && !cells[q].highlighted
  }

  lemma {:induction false} StaysPlain(s: State, first: int, end: int, q: int)
    requires s.items.Valid() && 0 <= first && end <= s.items.Count() && s.selection < first && Plain(s.cells, q)
    ensures Plain(DrawItems(s, first, end).cells, q)
    decreases end - first
  {
    if first < end {
      StaysPlain(DrawItem(s, first), first + 1, end, q);
    }
  }

  /** In a full redraw a cell of an item below the selection is not highlighted. */
  lemma {:induction false} BelowIsPlain(s: State, first: int, end: int, k: int, q: int)
    requires s.items.Valid() && 0 <= first <= k < end <= s.items.Count() && s.selection < k
    requires 0 <= q < |s.cells| && Covers(s.items, s.scroll, k, q)
    ensures Plain(DrawItems(s, first, end).cells, q)
    decreases end - first
  {
    var next := DrawItem(s, first);
    if first == k {
      StaysPlain(next, first + 1, end, q);
    } else {
      assert Covers(next.items, next.scroll, k, q);
      BelowIsPlain(next, first + 1, end, k, q);
    }
  }

  /** Select the lower item and update, select the upper one and update. */
  function Detour(i: nat, k: nat): seq<Event>
    requires i <= k
  {
    Repeat(Down, k) + [Update] + Repeat(Up, k - i)
  }

  lemma DetourWindow(v: int, i: int, k: int)
    requires 1 <= v && 0 <= i < k && k - i < v
    ensures ScrollFor(ScrollFor(0, v, k), v, i) == ScrollFor(0, v, k) <= i < ScrollFor(0, v, k) + v
  {
  }

  lemma ShownFirst(items: Items)
    requires items.Valid()
    ensures
      var s := Created(items);
      && s.Valid() && Show(s).Valid() && Show(s).items == items
      && Show(s).selection == 0 && Show(s).oldSelection == 0 && Show(s).scroll == 0
  {
    MoreLinesThanItems(items.g);
    ShowIsValid(Created(items));
    hide Show;
  }

  lemma DownTo(w0: State, k: nat)
    requires w0.Valid() && w0.selection == 0 && k < w0.items.Count()
    ensures Run(w0, Repeat(Down, k)) == w0.(selection := k)
  {
    RunDown(w0, k);
    AroundSelf(k, w0.items.Count());
    hide Run, Repeat, State.Valid, Around;
  }

  /** Down to item `k`, and an update. */
  lemma WayDown(w0: State, k: nat)
    requires w0.Valid() && w0.selection == 0 && k < w0.items.Count()
    ensures
      var w2 := Run(w0, Repeat(Down, k) + [Update]);
      && w2.Valid() && w2.items == w0.items && w2.selection == k && w2.oldSelection == k
      && w2.scroll == ScrollFor(w0.scroll, w0.items.g.Visible(), k)
  {
    SelectValid(w0, k);
    hide Step, ScrollFor, Run, Repeat, Geometry.Visible, State.Valid, Items.Valid;
    DownTo(w0, k);
    RunConcat(w0, Repeat(Down, k), [Update]);
    var w1 := w0.(selection := k);
    StepIsValid(w1, Update);
    RunOne(w1, Update);
  }

  lemma DetourRun(items: Items, i: nat, k: nat)
    requires items.Valid() && i < k < items.Count() && k - i < items.g.Visible()
    ensures Created(items).Valid() && Show(Created(items)).Valid()
    ensures
      var w := Run(Show(Created(items)), Detour(i, k));
      && w.items == items && w.Valid() && w.selection == i && w.oldSelection == k && w.InWindow(i)
      && ScrollFor(w.scroll, items.g.Visible(), i) == w.scroll
  {
    ShownFirst(items);
    var w0 := Show(Created(items));
    SelectValid(w0, k);
    DetourWindow(items.g.Visible(), i, k);
    hide Show, Created, ScrollFor, Run, Repeat, Geometry.Visible, State.Valid, Items.Valid, Around;
    WayDown(w0, k);
    RunUp(Run(w0, Repeat(Down, k) + [Update]), k - i);
    AroundSelf(i, items.Count());
    RunConcat(w0, Repeat(Down, k) + [Update], Repeat(Up, k - i));
  }

  lemma SelectValid(s: State, k: int)
    requires s.Valid() && 0 <= k < s.items.Count()
    ensures s.(selection := k).Valid() && s.items.g.Visible() >= 1
  {
    MoreLinesThanItems(s.items.g);
  }

  lemma RunOne(s: State, e: Event)
    requires s.Valid()
    ensures Step(s, e).Valid() && Run(s, [e]) == Step(s, e)
  {
    StepIsValid(s, e);
    assert [e][1..] == [];
  }

  /** An item that is also printed on the line of a lower one: updating to it highlights that line too. */
  lemma OverlapFails(items: Items, i: nat, k: nat)
    requires items.Valid() && i < k < items.Count() && k - i < items.g.Visible()
    requires |items.labels[k]| > 0 && |items.labels[i]| > (k - i) * items.g.PerLine()
    ensures Created(items).Valid() && !UpdateIsExact(Created(items), Detour(i, k))
  {
    DetourRun(items, i, k);
    MoreLinesThanItems(items.g);
    var w := Run(Show(Created(items)), Detour(i, k));
    StepIsValid(w, Update);
    var u := Step(w, Update);
    var q := OverlapCell(w, i, k);
    hide Run, Show, DrawItems, Covers, Ink, DrawItem, FirstCell;
    FullIsPlain(u, k, q);
    assert u.cells == DrawItem(DrawItem(w, k), i).cells;
    ItemDrawn(DrawItem(w, k), i, q);
    InkIsHighlighted(w, i, q);
  }

  lemma InkIsHighlighted(s: State, item: int, q: int)
    requires s.items.Valid() && 0 <= item < s.items.Count() && Covers(s.items, s.scroll, item, q)
    ensures Ink(s.items, s.scroll, item, q, item) == Glyph(Ink(s.items, s.scroll, item, q, item).ch, true)
  {
  }

  lemma CellInside(a: int, lines: int, n: int)
    requires 0 <= a < lines && 0 < n
    ensures 0 <= a * n < lines * n
  {
    MulLe(0, a, n);
    MulLe(a + 1, lines, n);
    assert (a + 1) * n == a * n + n;
  }

  lemma CoversFirst(items: Items, scroll: int, i: int, k: int)
    requires items.Valid() && 0 <= i <= k < items.Count() && |items.labels[i]| > (k - i) * items.g.PerLine()
    requires items.g.PerLine() > 0
    ensures Covers(items, scroll, i, FirstCell(items, scroll, k))
  {
    var n := items.g.PerLine();
    MulLe(0, k - i, n);
    assert (k - scroll) * n == (i - scroll) * n + (k - i) * n;
  }

  /** The first cell of the lower item. */
  lemma OverlapCell(w: State, i: int, k: int) returns (q: int)
    requires w.Valid() && 0 <= i < k < w.items.Count() && w.InWindow(k)
    requires |w.items.labels[k]| > 0 && |w.items.labels[i]| > (k - i) * w.items.g.PerLine()
    ensures 0 <= q < |w.cells| && Covers(w.items, w.scroll, i, q) && Covers(w.items, w.scroll, k, q)
  {
    MoreLinesThanItems(w.items.g);
    hide Covers, Items.Valid, Geometry.Visible, Geometry.PerLine, Geometry.TextLines;
    q := FirstCell(w.items, w.scroll, k);
    CellInside(k - w.scroll, w.items.g.TextLines(), w.items.g.PerLine());
    assert (k - k) * w.items.g.PerLine() == 0;
    CoversFirst(w.items, w.scroll, k, k);
    CoversFirst(w.items, w.scroll, i, k);
  }

  lemma FullIsPlain(u: State, k: int, q: int)
    requires u.Valid() && u.InWindow(k) && u.selection < k < u.items.Count() && Covers(u.items, u.scroll, k, q) && 0 <= q < |u.cells|
    requires ScrollFor(u.scroll, u.items.g.Visible(), u.selection) == u.scroll
    ensures Plain(Show(Cleared(u)).cells, q)
  {
    var moved := Cleared(u);
    assert Covers(moved.items, moved.scroll, k, q);
    BelowIsPlain(moved, moved.scroll, moved.End(), k, q);
  }

  /** In every run of a new menu shown on a blank screen each update leaves exactly what showing the menu on a blank
      screen would, if and only if no two items that can be in the window together share a cell. */
  lemma UpdateIsFullRedraw(items: Items)
    requires items.Valid()
    ensures Created(items).Valid()
    ensures (forall events :: UpdateIsExact(Created(items), events)) <==> Apart(items)
  {
    MoreLinesThanItems(items.g);
    var s := Created(items);
    if Apart(items) {
      forall events
        ensures UpdateIsExact(s, events)
      {
        ApartSuffices(s, events);
      }
    } else {
      var i: nat, k: nat :| i < k < items.Count() && k - i < items.g.Visible() &&
        |items.labels[k]| > 0 && |items.labels[i]| > (k - i) * items.g.PerLine();
      OverlapFails(items, i, k);
    }
  }

  /** For labels that are not empty, on a screen of two items or more: all but the last must fit into one line. */
  lemma LabelsFitOneLine(items: Items)
    requires items.Valid() && items.g.Visible() >= 2 && forall i | 0 <= i < items.Count() :: |items.labels[i]| > 0
    ensures Apart(items) <==> forall i | 0 <= i < items.Count() - 1 :: |items.labels[i]| <= items.g.PerLine()
  {
    MoreLinesThanItems(items.g);
    var n := items.g.PerLine();
    if Apart(items) {
      forall i | 0 <= i < items.Count() - 1
        ensures |items.labels[i]| <= n
      {
        var k := i + 1;
        assert |items.labels[k]| == 0 || |items.labels[i]| <= (k - i) * n;
      }
    } else {
      var i: nat, k: nat :| i < k < items.Count() && k - i < items.g.Visible() &&
        |items.labels[k]| > 0 && |items.labels[i]| > (k - i) * n;
      MulLe(1, k - i, n);
    }
  }

  /** A label of 21 characters on a display 128 pixels wide, in a font 6 pixels wide: after down, update, up the next
      update leaves another screen than a full redraw. */
  lemma LongLabelFails(long: seq<int>)
    requires |long| == 21
    ensures
      var items := Items(Geometry(128, 64, 6, 1), [long, ['B' as int]]);
      && items.Valid() && Created(items).Valid() && !UpdateIsExact(Created(items), [Down, Update, Up])
  {
    var items := Items(Geometry(128, 64, 6, 1), [long, ['B' as int]]);
    OverlapFails(items, 0, 1);
    assert Detour(0, 1) == [Down, Update, Up];
  }
}
