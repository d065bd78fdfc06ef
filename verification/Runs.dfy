/**
 * Whole runs of the engine: scenes change, rectangles are marked, the view moves, sprites move, marked tiles are
 * redrawn. After every redraw the screen is the full picture of the current scene.
 */
module Runs {
  import opened Bits
  import opened Drawing
  import opened Scenes
  import opened Display
  import opened Tiles

  datatype State = State(flags: seq<bv16>, offX: int, offY: int, scene: Scene, ram: seq<bv8>)

  datatype Event =
    | RefreshAll
    | RefreshRect(x1: int, y1: int, x2: int, y2: int)
    | MoveToAndRefresh(x: int, y: int)
    | Repaint(scene: Scene)
    | DisplayBuffer(shows: (int, int) -> bool)

  ghost predicate AllMarked(g: Grid, flags: seq<bv16>) {
    forall x, y | g.OnScreen(x, y) :: g.Marked(flags, x, y)
  }

  /** Screen pixel (x, y) shows the scene. */
  ghost predicate Shown(s: State, x: int, y: int) {
    Px(s.ram, COLUMNS, x, y) == Picture(s.scene, x + s.offX, y + s.offY)
  }

  ghost predicate Step(g: Grid, s: State, e: Event, s': State) {
    match e
    case RefreshAll => s' == s.(flags := s'.flags) && AllMarked(g, s'.flags)
    case RefreshRect(x1, y1, x2, y2) =>
      s' == s.(flags := s'.flags) && g.cell > 0 && RectMarked(g, s.flags, s'.flags, x1, y1, x2, y2)
    case MoveToAndRefresh(x, y) => s' == s.(offX := x, offY := y, flags := s'.flags) && AllMarked(g, s'.flags)
    case Repaint(scene) =>
      // the program changes what its callback paints and marks every pixel that this changes
      && s' == s.(scene := scene, flags := s'.flags)
      && forall x, y | g.OnScreen(x, y) ::
           (g.Marked(s.flags, x, y)
            || Picture(scene, x + s.offX, y + s.offY) != Picture(s.scene, x + s.offX, y + s.offY))
           ==> g.Marked(s'.flags, x, y)
    case DisplayBuffer(shows) =>
      && s' == s.(flags := s'.flags, ram := s'.ram)
      && (forall x, y | g.OnScreen(x, y) ::
            Px(s'.ram, COLUMNS, x, y) == if g.Redrawn(s.flags, x, y) && Accepted(g, shows, x, y)
                                         then Picture(s.scene, x + s.offX, y + s.offY)
                                         else Px(s.ram, COLUMNS, x, y))
      && g.h > 0 && g.cell > 0 && RowsCleared(g, s.flags, s'.flags, g.height)
  }

  /** The callback returns true for the tile that shows pixel (x, y). */
  predicate Accepted(g: Grid, shows: (int, int) -> bool, x: int, y: int) {
    g.w > 0 && g.h > 0 && shows(x / g.w * g.w, g.Top(y))
  }

  /** A callback that returns true for every tile. */
  ghost predicate AcceptsAll(e: Event) {
    e.DisplayBuffer? ==> forall x, y :: e.shows(x, y)
  }

  /** Every pixel that does not show the scene lies in a marked tile. */
  ghost predicate Inv(g: Grid, s: State) {
    forall x, y | g.OnScreen(x, y) :: g.Marked(s.flags, x, y) || Shown(s, x, y)
  }

  lemma StepKeepsInv(g: Grid, s: State, e: Event, s': State)
    requires g.Valid() && g.Agrees() && |s.flags| == g.Rows() && Inv(g, s) && Step(g, s, e, s') && AcceptsAll(e)
    ensures Inv(g, s')
    ensures e.DisplayBuffer? ==> forall x, y | g.OnScreen(x, y) :: Shown(s', x, y)
  {
    hide Px, Picture, Flag, Grid.RowRead, Grid.Top, Grid.FirstRead;
    match e
    case DisplayBuffer(shows) =>
      forall x, y | g.OnScreen(x, y) ensures Shown(s', x, y) {
        MarksAgree(g, s.flags, x, y);
      }
    case RefreshRect(x1, y1, x2, y2) =>
      forall x, y | g.OnScreen(x, y) && g.Marked(s.flags, x, y) ensures g.Marked(s'.flags, x, y) {
        CellsOnScreen(g, x, y);
      }
    case _ =>
  }

  ghost predicate Run(g: Grid, states: seq<State>, events: seq<Event>) {
    && g.cell > 0 && |states| == |events| + 1
    && AllMarked(g, states[0].flags)
    && (forall i | 0 <= i < |states| :: |states[i].flags| == g.Rows())
    && (forall i | 0 <= i < |events| :: AcceptsAll(events[i]))
    && forall i | 0 <= i < |events| :: Step(g, states[i], events[i], states[i + 1])
  }

  lemma {:induction false} RunKeepsInv(g: Grid, states: seq<State>, events: seq<Event>, n: nat)
    requires g.Valid() && g.Agrees() && Run(g, states, events) && n < |states|
    ensures Inv(g, states[n])
  {
    hide Inv, Step, AcceptsAll, Grid.Agrees, Grid.Valid;
    if n == 0 {
      FreshInv(g, states[0]);
    } else {
      RunKeepsInv(g, states, events, n - 1);
      StepKeepsInv(g, states[n - 1], events[n - 1], states[n]);
    }
  }

  lemma FreshInv(g: Grid, s: State)
    requires AllMarked(g, s.flags)
    ensures Inv(g, s)
  {
  }

  /** Partial refresh equals full redraw: in every run, the screen after each display is the scene's full picture. */
  lemma PartialRefreshIsFullRedraw(g: Grid, states: seq<State>, events: seq<Event>, n: nat)
    requires g.Valid() && g.Agrees() && Run(g, states, events) && n < |events| && events[n].DisplayBuffer?
    ensures forall x, y | g.OnScreen(x, y) :: Shown(states[n + 1], x, y)
  {
    hide Inv, Step, AcceptsAll, Grid.Agrees, Grid.Valid;
    RunKeepsInv(g, states, events, n);
    StepKeepsInv(g, states[n], events[n], states[n + 1]);
  }

  /** A callback that returns false loses the update: the tile keeps its old pixels and its mark is gone. */
  lemma RefusedTileGoesStale(g: Grid, s: State, e: Event, s': State, x: int, y: int)
    requires g.Valid() && g.Agrees() && g.OnScreen(x, y) && e.DisplayBuffer? && Step(g, s, e, s')
    requires !Accepted(g, e.shows, x, y)
    ensures Shown(s', x, y) == Shown(s, x, y) && !g.Marked(s'.flags, x, y)
  {
    hide Px, Picture, Flag;
    AgreeingRow(g, y);
    FlagAll(x / g.cell);
  }

  /** A sprite of fixed size whose position is in world coordinates; it is call `index` of the scene. */
  class FixedSprite {
    const w: nat
    const h: nat
    const bits: seq<bv8>
    const index: nat
    var x: int
    var y: int

    constructor (px: int, py: int, width: nat, height: nat, bitmap: seq<bv8>, call: nat)
      ensures x == px && y == py && w == width && h == height && bits == bitmap && index == call
    {
      x, y, w, h, bits, index := px, py, width, height, bitmap, call;
    }

    /** The call that draws the sprite. */
    function DrawCall(): Op
      reads this
    {
      Bitmap(x, y, w, h, bits)
    }

    method Refresh(t: Tiler)
      requires t.Valid() && (x + w - 1 - t.offX) / t.grid.cell < 31
      modifies t.flags
      ensures RectMarked(t.grid, old(t.flags[..]), t.flags[..], x - t.offX, y - t.offY,
                         x + w - 1 - t.offX, y + h - 1 - t.offY)
    {
      t.RefreshWorld(x, y, x + w - 1, y + h - 1);
    }

    method MoveTo(t: Tiler, px: int, py: int)
      requires t.Valid()
      requires (x + w - 1 - t.offX) / t.grid.cell < 31 && (px + w - 1 - t.offX) / t.grid.cell < 31
      modifies this, t.flags
      ensures x == px && y == py && DrawCall() == Bitmap(px, py, w, h, bits)
      ensures SpriteMarked(t.grid, old(t.flags[..]), t.flags[..], old(DrawCall()), DrawCall(), t.offX, t.offY)
    {
      hide Flag;
      hide RectMarked;
      hide SpriteMarked;
      ghost var f0 := t.flags[..];
      ghost var from := DrawCall();
      Refresh(t);
      ghost var f1 := t.flags[..];
      x, y := px, py;
      Refresh(t);
      BothMarked(t.grid, f0, f1, t.flags[..], from, DrawCall(), t.offX, t.offY);
    }

    method MoveBy(t: Tiler, dx: int, dy: int)
      requires t.Valid()
      requires (x + w - 1 - t.offX) / t.grid.cell < 31 && (x + dx + w - 1 - t.offX) / t.grid.cell < 31
      modifies this, t.flags
      ensures x == old(x) + dx && y == old(y) + dy && DrawCall() == Bitmap(old(x) + dx, old(y) + dy, w, h, bits)
      ensures SpriteMarked(t.grid, old(t.flags[..]), t.flags[..], old(DrawCall()), DrawCall(), t.offX, t.offY)
    {
      MoveTo(t, x + dx, y + dy);
    }
  }

  /** World pixel (x, y) lies in the rectangle of a bitmap call. */
  predicate Within(op: Op, x: int, y: int)
    requires op.Bitmap?
  {
    op.x <= x < op.x + op.w && op.y <= y < op.y + op.h
  }

  /** Old marks are kept, and every on-screen pixel of either rectangle is marked. */
  ghost predicate SpriteMarked(g: Grid, before: seq<bv16>, after: seq<bv16>, from: Op, to: Op, offX: int, offY: int)
    requires from.Bitmap? && to.Bitmap?
  {
    && |after| == |before|
    && forall x, y | g.OnScreen(x, y) ::
         g.Marked(before, x, y) || Within(from, x + offX, y + offY) || Within(to, x + offX, y + offY)
         ==> g.Marked(after, x, y)
  }

  lemma BothMarked(g: Grid, f0: seq<bv16>, f1: seq<bv16>, f2: seq<bv16>, from: Op, to: Op, offX: int, offY: int)
    requires g.Valid() && |f0| == g.Rows() && from.Bitmap? && to.Bitmap?
    requires RectMarked(g, f0, f1, from.x - offX, from.y - offY, from.x + from.w - 1 - offX, from.y + from.h - 1 - offY)
    requires RectMarked(g, f1, f2, to.x - offX, to.y - offY, to.x + to.w - 1 - offX, to.y + to.h - 1 - offY)
    ensures SpriteMarked(g, f0, f2, from, to, offX, offY)
  {
    hide Flag;
    forall x, y | g.OnScreen(x, y)
      ensures g.Marked(f0, x, y) || Within(from, x + offX, y + offY) || Within(to, x + offX, y + offY)
              ==> g.Marked(f2, x, y)
    {
      CellsOnScreen(g, x, y);
      hide Grid.InMark;
      if Within(from, x + offX, y + offY) {
        MarkCovers(g, from.x - offX, from.y - offY, from.x + from.w - 1 - offX, from.y + from.h - 1 - offY, x, y);
      }
      if Within(to, x + offX, y + offY) {
        MarkCovers(g, to.x - offX, to.y - offY, to.x + to.w - 1 - offX, to.y + to.h - 1 - offY, x, y);
      }
    }
  }

  /** A bitmap that moves changes the picture only inside its old and its new rectangle. */
  lemma SpriteChanges(scene: Scene, i: nat, to: Op, x: int, y: int)
    requires i < |scene.ops| && scene.ops[i].Bitmap? && to.Bitmap?
    requires !Within(scene.ops[i], x, y) && !Within(to, x, y)
    ensures Picture(scene.(ops := scene.ops[i := to]), x, y) == Picture(scene, x, y)
  {
    ReplaceCall(scene.ops, i, to, scene.pen, |scene.ops|, x, y, false);
  }

  /** The program around the engine: its scene, and the operations it may mix. */
  class Stage {
    const tiler: Tiler
    var scene: Scene

    ghost predicate Valid()
      reads this, tiler, tiler.canvas, tiler.driver
    {
      tiler.Valid()
    }

    ghost function Now(): State
      reads this, tiler, tiler.flags, tiler.driver
    {
      State(tiler.flags[..], tiler.offX, tiler.offY, scene, tiler.driver.chip.ram)
    }

    constructor (t: Tiler, first: Scene)
      requires t.Valid()
      ensures Valid() && tiler == t && scene == first
    {
      tiler, scene := t, first;
    }

    method RefreshAll()
      requires Valid()
      modifies tiler.flags
      ensures Valid() && Step(tiler.grid, old(Now()), Event.RefreshAll, Now())
    {
      tiler.Refresh();
      OnesMark(tiler.grid, tiler.flags[..]);
    }

    method MoveToAndRefresh(x: int, y: int)
      requires Valid()
      modifies tiler`offX, tiler`offY, tiler.flags
      ensures Valid() && Step(tiler.grid, old(Now()), Event.MoveToAndRefresh(x, y), Now())
    {
      tiler.MoveToAndRefresh(x, y);
      OnesMark(tiler.grid, tiler.flags[..]);
    }

    method RefreshRect(x1: int, y1: int, x2: int, y2: int)
      requires Valid() && x2 / tiler.grid.cell < 31
      modifies tiler.flags
      ensures Valid() && Step(tiler.grid, old(Now()), Event.RefreshRect(x1, y1, x2, y2), Now())
    {
      hide Flag;
      tiler.RefreshRect(x1, y1, x2, y2);
    }

    method MoveSprite(sprite: FixedSprite, x: int, y: int)
      requires Valid() && sprite.index < |scene.ops| && scene.ops[sprite.index] == sprite.DrawCall()
      requires (sprite.x + sprite.w - 1 - tiler.offX) / tiler.grid.cell < 31
      requires (x + sprite.w - 1 - tiler.offX) / tiler.grid.cell < 31
      modifies this`scene, sprite, tiler.flags
      ensures Valid() && scene.ops == old(scene).ops[sprite.index := sprite.DrawCall()]
      ensures Step(tiler.grid, old(Now()), Repaint(scene), Now())
    {
      hide Flag;
      hide Picture;
      ghost var was := scene;
      ghost var from := sprite.DrawCall();
      sprite.MoveTo(tiler, x, y);
      scene := scene.(ops := scene.ops[sprite.index := sprite.DrawCall()]);
      ghost var to := sprite.DrawCall();
      forall X, Y | tiler.grid.OnScreen(X, Y) && Picture(scene, X + tiler.offX, Y + tiler.offY)
                                                 != Picture(was, X + tiler.offX, Y + tiler.offY)
        ensures tiler.grid.Marked(tiler.flags[..], X, Y)
      {
        if !Within(from, X + tiler.offX, Y + tiler.offY) && !Within(to, X + tiler.offX, Y + tiler.offY) {
          SpriteChanges(was, sprite.index, to, X + tiler.offX, Y + tiler.offY);
        }
      }
    }

    method DisplayBuffer(shows: (int, int) -> bool)
      requires Valid() && tiler.Paintable(scene)
      modifies tiler.flags, tiler.driver, tiler.canvas, tiler.canvas.buf
      ensures Valid() && Step(tiler.grid, old(Now()), Event.DisplayBuffer(shows), Now())
    {
      hide Px, Flag, Picture, TilesPaint, Grid.FirstRead;
      tiler.DisplayBuffer(scene, shows);
    }
  }

  lemma OnesMark(g: Grid, flags: seq<bv16>)
    requires g.Valid() && |flags| == g.Rows() && forall r | 0 <= r < |flags| :: flags[r] == 0xFFFF
    ensures AllMarked(g, flags)
  {
    forall x, y | g.OnScreen(x, y) ensures g.Marked(flags, x, y) {
      CellsOnScreen(g, x, y);
      FlagAll(x / g.cell);
    }
  }
}
