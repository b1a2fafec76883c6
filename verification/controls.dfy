/**
 * The control loop of the simulator as a value-level state machine: the keyboard
 * and window events of one frame update the running and paused flags and may
 * replace or clear the grid; then the brush paints; then, unless paused, one
 * generation is computed.
 */
module Controls {
  import opened Life

  /**
   * The keys the loop reacts to. `R` carries the grid that the random draw of
   * `randomize_grid` produced for that key press.
   */
  datatype Key = Space | R(draw: Grid) | C | Escape | OtherKey

  datatype Event = Quit | KeyDown(key: Key) | OtherEvent

  /** What one pass of the loop reads: the event queue and the mouse. */
  datatype FrameInput = FrameInput(events: seq<Event>, pressed: bool, mouseX: int, mouseY: int)

  /** The grid together with the loop's `running` and `paused` flags. */
  datatype World = World(grid: Grid, running: bool, paused: bool)

  /** A random draw carried by an R press has the grid's shape and only 0/1 cells. */
  predicate EventFits(e: Event, h: nat, w: nat)
  {
    e.KeyDown? && e.key.R? ==> IsGrid(e.key.draw, h, w) && Binary(e.key.draw)
  }

  predicate EventsFit(es: seq<Event>, h: nat, w: nat)
  {
    forall i :: 0 <= i < |es| ==> EventFits(es[i], h, w)
  }

  predicate FramesFit(fs: seq<FrameInput>, h: nat, w: nat)
  {
    forall k :: 0 <= k < |fs| ==> EventsFit(fs[k].events, h, w)
  }

  /** QUIT and ESC end the loop. */
  predicate IsStop(e: Event)
  {
    e.Quit? || (e.KeyDown? && e.key.Escape?)
  }

  predicate IsToggle(e: Event)
  {
    e.KeyDown? && e.key.Space?
  }

  /** R and C act on the grid. */
  predicate IsGridCommand(e: Event)
  {
    e.KeyDown? && (e.key.R? || e.key.C?)
  }

  /** An event that neither toggles the pause nor touches the grid. */
  predicate IsQuiet(e: Event)
  {
    !IsToggle(e) && !IsGridCommand(e)
  }

  /** The number of SPACE presses among `es`. */
  function SpaceCount(es: seq<Event>): (n: nat)
    ensures n <= |es|
  {
    if es == [] then 0
    else SpaceCount(es[..|es| - 1]) + (if IsToggle(es[|es| - 1]) then 1 else 0)
  }

  /** The reaction to one event. */
  function OnEvent(s: World, e: Event, h: nat, w: nat): (t: World)
    requires IsGrid(s.grid, h, w) && EventFits(e, h, w)
    ensures IsGrid(t.grid, h, w)
    ensures Binary(s.grid) ==> Binary(t.grid)
  {
    match e
    case Quit => s.(running := false)
    case KeyDown(key) =>
      (match key
       case Space => s.(paused := !s.paused)
       case R(draw) => s.(grid := draw)
       case C => s.(grid := Zero(h, w))
       case Escape => s.(running := false)
       case OtherKey => s)
    case OtherEvent => s
  }

  /** The events of one frame, handled in queue order. */
  function OnEvents(s: World, es: seq<Event>, h: nat, w: nat): (t: World)
    requires IsGrid(s.grid, h, w) && EventsFit(es, h, w)
    ensures IsGrid(t.grid, h, w)
    ensures Binary(s.grid) ==> Binary(t.grid)
  {
    if es == [] then s
    else OnEvent(OnEvents(s, es[..|es| - 1], h, w), es[|es| - 1], h, w)
  }

  /** One pass of the loop: events, then the brush, then a generation unless paused. */
  function Frame(s: World, f: FrameInput, h: nat, w: nat): (t: World)
    requires IsGrid(s.grid, h, w) && EventsFit(f.events, h, w)
    ensures IsGrid(t.grid, h, w)
    ensures Binary(s.grid) ==> Binary(t.grid)
  {
    var e := OnEvents(s, f.events, h, w);
    var painted := Brush(e.grid, h, w, f.pressed, f.mouseX, f.mouseY);
    BrushKeepsBinary(e.grid, h, w, f.pressed, f.mouseX, f.mouseY);
    World(if e.paused then painted else Step(painted, h, w), e.running, e.paused)
  }

  /** `while running:` over the given frames, stopping early once `running` is false. */
  function RunFrames(s: World, fs: seq<FrameInput>, h: nat, w: nat): (t: World)
    requires IsGrid(s.grid, h, w) && FramesFit(fs, h, w)
    ensures IsGrid(t.grid, h, w)
    ensures Binary(s.grid) ==> Binary(t.grid)
    decreases |fs|
  {
    if !s.running || fs == [] then s
    else RunFrames(Frame(s, fs[0], h, w), fs[1..], h, w)
  }

  /**
   * Proof helper for the loop of `Engine.GameOfLife.Run`: running the frames from
   * index `k` on, while still running, is running frame `k` and then the rest.
   */
  lemma RunFramesFrom(s: World, fs: seq<FrameInput>, k: nat, h: nat, w: nat)
    requires IsGrid(s.grid, h, w) && FramesFit(fs, h, w) && k < |fs| && s.running
    ensures EventsFit(fs[k].events, h, w) && FramesFit(fs[k + 1..], h, w)
    ensures RunFrames(s, fs[k..], h, w) == RunFrames(Frame(s, fs[k], h, w), fs[k + 1..], h, w)
  {
    assert fs[k..][0] == fs[k] && fs[k..][1..] == fs[k + 1..];
    var rest := fs[k + 1..];
    forall j | 0 <= j < |rest| ensures EventsFit(rest[j].events, h, w) {
      assert rest[j] == fs[k + 1 + j];
    }
  }

  // ---------------------------------------------------------------------------
  // Properties of the control state

  /** After a frame's events, `paused` has flipped once per SPACE press. */
  lemma {:induction false} PauseParity(s: World, es: seq<Event>, h: nat, w: nat)
    requires IsGrid(s.grid, h, w) && EventsFit(es, h, w)
    ensures OnEvents(s, es, h, w).paused == (s.paused != (SpaceCount(es) % 2 == 1))
  {
    if es != [] {
      PauseParity(s, es[..|es| - 1], h, w);
    }
  }

  /** The loop keeps running exactly when it was running and no QUIT or ESC arrived. */
  lemma {:induction false} RunningUnlessStopped(s: World, es: seq<Event>, h: nat, w: nat)
    requires IsGrid(s.grid, h, w) && EventsFit(es, h, w)
    ensures OnEvents(s, es, h, w).running <==> s.running && forall i :: 0 <= i < |es| ==> !IsStop(es[i])
  {
    if es != [] {
      var init := es[..|es| - 1];
      RunningUnlessStopped(s, init, h, w);
      assert forall i :: 0 <= i < |init| ==> init[i] == es[i];
    }
  }

  /** C empties every cell, and a second C changes nothing more. */
  lemma ClearIdempotent(s: World, h: nat, w: nat)
    requires IsGrid(s.grid, h, w)
    ensures Uniform(OnEvent(s, KeyDown(C), h, w).grid, 0)
    ensures OnEvent(OnEvent(s, KeyDown(C), h, w), KeyDown(C), h, w) == OnEvent(s, KeyDown(C), h, w)
  {
  }

  /** Without R or C among the events, the events leave the grid as it was. */
  lemma {:induction false} EventsKeepGrid(s: World, es: seq<Event>, h: nat, w: nat)
    requires IsGrid(s.grid, h, w) && EventsFit(es, h, w)
    requires forall i :: 0 <= i < |es| ==> !IsGridCommand(es[i])
    ensures OnEvents(s, es, h, w).grid == s.grid
  {
    if es != [] {
      var init := es[..|es| - 1];
      assert forall i :: 0 <= i < |init| ==> init[i] == es[i];
      EventsKeepGrid(s, init, h, w);
    }
  }

  /** A paused frame with no SPACE, R or C and no mouse press changes no cell. */
  lemma PausedFrameKeepsGrid(s: World, f: FrameInput, h: nat, w: nat)
    requires IsGrid(s.grid, h, w) && EventsFit(f.events, h, w)
    requires s.paused && !f.pressed
    requires forall i :: 0 <= i < |f.events| ==> IsQuiet(f.events[i])
    ensures Frame(s, f, h, w).grid == s.grid
    ensures Frame(s, f, h, w).paused
  {
    EventsKeepGrid(s, f.events, h, w);
    PauseParity(s, f.events, h, w);
    NoToggles(f.events);
  }

  /**
   * A paused frame with no SPACE, R or C still paints: the mouse is handled every
   * frame, so the grid becomes the brushed grid, and no generation is computed.
   */
  lemma PausedFrameOnlyBrushes(s: World, f: FrameInput, h: nat, w: nat)
    requires IsGrid(s.grid, h, w) && EventsFit(f.events, h, w)
    requires s.paused
    requires forall i :: 0 <= i < |f.events| ==> IsQuiet(f.events[i])
    ensures Frame(s, f, h, w).grid == Brush(s.grid, h, w, f.pressed, f.mouseX, f.mouseY)
    ensures Frame(s, f, h, w).paused
  {
    EventsKeepGrid(s, f.events, h, w);
    PauseParity(s, f.events, h, w);
    NoToggles(f.events);
  }

  /** An unpaused frame with no SPACE, R or C paints first and then steps the painted grid. */
  lemma UnpausedFrameBrushesThenSteps(s: World, f: FrameInput, h: nat, w: nat)
    requires IsGrid(s.grid, h, w) && EventsFit(f.events, h, w)
    requires !s.paused
    requires forall i :: 0 <= i < |f.events| ==> IsQuiet(f.events[i])
    ensures Frame(s, f, h, w).grid == Step(Brush(s.grid, h, w, f.pressed, f.mouseX, f.mouseY), h, w)
    ensures !Frame(s, f, h, w).paused
  {
    EventsKeepGrid(s, f.events, h, w);
    PauseParity(s, f.events, h, w);
    NoToggles(f.events);
  }

  /** No SPACE press among `es` means a SPACE count of zero. */
  lemma {:induction false} NoToggles(es: seq<Event>)
    requires forall i :: 0 <= i < |es| ==> !IsToggle(es[i])
    ensures SpaceCount(es) == 0
  {
    if es != [] {
      var init := es[..|es| - 1];
      assert forall i :: 0 <= i < |init| ==> init[i] == es[i];
      NoToggles(init);
    }
  }

  /**
   * A frame that receives QUIT or ESC is still completed (brush and step
   * included), and it is the last frame the loop runs.
   */
  lemma StopEndsRun(s: World, f: FrameInput, rest: seq<FrameInput>, h: nat, w: nat)
    requires IsGrid(s.grid, h, w) && FramesFit([f] + rest, h, w)
    requires s.running
    requires exists i :: 0 <= i < |f.events| && IsStop(f.events[i])
    ensures RunFrames(s, [f] + rest, h, w) == Frame(s, f, h, w)
  {
    assert ([f] + rest)[0] == f && ([f] + rest)[1..] == rest;
    assert EventsFit(([f] + rest)[0].events, h, w);
    RunningUnlessStopped(s, f.events, h, w);
  }

  /** While paused and idle, any number of frames leaves the grid unchanged. */
  lemma {:induction false} PausedRunKeepsGrid(s: World, fs: seq<FrameInput>, h: nat, w: nat)
    requires IsGrid(s.grid, h, w) && FramesFit(fs, h, w)
    requires s.paused
    requires forall k :: 0 <= k < |fs| ==> !fs[k].pressed
    requires forall k, i :: 0 <= k < |fs| && 0 <= i < |fs[k].events| ==> IsQuiet(fs[k].events[i])
    ensures RunFrames(s, fs, h, w).grid == s.grid
    decreases |fs|
  {
    if s.running && fs != [] {
      assert EventsFit(fs[0].events, h, w);
      PausedFrameKeepsGrid(s, fs[0], h, w);
      var t := Frame(s, fs[0], h, w);
      assert FramesFit(fs[1..], h, w) by {
        forall k | 0 <= k < |fs[1..]| ensures EventsFit(fs[1..][k].events, h, w) {
          assert fs[1..][k] == fs[k + 1];
        }
      }
      PausedRunKeepsGrid(t, fs[1..], h, w);
    }
  }
}
