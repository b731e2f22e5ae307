/**
 * One iteration of the world's frame loop, without the drawing: poll and
 * handle events, hot-reload the map, sync with the server, update the
 * interaction flags, then resolve movement. The region query is the
 * parameter `probe`, which also receives the map it is asked about.
 *
 * `CommandSystem::executeCommand` also receives the world; the model assumes
 * it leaves the world alone and records only the submitted text.
 */
module World {
  import opened Options
  import opened BlockStates
  import opened Movement
  import opened CommandLine
  import opened NetSync
  import opened Interaction

  const KEY_A: int := 97
  const KEY_D: int := 100

  datatype Event = Quit | KeyDown(sym: int) | KeyUp(sym: int) | OtherEvent

  datatype WorldState = WorldState(
    player: Player,
    cmd: CmdState,
    flags: Flags,
    sync: SyncState,
    pressed: set<int>,
    keepOpen: bool,
    mapData: seq<seq<int>>)

  /** The world after an event, and the command texts submitted by it. */
  datatype EventResult = EventResult(world: WorldState, commands: seq<string>)

  /** Events never move the player or its hitbox, touch the map, the latches or the interaction flags. */
  predicate SameExceptInput(w: WorldState, w': WorldState) {
    && w'.player.x == w.player.x && w'.player.y == w.player.y
    && w'.player.hitX == w.player.hitX && w'.player.hitY == w.player.hitY
    && w'.player.facingRight == w.player.facingRight
    && w'.sync == w.sync && w'.flags == w.flags && w'.mapData == w.mapData
  }

  /**
   * `handleEvent(e)`: quit closes the loop; a key press is recorded and goes
   * to the command line; releasing A or D stops the walking animation.
   */
  function HandleEvent(w: WorldState, e: Event): (r: EventResult)
    ensures SameExceptInput(w, r.world)
    ensures r.world.keepOpen == (w.keepOpen && !e.Quit?)
    ensures e.KeyDown? ==> r.world.pressed == w.pressed + {e.sym}
    ensures e.KeyDown? ==> var c := HandleKeyDown(w.cmd, e.sym);
      && r.world.cmd == c.state
      && r.commands == (if c.dispatched.Some? then [c.dispatched.value] else [])
    ensures !e.KeyDown? ==> r.world.cmd == w.cmd && r.commands == []
    ensures e.KeyUp? && (e.sym == KEY_A || e.sym == KEY_D) ==> !r.world.player.walking
    ensures !(e.KeyUp? && (e.sym == KEY_A || e.sym == KEY_D)) ==> r.world.player.walking == w.player.walking
    ensures |r.commands| <= 1
  {
    match e
    case Quit => EventResult(w.(keepOpen := false), [])
    case KeyDown(sym) =>
      var c := HandleKeyDown(w.cmd, sym);
      EventResult(
        w.(pressed := w.pressed + {sym}, cmd := c.state),
        if c.dispatched.Some? then [c.dispatched.value] else [])
    case KeyUp(sym) =>
      if sym == KEY_A || sym == KEY_D then EventResult(w.(player := w.player.(walking := false)), [])
      else EventResult(w, [])
    case OtherEvent => EventResult(w, [])
  }

  /** The event-polling loop of a frame. */
  function HandleEvents(w: WorldState, es: seq<Event>): (r: EventResult)
    ensures SameExceptInput(w, r.world)
    ensures r.world.keepOpen <==> w.keepOpen && forall i :: 0 <= i < |es| ==> !es[i].Quit?
    ensures w.pressed <= r.world.pressed
    decreases |es|
  {
    if |es| == 0 then EventResult(w, [])
    else
      var first := HandleEvent(w, es[0]);
      var rest := HandleEvents(first.world, es[1..]);
      assert forall i :: 1 <= i < |es| ==> es[i] == es[1..][i - 1];
      EventResult(rest.world, first.commands + rest.commands)
  }

  /** What a frame reads from outside: events, the reloaded map, keys, and the network outcome. */
  datatype FrameInputs = FrameInputs(
    events: seq<Event>,
    reloaded: Option<seq<seq<int>>>,
    keys: Keys,
    step: int,
    hasTexture: bool,
    textureSendOk: bool)

  /** The world after a frame, the commands submitted and the messages sent. */
  datatype FrameResult = FrameResult(world: WorldState, commands: seq<string>, sent: seq<Message>)

  /** The world after events and the hot reload: what the rest of the frame works on. */
  function AfterInput(w: WorldState, inp: FrameInputs): WorldState {
    var w1 := HandleEvents(w, inp.events).world;
    match inp.reloaded
    case Some(m) => w1.(mapData := m)
    case None => w1
  }

  /**
   * One iteration of `updateAndRender`'s loop for player `id` with sprite
   * `spriteIndex`. The interaction checks run before the movement, so they read
   * the hitbox where the previous frame's resolver left it.
   */
  function Frame(w: WorldState, id: int, spriteIndex: int,
                 probe: (seq<seq<int>>, int, int) -> Mask, inp: FrameInputs): (r: FrameResult)
    ensures r.commands == HandleEvents(w, inp.events).commands
    ensures r.world.keepOpen == HandleEvents(w, inp.events).world.keepOpen
    ensures r.world.mapData == if inp.reloaded.Some? then inp.reloaded.value else w.mapData
    ensures var sync := UpdateServer(w.sync, id, spriteIndex,
        FrameInput(w.player.x, w.player.y, inp.hasTexture, inp.textureSendOk, r.world.mapData));
      r.world.sync == sync.state && r.sent == sync.sent
    ensures var mask := probe(r.world.mapData, w.player.hitX, w.player.hitY);
      && (r.world.flags.enterHouse <==> Has(mask, ENTERABLE))
      && (r.world.flags.allowBreak <==> w.flags.allowBreak || Has(mask, BREAKABLE))
    ensures AfterInput(w, inp).cmd.commandMode ==>
      && r.world.player.x == w.player.x && r.world.player.y == w.player.y
      && r.world.player.hitX == w.player.hitX && r.world.player.hitY == w.player.hitY
    ensures r.world.cmd == AfterInput(w, inp).cmd
    ensures !AfterInput(w, inp).cmd.commandMode ==>
      var m, dx, dy := r.world.mapData, DeltaX(inp.keys, inp.step), DeltaY(inp.keys, inp.step);
      && r.world.player.x
         == (if Has(probe(m, w.player.x + dx, w.player.y), COLLISION) then w.player.x else w.player.x + dx)
      && r.world.player.y
         == (if Has(probe(m, r.world.player.x, w.player.y + dy), COLLISION) then w.player.y else w.player.y + dy)
      && r.world.player.walking == (inp.keys.w || inp.keys.a || inp.keys.s || inp.keys.d)
      && r.world.player.facingRight == (inp.keys.d || (!inp.keys.a && w.player.facingRight))
      && r.world.player.hitX == r.world.player.x
      && r.world.player.hitY == w.player.y + dy
  {
    var ev := HandleEvents(w, inp.events);
    var w1 := AfterInput(w, inp);
    var sync := UpdateServer(w1.sync, id, spriteIndex,
      FrameInput(w1.player.x, w1.player.y, inp.hasTexture, inp.textureSendOk, w1.mapData));
    var flags := CheckFrame(w1.flags, probe(w1.mapData, w1.player.hitX, w1.player.hitY));
    var player := HandlePlayerMovement(w1.cmd.commandMode, w1.player, inp.keys, inp.step,
      (x, y) => probe(w1.mapData, x, y));
    FrameResult(w1.(sync := sync.state, flags := flags, player := player), ev.commands, sync.sent)
  }

  /** While the command line is open after the frame's events, the player does not move, whatever keys are held. */
  lemma CommandModeFreezesPlayer(w: WorldState, id: int, spriteIndex: int,
                                 probe: (seq<seq<int>>, int, int) -> Mask, inp: FrameInputs)
    requires AfterInput(w, inp).cmd.commandMode
    ensures var r := Frame(w, id, spriteIndex, probe, inp);
      r.world.player.x == w.player.x && r.world.player.y == w.player.y
      && r.world.player.facingRight == w.player.facingRight
  {
  }

  /** Pressing `/` with the movement keys held opens the command line and suppresses the move. */
  lemma SlashSuppressesMovement(w: WorldState, id: int, spriteIndex: int,
                                probe: (seq<seq<int>>, int, int) -> Mask, inp: FrameInputs)
    requires !w.cmd.commandMode
    requires inp.events == [KeyDown(KEY_SLASH)]
    ensures var r := Frame(w, id, spriteIndex, probe, inp);
      r.world.cmd.commandMode && r.world.player.x == w.player.x && r.world.player.y == w.player.y
  {
    var e := HandleEvent(w, KeyDown(KEY_SLASH));
    assert HandleEvents(w, inp.events).world == HandleEvents(e.world, []).world;
  }

  /**
   * The move report of a frame describes where the player stood when the
   * frame began: it is sent exactly when that position differs from the last
   * one reported.
   */
  lemma FrameReportsStartPosition(w: WorldState, id: int, spriteIndex: int,
                                  probe: (seq<seq<int>>, int, int) -> Mask, inp: FrameInputs)
    ensures var r := Frame(w, id, spriteIndex, probe, inp);
      && Count(r.sent, MovedTag) == (if (w.sync.oldX, w.sync.oldY) != (w.player.x, w.player.y) then 1 else 0)
      && r.world.sync.oldX == w.player.x && r.world.sync.oldY == w.player.y
  {
    var w1 := AfterInput(w, inp);
    UpdateServerMessages(w1.sync, id, spriteIndex,
      FrameInput(w1.player.x, w1.player.y, inp.hasTexture, inp.textureSendOk, w1.mapData));
  }

  /** A player who starts a frame outside any solid region of the (reloaded) map ends it outside one too. */
  lemma FrameKeepsPlayerFree(w: WorldState, id: int, spriteIndex: int,
                             probe: (seq<seq<int>>, int, int) -> Mask, inp: FrameInputs)
    requires !Has(probe(AfterInput(w, inp).mapData, w.player.x, w.player.y), COLLISION)
    ensures var r := Frame(w, id, spriteIndex, probe, inp);
      !Has(probe(r.world.mapData, r.world.player.x, r.world.player.y), COLLISION)
  {
    var w1 := AfterInput(w, inp);
    var p: Probe := (x, y) => probe(w1.mapData, x, y);
    if !w1.cmd.commandMode {
      StaysOutOfCollision(w1.player, inp.keys, inp.step, p);
    }
  }

  /**
   * A rejected step into a breakable solid tile leaves the hitbox on that
   * tile, so the next frame offers to break it although the player never
   * moved: from (0, 0), holding S with step 10 against a tile at (0, 10)
   * that is both solid and breakable.
   */
  lemma StaleHitboxAllowsBreak(w: WorldState, id: int, spriteIndex: int)
    requires w.player.x == 0 && w.player.y == 0 && w.player.hitX == 0 && w.player.hitY == 0
    requires !w.cmd.commandMode && !w.flags.allowBreak
    ensures var probe := (m: seq<seq<int>>, x: int, y: int) => if (x, y) == (0, 10) then COLLISION + BREAKABLE else NONE;
      var inp := FrameInputs([], None, Keys(false, false, true, false), 10, false, false);
      var r1 := Frame(w, id, spriteIndex, probe, inp);
      var r2 := Frame(r1.world, id, spriteIndex, probe, inp);
      && r1.world.player.y == 0 && !r1.world.flags.allowBreak
      && r2.world.player.y == 0 && r2.world.flags.allowBreak
  {
    var probe := (m: seq<seq<int>>, x: int, y: int) => if (x, y) == (0, 10) then COLLISION + BREAKABLE else NONE;
    assert Has(COLLISION + BREAKABLE, COLLISION) && Has(COLLISION + BREAKABLE, BREAKABLE);
    assert !Has(NONE, BREAKABLE) && !Has(NONE, COLLISION);
  }
}
