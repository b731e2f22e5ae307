/**
 * `updateServer`: the per-frame reconciliation of local state with the
 * server. Calls to the network client are modelled as the list of messages
 * emitted this frame; whether the texture send succeeded is an input.
 *  - a move is reported only when the position changed since the last report;
 *  - the texture choice is sent until one send succeeds, then never again;
 *  - the map is sent the first frame it is non-empty, then never again.
 */
module NetSync {

  datatype Message =
    | PlayerMoved(id: int, x: int, y: int)
    | PlayerTexture(spriteIndex: int)
    | MapInfo(mapData: seq<seq<int>>)

  /** Which client call a message stands for. */
  datatype Tag = MovedTag | TextureTag | MapTag

  function TagOf(m: Message): Tag {
    match m
    case PlayerMoved(_, _, _) => MovedTag
    case PlayerTexture(_) => TextureTag
    case MapInfo(_) => MapTag
  }

  /** `oldX`/`oldY` (last reported position) and the two latches. */
  datatype SyncState = SyncState(oldX: int, oldY: int, sentTexture: bool, sentMap: bool)

  /** What one frame sees: the player's position, texture readiness, the send's outcome and the map. */
  datatype FrameInput = FrameInput(
    x: int, y: int, hasTexture: bool, textureSendOk: bool, mapData: seq<seq<int>>)

  datatype SyncResult = SyncResult(state: SyncState, sent: seq<Message>)

  /** The number of messages of one kind in a list. */
  function Count(ms: seq<Message>, t: Tag): nat
    decreases |ms|
  {
    if |ms| == 0 then 0 else (if TagOf(ms[0]) == t then 1 else 0) + Count(ms[1..], t)
  }

  lemma {:induction false} CountAppend(a: seq<Message>, b: seq<Message>, t: Tag)
    ensures Count(a + b, t) == Count(a, t) + Count(b, t)
    decreases |a|
  {
    if |a| == 0 {
      assert a + b == b;
    } else {
      CountAppend(a[1..], b, t);
      assert (a + b)[1..] == a[1..] + b;
    }
  }

  /** Every message in the list carries this frame's data. */
  predicate CarriesFrame(ms: seq<Message>, id: int, spriteIndex: int, f: FrameInput) {
    forall i :: 0 <= i < |ms| ==> Carries(ms[i], id, spriteIndex, f)
  }

  predicate Carries(m: Message, id: int, spriteIndex: int, f: FrameInput) {
    match m
    case PlayerMoved(pid, x, y) => pid == id && x == f.x && y == f.y
    case PlayerTexture(index) => index == spriteIndex
    case MapInfo(grid) => grid == f.mapData
  }

  /**
   * `updateServer(&oldX, &oldY)` for player `id` with sprite `spriteIndex`,
   * branch by branch: the move report, the texture send (whose outcome is
   * `f.textureSendOk`), then the map send, whose result is not looked at.
   */
  function UpdateServer(s: SyncState, id: int, spriteIndex: int, f: FrameInput): (r: SyncResult)
    ensures r.state.oldX == f.x && r.state.oldY == f.y
    ensures r.state.sentTexture <==> s.sentTexture || (f.hasTexture && f.textureSendOk)
    ensures r.state.sentMap <==> s.sentMap || |f.mapData| > 0
  {
    var (oldX, oldY, moved) :=
      if s.oldX != f.x || s.oldY != f.y then (f.x, f.y, [PlayerMoved(id, f.x, f.y)])
      else (s.oldX, s.oldY, []);
    var (sentTexture, texture) :=
      if !s.sentTexture then
        if f.hasTexture then
          if f.textureSendOk then (true, [PlayerTexture(spriteIndex)]) else (false, [PlayerTexture(spriteIndex)])
        else (false, [])
      else (s.sentTexture, []);
    var (sentMap, grid) :=
      if !s.sentMap then
        if |f.mapData| > 0 then (true, [MapInfo(f.mapData)]) else (false, [])
      else (s.sentMap, []);
    SyncResult(SyncState(oldX, oldY, sentTexture, sentMap), moved + texture + grid)
  }

  /** The calls of one frame come in source order: move report, texture, map. */
  lemma SentInCallOrder(s: SyncState, id: int, spriteIndex: int, f: FrameInput)
    ensures UpdateServer(s, id, spriteIndex, f).sent
         == (if s.oldX != f.x || s.oldY != f.y then [PlayerMoved(id, f.x, f.y)] else [])
          + (if !s.sentTexture && f.hasTexture then [PlayerTexture(spriteIndex)] else [])
          + (if !s.sentMap && |f.mapData| > 0 then [MapInfo(f.mapData)] else [])
  {
  }

  /**
   * What one frame emits: a move report exactly when the position changed
   * since the last report, a texture attempt exactly while the texture latch
   * is open and a texture is ready, the map exactly while the map latch is
   * open and the map is non-empty; each carrying this frame's data.
   */
  lemma UpdateServerMessages(s: SyncState, id: int, spriteIndex: int, f: FrameInput)
    ensures var sent := UpdateServer(s, id, spriteIndex, f).sent;
      && Count(sent, MovedTag) == (if (s.oldX, s.oldY) != (f.x, f.y) then 1 else 0)
      && Count(sent, TextureTag) == (if !s.sentTexture && f.hasTexture then 1 else 0)
      && Count(sent, MapTag) == (if !s.sentMap && |f.mapData| > 0 then 1 else 0)
      && |sent| <= 3
      && CarriesFrame(sent, id, spriteIndex, f)
  {
    var moved := if s.oldX != f.x || s.oldY != f.y then [PlayerMoved(id, f.x, f.y)] else [];
    var texture := if !s.sentTexture && f.hasTexture then [PlayerTexture(spriteIndex)] else [];
    var grid := if !s.sentMap && |f.mapData| > 0 then [MapInfo(f.mapData)] else [];
    CountAppend(moved + texture, grid, MovedTag);
    CountAppend(moved, texture, MovedTag);
    CountAppend(moved + texture, grid, TextureTag);
    CountAppend(moved, texture, TextureTag);
    CountAppend(moved + texture, grid, MapTag);
    CountAppend(moved, texture, MapTag);
    var sent := moved + texture + grid;
    SentInCallOrder(s, id, spriteIndex, f);
    assert forall i :: 0 <= i < |sent| ==> sent[i] in moved || sent[i] in texture || sent[i] in grid;
  }

  /** Many frames: the final state and every message emitted, in order. */
  function Run(s: SyncState, id: int, spriteIndex: int, frames: seq<FrameInput>): (r: SyncResult)
    decreases |frames|
  {
    if |frames| == 0 then SyncResult(s, [])
    else
      var first := UpdateServer(s, id, spriteIndex, frames[0]);
      var rest := Run(first.state, id, spriteIndex, frames[1..]);
      SyncResult(rest.state, first.sent + rest.sent)
  }

  /** The map latch: over any run of frames the map is sent at most once, and never once latched. */
  lemma {:induction false} MapSentAtMostOnce(s: SyncState, id: int, spriteIndex: int, frames: seq<FrameInput>)
    ensures Count(Run(s, id, spriteIndex, frames).sent, MapTag) <= 1
    ensures s.sentMap ==> Count(Run(s, id, spriteIndex, frames).sent, MapTag) == 0
    ensures Run(s, id, spriteIndex, frames).state.sentMap
            <==> s.sentMap || Count(Run(s, id, spriteIndex, frames).sent, MapTag) == 1
    decreases |frames|
  {
    if |frames| > 0 {
      var first := UpdateServer(s, id, spriteIndex, frames[0]);
      UpdateServerMessages(s, id, spriteIndex, frames[0]);
      MapSentAtMostOnce(first.state, id, spriteIndex, frames[1..]);
      CountAppend(first.sent, Run(first.state, id, spriteIndex, frames[1..]).sent, MapTag);
    }
  }

  /** Once a texture send has succeeded, no texture message is ever emitted again. */
  lemma {:induction false} TextureNeverResent(s: SyncState, id: int, spriteIndex: int, frames: seq<FrameInput>)
    requires s.sentTexture
    ensures Run(s, id, spriteIndex, frames).state.sentTexture
    ensures Count(Run(s, id, spriteIndex, frames).sent, TextureTag) == 0
    decreases |frames|
  {
    if |frames| > 0 {
      var first := UpdateServer(s, id, spriteIndex, frames[0]);
      UpdateServerMessages(s, id, spriteIndex, frames[0]);
      TextureNeverResent(first.state, id, spriteIndex, frames[1..]);
      CountAppend(first.sent, Run(first.state, id, spriteIndex, frames[1..]).sent, TextureTag);
    }
  }

  /** The number of frames in which a texture is ready. */
  function FramesWithTexture(frames: seq<FrameInput>): nat
    decreases |frames|
  {
    if |frames| == 0 then 0 else (if frames[0].hasTexture then 1 else 0) + FramesWithTexture(frames[1..])
  }

  /**
   * Retry until success: while every send fails the latch stays open and the
   * texture is re-sent on every frame in which it is ready.
   */
  lemma {:induction false} FailedSendsRetry(s: SyncState, id: int, spriteIndex: int, frames: seq<FrameInput>)
    requires !s.sentTexture
    requires forall i :: 0 <= i < |frames| ==> !frames[i].textureSendOk
    ensures !Run(s, id, spriteIndex, frames).state.sentTexture
    ensures Count(Run(s, id, spriteIndex, frames).sent, TextureTag) == FramesWithTexture(frames)
    decreases |frames|
  {
    if |frames| > 0 {
      var first := UpdateServer(s, id, spriteIndex, frames[0]);
      UpdateServerMessages(s, id, spriteIndex, frames[0]);
      FailedSendsRetry(first.state, id, spriteIndex, frames[1..]);
      CountAppend(first.sent, Run(first.state, id, spriteIndex, frames[1..]).sent, TextureTag);
    }
  }

  /** A first success closes the latch: the texture is sent once more at most, never after. */
  lemma SuccessLatches(s: SyncState, id: int, spriteIndex: int, f: FrameInput, later: seq<FrameInput>)
    requires !s.sentTexture && f.hasTexture && f.textureSendOk
    ensures Count(Run(s, id, spriteIndex, [f] + later).sent, TextureTag) == 1
  {
    var first := UpdateServer(s, id, spriteIndex, f);
    UpdateServerMessages(s, id, spriteIndex, f);
    assert ([f] + later)[0] == f && ([f] + later)[1..] == later;
    TextureNeverResent(first.state, id, spriteIndex, later);
    CountAppend(first.sent, Run(first.state, id, spriteIndex, later).sent, TextureTag);
  }
}
