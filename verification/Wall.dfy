/**
 * The video wall in its simple form: the clients of the windows from bottom to
 * top, the clients that have sound only, and those with a picture only.  No
 * decoders, no priorities and no IDs; each request is one step.
 */
module Wall {
  import opened TaskIds

  /** The parts of a request that decide how it goes. */
  datatype Request = Request(
    thirdId: nat,
    audioIn: nat,            // u8AudioIn
    voDevice: bool,          // the video output is the HDMI device
    cropLegal: bool,         // DP_MediaClient_CheckCropDateIsIegitimate
    voChannel: bool)         // u8VoChnID is ID_VO_CHN_VIDEOOUT1
  {
    predicate Legal() { voDevice && cropLegal && voChannel }
  }

  /** The requests of the clients. */
  datatype Action =
    | Create(r: Request)
    | OpenAndMove(r: Request)
    | Move(r: Request)
    | Close(thirdId: nat)
    | Clear(taskType: nat)
    | OpenSound(thirdId: nat, ch: Channel)
    | CloseSound(thirdId: nat, ch: Channel)

  /** u8AoChnID; the two outputs there are, and anything else. */
  datatype Channel = VideoOut1 | LineOut1 | OtherChannel

  /** Whose sound an output that has been opened plays: nobody's once that task has ended. */
  datatype Holder = Client(id: nat) | Nobody

  datatype Wall = Wall(windows: seq<nat>, sounds: set<nat>, videos: set<nat>, outputs: map<Channel, Holder>) {
    predicate Has(t: nat) { t in windows || t in sounds || t in videos }
  }

  /** How many windows and sounds there can be. */
  datatype Room = Room(windows: nat, sounds: nat)

  function Opened(w: Wall, r: Request, room: Room): Wall {
    if r.audioIn > 1 || w.Has(r.thirdId) || |w.windows| >= room.windows || !r.Legal() then w
    else w.(windows := w.windows + [r.thirdId])
  }

  function Lifted(w: Wall, t: nat): Wall {
    w.(windows := Without(w.windows, t) + [t])
  }

  /** A sound on an output that plays takes the place of the one that played. */
  function Sounded(w: Wall, t: nat, ch: Channel, room: Room): Wall {
    if w.Has(t) || ch == OtherChannel then w
    else if ch in w.outputs then
      match w.outputs[ch]
      case Client(c) => w.(sounds := w.sounds - {c} + {t}, outputs := w.outputs[ch := Client(t)])
      case Nobody => w
    else if |w.sounds| >= room.sounds then w
    else w.(sounds := w.sounds + {t}, outputs := w.outputs[ch := Client(t)])
  }

  /** The client's sound ends; it is the output named that is forgotten. */
  function Silenced(w: Wall, t: nat, ch: Channel): Wall {
    w.(sounds := w.sounds - {t},
       outputs := map o | o in w.outputs && o != ch :: if w.outputs[o] == Client(t) then Nobody else w.outputs[o])
  }

  function Acted(w: Wall, a: Action, room: Room): Wall {
    match a
    case Create(r) => Opened(w, r, room)
    case OpenAndMove(r) => if r.thirdId in w.windows then Lifted(w, r.thirdId) else Opened(w, r, room)
    case Move(r) => if r.thirdId in w.windows && r.voDevice && r.cropLegal then Lifted(w, r.thirdId) else w
    case Close(t) => w.(windows := Without(w.windows, t))
    case Clear(taskType) =>
      if taskType == 0 then w.(windows := [], videos := {})
      else if taskType == 2 then Wall([], {}, {}, map o | o in w.outputs :: Nobody)
      else w
    case OpenSound(t, ch) => Sounded(w, t, ch, room)
    case CloseSound(t, ch) => if w.Has(t) then Silenced(w, t, ch) else w
  }

  /**
   * The requests that keep the list: raising and closing name windows, windows
   * are cleared with the rest, and a sound is opened while no output is held by
   * a task that has ended.
   */
  predicate Fits(w: Wall, a: Action) {
    match a
    case OpenAndMove(r) => w.Has(r.thirdId) ==> r.Legal() && r.thirdId in w.windows
    case Move(r) => w.Has(r.thirdId) && r.voDevice && r.cropLegal ==> r.thirdId in w.windows
    case Close(t) => w.Has(t) ==> t in w.windows
    case Clear(taskType) => taskType == 0 || taskType == 2
    case OpenSound(t, ch) =>
      w.Has(t) || ch == OtherChannel || forall o :: o in w.outputs ==> w.outputs[o].Client?
    case CloseSound(t, ch) => w.Has(t) ==> ch != OtherChannel
    case _ => true
  }

  function Replay(w: Wall, actions: seq<Action>, room: Room): Wall {
    if actions == [] then w else Acted(Replay(w, actions[..|actions| - 1], room), actions[|actions| - 1], room)
  }

  lemma ReplayNone(w: Wall, actions: seq<Action>, room: Room)
    ensures Replay(w, actions[..0], room) == w
  {
  }

  lemma ReplayStep(w: Wall, actions: seq<Action>, room: Room, i: nat)
    requires i < |actions|
    ensures Replay(w, actions[..i + 1], room) == Acted(Replay(w, actions[..i], room), actions[i], room)
  {
    assert actions[..i + 1][..i] == actions[..i];
  }

  /** Each client has one place, and no more than there is room for. */
  ghost predicate Orderly(w: Wall, room: Room) {
    && NoDuplicates(w.windows) && |w.windows| <= room.windows && |w.sounds| <= room.sounds
    && (forall t :: t in w.windows ==> t !in w.sounds && t !in w.videos)
    && w.sounds !! w.videos
    && (forall o :: o in w.outputs && w.outputs[o].Client? ==> w.outputs[o].id in w.sounds)
  }

  // ------------------------------------------------- what a request does

  /** Window t is on top, and below it the others stand as before. */
  ghost predicate OnTop(before: seq<nat>, after: seq<nat>, t: nat) {
    && (t !in before ==> after == before + [t])
    && (t in before ==> exists k :: 0 <= k < |before| && before[k] == t && after == before[..k] + before[k + 1..] + [t])
  }

  ghost predicate WindowsOnly(before: Wall, after: Wall) {
    after.sounds == before.sounds && after.videos == before.videos && after.outputs == before.outputs
  }

  /** A legal request of a client without a task opens a window on top while there is room; any other is refused. */
  lemma CreateDoes(w: Wall, r: Request, room: Room)
    requires Orderly(w, room)
    ensures var after := Acted(w, Create(r), room);
            && (r.thirdId !in w.windows && r.thirdId in after.windows <==>
                  !w.Has(r.thirdId) && r.audioIn <= 1 && |w.windows| < room.windows
                  && r.voDevice && r.cropLegal && r.voChannel)
            && WindowsOnly(w, after) && (after == w || OnTop(w.windows, after.windows, r.thirdId))
  {
  }

  lemma LiftedOnTop(s: seq<nat>, t: nat)
    requires NoDuplicates(s) && t in s
    ensures OnTop(s, Without(s, t) + [t], t)
  {
    var k :| 0 <= k < |s| && s[k] == t;
    WithoutAt(s, k);
  }

  /** Raising a window puts it on top, and nothing else is changed. */
  lemma RaiseDoes(w: Wall, r: Request, room: Room)
    requires Orderly(w, room) && r.thirdId in w.windows
    ensures var after := Acted(w, OpenAndMove(r), room);
            OnTop(w.windows, after.windows, r.thirdId) && WindowsOnly(w, after)
    ensures var after := Acted(w, Move(r), room);
            if r.voDevice && r.cropLegal then OnTop(w.windows, after.windows, r.thirdId) && WindowsOnly(w, after)
            else after == w
  {
    LiftedOnTop(w.windows, r.thirdId);
    hide OnTop;
  }

  /** A client without a window opens one where it would raise it, and is refused where it may only raise. */
  lemma RaiseWithout(w: Wall, r: Request, room: Room)
    requires r.thirdId !in w.windows
    ensures Acted(w, OpenAndMove(r), room) == Acted(w, Create(r), room) && Acted(w, Move(r), room) == w
  {
  }

  /** Closing takes the window out of the list; of a client without one it changes nothing. */
  lemma CloseDoes(w: Wall, t: nat, room: Room)
    requires Orderly(w, room)
    ensures var after := Acted(w, Close(t), room);
            && WindowsOnly(w, after) && (t !in w.windows ==> after == w)
            && forall k :: 0 <= k < |w.windows| && w.windows[k] == t ==>
                 after.windows == w.windows[..k] + w.windows[k + 1..]
  {
    if t in w.windows {
      var k :| 0 <= k < |w.windows| && w.windows[k] == t;
      WithoutAt(w.windows, k);
    } else {
      WithoutAbsent(w.windows, t);
    }
  }

  /** Closing the window that has just been opened leaves the wall as it was. */
  lemma CloseUndoesCreate(w: Wall, r: Request, room: Room)
    requires Orderly(w, room) && !w.Has(r.thirdId)
    ensures Acted(Acted(w, Create(r), room), Close(r.thirdId), room) == w
  {
    hide Without;
    WithoutLast(w.windows, r.thirdId);
    WithoutAbsent(w.windows, r.thirdId);
  }

  /** Clearing takes away every window and picture, and with type 2 every sound. */
  lemma ClearDoes(w: Wall, room: Room, taskType: nat)
    requires taskType == 0 || taskType == 2
    ensures var after := Acted(w, Clear(taskType), room);
            && (forall t :: after.Has(t) <==> taskType == 0 && t in w.sounds)
            && after.outputs.Keys == w.outputs.Keys
            && forall o :: o in w.outputs ==> after.outputs[o] == if taskType == 0 then w.outputs[o] else Nobody
  {
    var after := Acted(w, Clear(taskType), room);
    assert taskType == 2 ==> after == Wall([], {}, {}, map o | o in w.outputs :: Nobody);
  }

  /**
   * A sound opens for a client without a task on one of the two outputs: on a
   * free one if there is room, on another if that is somebody's.
   */
  lemma OpenSoundIff(w: Wall, t: nat, ch: Channel, room: Room)
    ensures var after := Acted(w, OpenSound(t, ch), room);
            && (!w.Has(t) ==>
                  (t in after.sounds <==>
                     ch != OtherChannel
                     && if ch in w.outputs then w.outputs[ch] != Nobody else |w.sounds| < room.sounds))
            && (w.Has(t) || t !in after.sounds ==> after == w)
  {
  }

  /** Exactly the client that the output played loses its sound, and nothing else has changed. */
  lemma OpenSoundDoes(w: Wall, t: nat, ch: Channel, room: Room)
    requires Orderly(w, room) && !w.Has(t) && t in Acted(w, OpenSound(t, ch), room).sounds
    ensures var after := Acted(w, OpenSound(t, ch), room);
            && after.windows == w.windows && after.videos == w.videos
            && after.outputs == w.outputs[ch := Client(t)]
            && (forall u :: u in after.sounds && u !in w.sounds <==> u == t)
            && forall u :: u in w.sounds && u !in after.sounds <==> ch in w.outputs && w.outputs[ch] == Client(u)
  {
    OutputsHeld(w, ch, room);
    hide Orderly;
    if ch in w.outputs {
      var c := w.outputs[ch].id;
      assert Acted(w, OpenSound(t, ch), room).sounds == w.sounds - {c} + {t};
    } else {
      assert Acted(w, OpenSound(t, ch), room).sounds == w.sounds + {t};
    }
  }

  lemma OutputsHeld(w: Wall, ch: Channel, room: Room)
    requires Orderly(w, room)
    ensures ch in w.outputs && w.outputs[ch].Client? ==> w.outputs[ch].id in w.sounds
  {
    hide NoDuplicates;
  }

  /** The client's sound ends and the output named is forgotten; another that played the client plays nobody. */
  lemma CloseSoundDoes(w: Wall, t: nat, ch: Channel, room: Room)
    ensures var after := Acted(w, CloseSound(t, ch), room);
            && after.windows == w.windows && after.videos == w.videos && (!w.Has(t) ==> after == w)
            && (w.Has(t) ==>
                  && (forall u :: u in after.sounds <==> u in w.sounds && u != t)
                  && (forall o :: o in after.outputs <==> o in w.outputs && o != ch)
                  && forall o :: o in after.outputs ==>
                       after.outputs[o] == if w.outputs[o] == Client(t) then Nobody else w.outputs[o])
  {
  }

  /** Closing the sound that has just been opened on a free output leaves the wall as it was. */
  lemma CloseUndoesSound(w: Wall, t: nat, ch: Channel, room: Room)
    requires Orderly(w, room) && !w.Has(t) && ch !in w.outputs && ch != OtherChannel && |w.sounds| < room.sounds
    ensures Acted(Acted(w, OpenSound(t, ch), room), CloseSound(t, ch), room) == w
  {
    var after := Acted(Acted(w, OpenSound(t, ch), room), CloseSound(t, ch), room);
    assert after.outputs == w.outputs;
    assert after.sounds == w.sounds;
  }

  /**
   * On a wall of windows every request fits but an illegal raise, a clearing of
   * the sounds alone and a mute on no output.
   */
  lemma WindowsFit(w: Wall, a: Action)
    requires w.sounds == w.videos == {} && w.outputs == map[]
    ensures Fits(w, a) <==>
              match a
              case OpenAndMove(r) => r.thirdId in w.windows ==> r.voDevice && r.cropLegal && r.voChannel
              case Clear(taskType) => taskType == 0 || taskType == 2
              case CloseSound(t, ch) => t in w.windows ==> ch != OtherChannel
              case _ => true
  {
  }

  /** A client with another task cannot raise or close; a sound opens only if every output is somebody's. */
  lemma SoundsFit(w: Wall, t: nat, ch: Channel, r: Request)
    requires t == r.thirdId && t !in w.windows
    ensures Fits(w, Create(r)) && (Fits(w, OpenAndMove(r)) <==> !w.Has(t)) && (Fits(w, Close(t)) <==> !w.Has(t))
    ensures Fits(w, Move(r)) <==> !w.Has(t) || !r.voDevice || !r.cropLegal
    ensures Fits(w, CloseSound(t, ch)) <==> !w.Has(t) || ch != OtherChannel
    ensures Fits(w, OpenSound(t, ch))
       <==> w.Has(t) || ch == OtherChannel || !exists o :: o in w.outputs && w.outputs[o] == Nobody
  {
  }

  /** Erasing an element is cutting out its place. */
  lemma {:induction false} WithoutAt(s: seq<nat>, k: nat)
    requires NoDuplicates(s) && k < |s|
    ensures Without(s, s[k]) == s[..k] + s[k + 1..]
  {
    if k > 0 {
      WithoutAt(s[1..], k - 1);
      assert s[..k] == [s[0]] + s[1..][..k - 1];
    }
  }

  lemma {:induction false} WithoutAbsent(s: seq<nat>, x: nat)
    requires x !in s
    ensures Without(s, x) == s
  {
    if s != [] {
      WithoutAbsent(s[1..], x);
    }
  }
}
