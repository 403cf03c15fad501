/**
 * The handlers that open, raise, close and clear the windows of a video wall
 * and its sounds: tasks, decoders and the vector of priorities have to fit
 * together, and what the clients see is one list of windows.
 */
module WindowStack {
  import opened TaskIds
  import opened Wall
  import opened WindowOrder

  const DP_ERR_STATE_ABNORMAL: nat := 0xC001
  const DP_ERR_VO_ID_INVALID: nat := 0x8902
  const DP_ERR_TASK_PARAM_ILLEGAL: nat := 0xC803

  // ------------------------------------------------ decoders and tasks

  /** Open decoders are those of the clients' tasks; shown ones are the open windows. */
  ghost predicate Linked(decoders: seq<Decoder>, third: map<nat, nat>) {
    forall i :: 0 <= i < |decoders| ==>
      && (decoders[i].open != 0 <==> decoders[i].taskId in third.Values)
      && (decoders[i].bSwms <==> decoders[i].open != 0 && decoders[i].bind == AdecToAoVdecToVo)
  }

  /** The table of decoders, and where each ID is found in it. */
  ghost predicate Slots(decoders: seq<Decoder>, slots: map<nat, nat>) {
    && Table(decoders)
    && (forall i :: 0 <= i < |decoders| ==> decoders[i].taskId in slots && slots[decoders[i].taskId] == i)
    && (forall x :: x in slots ==> slots[x] < |decoders| && decoders[slots[x]].taskId == x)
  }

  ghost predicate SameTable(before: seq<Decoder>, after: seq<Decoder>) {
    && |after| == |before|
    && forall i :: 0 <= i < |before| ==> after[i].taskId == before[i].taskId && after[i].bind == before[i].bind
  }

  lemma SlotsKept(before: seq<Decoder>, after: seq<Decoder>, slots: map<nat, nat>)
    requires Slots(before, slots) && SameTable(before, after)
    ensures Slots(after, slots)
  {
  }

  lemma SlotsSame(before: seq<Decoder>, after: seq<Decoder>, slots: map<nat, nat>)
    requires Slots(before, slots) && Slots(after, slots)
    ensures SameTable(before, after)
  {
    assert forall i :: 0 <= i < |before| ==> slots[before[i].taskId] == i;
    assert forall i :: 0 <= i < |after| ==> slots[after[i].taskId] == i;
    assert before != [] ==> slots[before[|before| - 1].taskId] < |after|;
    assert after != [] ==> slots[after[|after| - 1].taskId] < |before|;
  }

  lemma LinkedRenumbered(before: seq<Decoder>, after: seq<Decoder>, it: nat, origin: nat, third: map<nat, nat>)
    requires Renumbered(before, after, it, origin)
    ensures SameTable(before, after)
    ensures Linked(after, third) <==> Linked(before, third)
  {
    assert forall i :: 0 <= i < |before| ==> after[i] == before[i].(priority := after[i].priority);
  }

  /** What moving does to the list, for a window and for a decoder that is not shown. */
  lemma MoveOutcome(decoders: seq<Decoder>, z: seq<nat>, slots: map<nat, nat>, third: map<nat, nat>, it: nat,
                    after: seq<Decoder>)
    requires Represents(decoders, z) && Slots(decoders, slots) && Linked(decoders, third)
    requires it < |decoders| < U32 && z != []
    requires Renumbered(decoders[it := decoders[it].(priority := |z| - 1)], after, it, decoders[it].priority)
    ensures |after| == |decoders| && Slots(after, slots) && Linked(after, third)
    ensures decoders[it].bSwms ==>
              var p := decoders[it].priority;
              p < |z| && z[p] == it && |Raised(z, p)| == |z| && Represents(after, Raised(z, p))
    ensures !decoders[it].bSwms && decoders[it].priority >= |z| ==> Represents(after, z)
    ensures !decoders[it].bSwms && decoders[it].priority < |z| ==> forall z' :: !Represents(after, z')
  {
    var d := decoders[it].(priority := |z| - 1);
    LinkedRenumbered(decoders[it := d], after, it, decoders[it].priority, third);
    SlotsKept(decoders, after, slots);
    PlacesCount(decoders, z);
    if decoders[it].bSwms {
      MoveRepresents(decoders, z, it, d, after);
    } else if decoders[it].priority >= |z| {
      HighStranger(decoders, z, it, d, after, decoders[it].priority);
    } else {
      forall z' ensures !Represents(after, z') {
        MovedStranger(decoders, z, it, d, after, z');
      }
    }
  }

  /** What handing a decoder's task over does to the links. */
  lemma ShiftOutcome(decoders: seq<Decoder>, slots: map<nat, nat>, third: map<nat, nat>, used: seq<nat>, t: nat, s: nat,
                     d: Decoder)
    requires Slots(decoders, slots) && Linked(decoders, third) && MapsInto(third, used) && AllServed(third, used)
    requires s < |decoders| && t !in third
    requires d == decoders[s].(open := if decoders[s].bind == AdecToAo then 1 else 0)
    ensures SameTable(decoders, decoders[s := d])
    ensures decoders[s].taskId in used ==>
              (Linked(decoders[s := d], HandedOver(third, t, decoders[s].taskId)) <==> BindOf(decoders[s].taskId) == AdecToAo)
  {
    var id := decoders[s].taskId;
    var third' := HandedOver(third, t, id);
    if id in used {
      assert third'[t] == id;
      forall x ensures x in third'.Values <==> x in third.Values {
        if x in third.Values && x != id {
          var u :| u in third && third[u] == x;
          assert third'[u] == x;
        }
      }
      assert decoders[s := d][s] == d;
    }
  }

  /** Opening a task opens its decoder. */
  lemma LinkedOpen(decoders: seq<Decoder>, slots: map<nat, nat>, third: map<nat, nat>, t: nat, s: nat, d: Decoder)
    requires Slots(decoders, slots) && Linked(decoders, third) && s < |decoders| && t !in third
    requires d.taskId == decoders[s].taskId && d.bind == decoders[s].bind && d.open != 0
    requires d.bSwms <==> d.bind == AdecToAoVdecToVo
    ensures Linked(decoders[s := d], third[t := d.taskId])
  {
    var third' := third[t := d.taskId];
    assert t in third' && third'[t] == d.taskId;
    forall x ensures x in third'.Values <==> x in third.Values || x == d.taskId {
      if x in third.Values {
        var u :| u in third && third[u] == x;
        assert u in third' && third'[u] == x;
      }
    }
  }

  lemma ValuesAfterRemove(third: map<nat, nat>, used: seq<nat>, t: nat)
    requires MapsInto(third, used) && t in third
    ensures forall x :: x in (third - {t}).Values <==> x in third.Values && x != third[t]
  {
    forall x ensures x in (third - {t}).Values <==> x in third.Values && x != third[t] {
      if x in third.Values && x != third[t] {
        var u :| u in third && third[u] == x;
        assert u in third - {t} && (third - {t})[u] == x;
      }
    }
  }

  /** Closing a task closes its decoder. */
  lemma LinkedClose(decoders: seq<Decoder>, slots: map<nat, nat>, third: map<nat, nat>, used: seq<nat>,
                    t: nat, s: nat, d: Decoder)
    requires Slots(decoders, slots) && Linked(decoders, third) && MapsInto(third, used)
    requires t in third && s < |decoders| && third[t] == decoders[s].taskId
    requires d.taskId == decoders[s].taskId && d.bind == decoders[s].bind && d.open == 0 && !d.bSwms
    ensures Linked(decoders[s := d], third - {t})
    ensures !Linked(decoders, third - {t})
  {
    ValuesAfterRemove(third, used, t);
    assert decoders[s].open != 0;
  }

  // ------------------------------------------------------ the wall shown

  /** The clients of the windows, in their places. */
  ghost predicate Named(decoders: seq<Decoder>, z: seq<nat>, third: map<nat, nat>, windows: seq<nat>) {
    && |windows| == |z|
    && forall k :: 0 <= k < |z| ==>
         z[k] < |decoders| && windows[k] in third && third[windows[k]] == decoders[z[k]].taskId
  }

  /** The clients whose tasks are of a kind. */
  function ClientsOf(third: map<nat, nat>, bind: BindType): set<nat> {
    set t | t in third && BindOf(third[t]) == bind
  }

  /** The clients of a kind are as many as the IDs of its pool in use. */
  lemma ClientsCount(third: map<nat, nat>, used: seq<nat>, pool: seq<nat>, bind: BindType)
    requires MapsInto(third, used) && AllServed(third, used)
    requires forall x :: x in used ==> (x in pool <==> BindOf(x) == bind)
    ensures |ClientsOf(third, bind)| == |InUse(pool, used)|
  {
    ImageCount(third, used, ClientsOf(third, bind));
    forall x | x in InUse(pool, used) ensures x in IdsTo(third, ClientsOf(third, bind)) {
      var t :| t in third && third[t] == x;
      assert t in ClientsOf(third, bind);
    }
    assert IdsTo(third, ClientsOf(third, bind)) == InUse(pool, used);
  }

  ghost function IdsTo(third: map<nat, nat>, clients: set<nat>): set<nat> {
    set t | t in clients && t in third :: third[t]
  }

  lemma {:induction false} ImageCount(third: map<nat, nat>, used: seq<nat>, clients: set<nat>)
    requires MapsInto(third, used) && forall t :: t in clients ==> t in third
    ensures |IdsTo(third, clients)| == |clients|
  {
    if clients != {} {
      var u :| u in clients;
      ImageCount(third, used, clients - {u});
      assert IdsTo(third, clients) == IdsTo(third, clients - {u}) + {third[u]};
    }
  }

  /** The clients of a list of open windows. */
  ghost function NamesOf(decoders: seq<Decoder>, z: seq<nat>, third: map<nat, nat>): (windows: seq<nat>)
    requires Represents(decoders, z) && Linked(decoders, third)
    ensures Named(decoders, z, third, windows)
  {
    seq(|z|, k requires 0 <= k < |z| => ClientOf(third, decoders[z[k]].taskId))
  }

  ghost function ClientOf(third: map<nat, nat>, id: nat): (t: nat)
    requires id in third.Values
    ensures t in third && third[t] == id
  {
    var t :| t in third && third[t] == id;
    t
  }

  lemma NamedOnce(decoders: seq<Decoder>, z: seq<nat>, slots: map<nat, nat>, third: map<nat, nat>, windows: seq<nat>)
    requires Represents(decoders, z) && Slots(decoders, slots) && Named(decoders, z, third, windows)
    ensures NoDuplicates(windows)
  {
    forall i, j | 0 <= i < j < |windows| ensures windows[i] != windows[j] {
      assert decoders[z[i]].priority == i && decoders[z[j]].priority == j;
    }
  }

  /** The windows are those of the clients with tasks for both picture and sound. */
  lemma NamedAre(decoders: seq<Decoder>, z: seq<nat>, slots: map<nat, nat>, third: map<nat, nat>, used: seq<nat>,
                 windows: seq<nat>)
    requires Represents(decoders, z) && Slots(decoders, slots) && Linked(decoders, third) && MapsInto(third, used)
    requires Named(decoders, z, third, windows) && forall x :: x in used ==> x in slots
    ensures forall t :: t in windows <==> t in ClientsOf(third, AdecToAoVdecToVo)
  {
    forall t | t in windows ensures t in ClientsOf(third, AdecToAoVdecToVo) {
      var k :| 0 <= k < |windows| && windows[k] == t;
      assert decoders[z[k]].bSwms;
    }
    forall t | t in ClientsOf(third, AdecToAoVdecToVo) ensures t in windows {
      var i := slots[third[t]];
      assert decoders[i].taskId in third.Values && decoders[i].bSwms;
      assert z[decoders[i].priority] == i;
      assert windows[decoders[i].priority] == t;
    }
  }

  /** The place of a window's client. */
  lemma NamedAt(decoders: seq<Decoder>, z: seq<nat>, third: map<nat, nat>, used: seq<nat>, windows: seq<nat>,
                t: nat, k: nat)
    requires MapsInto(third, used) && Named(decoders, z, third, windows)
    requires t in third && k < |z| && z[k] < |decoders| && decoders[z[k]].taskId == third[t]
    ensures k < |windows| && windows[k] == t
  {
  }

  lemma NamedOpened(decoders: seq<Decoder>, z: seq<nat>, third: map<nat, nat>, windows: seq<nat>, after: seq<Decoder>,
                    it: nat, t: nat)
    requires Named(decoders, z, third, windows) && SameTable(decoders, after) && it < |after| && t !in third
    ensures Named(after, z + [it], third[t := after[it].taskId], windows + [t])
  {
  }

  lemma NamedLifted(decoders: seq<Decoder>, z: seq<nat>, third: map<nat, nat>, windows: seq<nat>, after: seq<Decoder>,
                    k: nat)
    requires Named(decoders, z, third, windows) && SameTable(decoders, after) && k < |z| && NoDuplicates(windows)
    ensures Named(after, Raised(z, k), third, Without(windows, windows[k]) + [windows[k]])
  {
    WithoutAt(windows, k);
  }

  lemma NamedClosed(decoders: seq<Decoder>, z: seq<nat>, third: map<nat, nat>, windows: seq<nat>, after: seq<Decoder>,
                    k: nat)
    requires Named(decoders, z, third, windows) && SameTable(decoders, after) && k < |z| && NoDuplicates(windows)
    ensures Named(after, Removed(z, k), third - {windows[k]}, Without(windows, windows[k]))
  {
    WithoutAt(windows, k);
    assert forall j :: 0 <= j < |z| && j != k ==> windows[j] != windows[k];
  }

  /** Tasks of other kinds come and go beside the windows. */
  lemma NamedBeside(decoders: seq<Decoder>, z: seq<nat>, third: map<nat, nat>, windows: seq<nat>, after: seq<Decoder>,
                    third': map<nat, nat>)
    requires Named(decoders, z, third, windows) && SameTable(decoders, after)
    requires forall t :: t in third && t in windows ==> t in third' && third'[t] == third[t]
    ensures Named(after, z, third', windows)
  {
  }

  lemma ClientsAdd(third: map<nat, nat>, t: nat, x: nat, bind: BindType)
    requires t !in third
    ensures ClientsOf(third[t := x], bind) == ClientsOf(third, bind) + if BindOf(x) == bind then {t} else {}
  {
  }

  lemma ClientsDrop(third: map<nat, nat>, t: nat, bind: BindType)
    ensures ClientsOf(third - {t}, bind) == ClientsOf(third, bind) - {t}
  {
  }

  /** Ending a sound ends no picture. */
  lemma ClientsMute(third: map<nat, nat>, t: nat)
    ensures var sound := t in third && BindOf(third[t]) == AdecToAo;
            var third' := if sound then third - {t} else third;
            && ClientsOf(third', AdecToAo) == ClientsOf(third, AdecToAo) - {t}
            && ClientsOf(third', VdecToVo) == ClientsOf(third, VdecToVo)
  {
  }

  /** An ID in use is of one of the three kinds, and of the pool of its kind. */
  lemma KindsOfUsed(audio: seq<nat>, video: seq<nat>, auVi: seq<nat>, used: seq<nat>)
    requires Pools(audio, video, auVi) && UsedFrom(used, audio, video, auVi)
    ensures forall x :: x in used ==>
              && (x in audio <==> BindOf(x) == AdecToAo)
              && (x in auVi <==> BindOf(x) == AdecToAoVdecToVo)
              && BindOf(x) != Other
  {
  }

  // -------------------------------------------------- the sound outputs

  /** The outputs name audio decoders, no two the same. */
  ghost predicate Speakers(outputs: map<Channel, nat>, slots: map<nat, nat>) {
    && (forall o :: o in outputs ==> outputs[o] in slots && BindOf(outputs[o]) == AdecToAo)
    && (forall o, p :: o in outputs && p in outputs && outputs[o] == outputs[p] ==> o == p)
  }

  ghost function HolderOf(third: map<nat, nat>, id: nat): Holder {
    if id in third.Values then Client(ClientOf(third, id)) else Nobody
  }

  ghost function Holders(third: map<nat, nat>, outputs: map<Channel, nat>): map<Channel, Holder> {
    map o | o in outputs :: HolderOf(third, outputs[o])
  }

  lemma HolderIs(third: map<nat, nat>, used: seq<nat>, t: nat)
    requires MapsInto(third, used) && t in third
    ensures HolderOf(third, third[t]) == Client(t)
  {
  }

  /** Tasks of other kinds come and go beside the outputs. */
  lemma HoldersBeside(third: map<nat, nat>, used: seq<nat>, third': map<nat, nat>, used': seq<nat>,
                      outputs: map<Channel, nat>, slots: map<nat, nat>)
    requires MapsInto(third, used) && MapsInto(third', used') && Speakers(outputs, slots)
    requires forall t :: t in third && BindOf(third[t]) == AdecToAo ==> t in third' && third'[t] == third[t]
    requires forall t :: t in third' && BindOf(third'[t]) == AdecToAo ==> t in third && third'[t] == third[t]
    ensures Holders(third', outputs) == Holders(third, outputs)
  {
    forall o | o in outputs ensures HolderOf(third', outputs[o]) == HolderOf(third, outputs[o]) {
      HolderElsewhere(third, used, third', used', outputs[o]);
    }
  }

  /** An output's new task, and the others as they were. */
  lemma HoldersOpened(third: map<nat, nat>, used: seq<nat>, used': seq<nat>, outputs: map<Channel, nat>, ch: Channel,
                      t: nat, id: nat)
    requires MapsInto(third, used) && MapsInto(third[t := id], used') && t !in third && id !in used
    requires forall o :: o in outputs ==> outputs[o] in third.Values
    ensures Holders(third[t := id], outputs[ch := id]) == Holders(third, outputs)[ch := Client(t)]
    ensures forall o :: o in outputs ==> outputs[o] != id
  {
    var third' := third[t := id];
    HolderIs(third', used', t);
    forall o | o in outputs ensures HolderOf(third', outputs[o]) == HolderOf(third, outputs[o]) && outputs[o] != id {
      var u :| u in third && third[u] == outputs[o];
      HolderIs(third, used, u);
      HolderIs(third', used', u);
    }
  }

  lemma SpeakersOpened(outputs: map<Channel, nat>, slots: map<nat, nat>, ch: Channel, id: nat)
    requires Speakers(outputs, slots) && id in slots && BindOf(id) == AdecToAo
    requires forall o :: o in outputs ==> outputs[o] != id
    ensures Speakers(outputs[ch := id], slots)
  {
  }

  /** An output's task in other hands. */
  lemma HoldersShifted(third: map<nat, nat>, used: seq<nat>, outputs: map<Channel, nat>, ch: Channel, slots: map<nat, nat>,
                       c: nat, t: nat)
    requires MapsInto(third, used) && Speakers(outputs, slots) && ch in outputs
    requires c in third && third[c] == outputs[ch] && t !in third
    ensures HandedOver(third, t, outputs[ch]) == (third - {c})[t := outputs[ch]]
    ensures Holders(HandedOver(third, t, outputs[ch]), outputs) == Holders(third, outputs)[ch := Client(t)]
  {
    var third' := HandedOver(third, t, outputs[ch]);
    HandOverKeeps(third, used, t, outputs[ch]);
    assert third' == (third - {c})[t := outputs[ch]];
    assert third[c] in used;
    HolderIs(third', used, t);
    forall o | o in outputs && o != ch ensures HolderOf(third', outputs[o]) == HolderOf(third, outputs[o]) {
      assert outputs[o] != outputs[ch];
      HolderElsewhere(third, used, third', used, outputs[o]);
    }
  }

  /** Clients of other IDs do not matter. */
  lemma HolderElsewhere(third: map<nat, nat>, used: seq<nat>, third': map<nat, nat>, used': seq<nat>, id: nat)
    requires MapsInto(third, used) && MapsInto(third', used')
    requires forall u :: u in third && third[u] == id ==> u in third' && third'[u] == id
    requires forall u :: u in third' && third'[u] == id ==> u in third && third[u] == id
    ensures HolderOf(third', id) == HolderOf(third, id)
  {
    if id in third.Values {
      var u :| u in third && third[u] == id;
      HolderIs(third, used, u);
      HolderIs(third', used', u);
    }
  }

  /** A client's sound ends; one output is forgotten. */
  lemma HoldersClosed(third: map<nat, nat>, used: seq<nat>, third': map<nat, nat>, used': seq<nat>,
                      outputs: map<Channel, nat>, ch: Channel, slots: map<nat, nat>, t: nat)
    requires MapsInto(third, used) && MapsInto(third', used') && Speakers(outputs, slots) && t in third
    requires third' == if BindOf(third[t]) == AdecToAo then third - {t} else third
    ensures Speakers(outputs - {ch}, slots)
    ensures var holders := Holders(third, outputs);
            Holders(third', outputs - {ch})
            == map o | o in holders && o != ch :: if holders[o] == Client(t) then Nobody else holders[o]
  {
    hide MapsInto, HolderOf, BindOf;
    forall o | o in outputs
      ensures HolderOf(third', outputs[o])
              == if HolderOf(third, outputs[o]) == Client(t) then Nobody else HolderOf(third, outputs[o])
    {
      HolderClosed(third, used, third', used', outputs[o], t);
    }
  }

  lemma HolderClosed(third: map<nat, nat>, used: seq<nat>, third': map<nat, nat>, used': seq<nat>, id: nat, t: nat)
    requires MapsInto(third, used) && MapsInto(third', used') && t in third && BindOf(id) == AdecToAo
    requires third' == if BindOf(third[t]) == AdecToAo then third - {t} else third
    ensures HolderOf(third', id) == if HolderOf(third, id) == Client(t) then Nobody else HolderOf(third, id)
  {
    HolderIs(third, used, t);
    if third[t] == id {
      assert third' == third - {t};
      assert id !in third'.Values;
    } else {
      HolderElsewhere(third, used, third', used', id);
    }
  }

  // ------------------------------------------------------- the handlers

  /** An unused ID of the window pool names a closed decoder. */
  lemma UnusedIsClosed(decoders: seq<Decoder>, slots: map<nat, nat>, third: map<nat, nat>, used: seq<nat>, id: nat)
    requires Slots(decoders, slots) && Linked(decoders, third) && MapsInto(third, used)
    requires id !in used && id in slots && BindOf(id) == AdecToAoVdecToVo
    ensures slots[id] < |decoders| && decoders[slots[id]].taskId == id
    ensures decoders[slots[id]].bind == AdecToAoVdecToVo
    ensures !decoders[slots[id]].bSwms && decoders[slots[id]].open == 0
  {
  }

  ghost function TableSlots(decoders: seq<Decoder>): map<nat, nat>
    requires Table(decoders)
  {
    map i | 0 <= i < |decoders| :: decoders[i].taskId := i
  }

  lemma InitialSlots(decoders: seq<Decoder>, slots: map<nat, nat>)
    requires Table(decoders) && slots == TableSlots(decoders)
    ensures Slots(decoders, slots)
    ensures forall x :: (x in IdsOf(decoders, AdecToAo) || x in IdsOf(decoders, VdecToVo)
                         || x in IdsOf(decoders, AdecToAoVdecToVo)) ==> x in slots
  {
    IdsOfMembers(decoders, AdecToAo);
    IdsOfMembers(decoders, VdecToVo);
    IdsOfMembers(decoders, AdecToAoVdecToVo);
  }

  lemma InitialServed(decoders: seq<Decoder>, third: map<nat, nat>)
    requires Table(decoders)
    ensures Linked(decoders, third) ==> AllServed(third, OpenIds(decoders))
  {
    OpenIdsMembers(decoders);
  }

  /** What closing does to the list, for a window and for a decoder that is not shown. */
  lemma CloseOutcome(decoders: seq<Decoder>, z: seq<nat>, slots: map<nat, nat>, third: map<nat, nat>, used: seq<nat>,
                     t: nat, it: nat, after: seq<Decoder>)
    requires Represents(decoders, z) && Slots(decoders, slots) && Linked(decoders, third) && MapsInto(third, used)
    requires it < |decoders| < U32 && t in third && third[t] == decoders[it].taskId
    requires Renumbered(decoders[it := decoders[it].(open := 0, bSwms := false)], after, it, decoders[it].priority)
    ensures |after| == |decoders| && Slots(after, slots) && Linked(after, third - {t})
    ensures decoders[it].bSwms ==>
              var p := decoders[it].priority;
              p < |z| && z[p] == it && |Removed(z, p)| == |z| - 1 && Represents(after, Removed(z, p))
    ensures !decoders[it].bSwms && z == [] ==> Represents(after, z)
    ensures !decoders[it].bSwms ==> forall z' :: Represents(after, z') ==> |z'| == |z|
  {
    var d := decoders[it].(open := 0, bSwms := false);
    LinkedClose(decoders, slots, third, used, t, it, d);
    LinkedRenumbered(decoders[it := d], after, it, decoders[it].priority, third - {t});
    SlotsKept(decoders, after, slots);
    PlacesCount(decoders, z);
    hide Linked, Slots;
    if decoders[it].bSwms {
      CloseRepresents(decoders, z, it, d, after);
    } else {
      if z == [] {
        HighStranger(decoders, z, it, d, after, decoders[it].priority);
      }
      StrangerShows(decoders, it, d, after, decoders[it].priority);
      forall z' | Represents(after, z') ensures |z'| == |z| {
        PlacesCount(after, z');
      }
    }
  }

  /** Showing a decoder that is no window, or dropping an open decoder's task, breaks the link. */
  lemma LinkBroken(decoders: seq<Decoder>, slots: map<nat, nat>, third: map<nat, nat>, used: seq<nat>, t: nat, it: nat,
                   d: Decoder)
    requires Slots(decoders, slots) && Linked(decoders, third) && MapsInto(third, used)
    requires it < |decoders| && t in third && third[t] == decoders[it].taskId
    ensures !Linked(decoders, third - {t})
    ensures d.bSwms && d.bind != AdecToAoVdecToVo ==> !Linked(decoders[it := d], third)
  {
    ValuesAfterRemove(third, used, t);
    assert decoders[it].taskId in third.Values;
    if d.bSwms && d.bind != AdecToAoVdecToVo {
      assert decoders[it := d][it] == d;
    }
  }

  /** The tasks that clearAllTask closes: 0 windows, 1 audio, 2 both. */
  predicate Cleared(bind: BindType, taskType: nat) {
    match taskType
    case 0 => bind == VdecToVo || bind == AdecToAoVdecToVo
    case 1 => bind == AdecToAo
    case 2 => bind != Other
    case _ => false
  }

  /** Windows and pictures are everything but the audio tasks. */
  lemma ClearedIs(bind: BindType, taskType: nat)
    requires bind != Other
    ensures Cleared(bind, taskType)
       <==> taskType == 2 || (taskType == 0 && bind != AdecToAo) || (taskType == 1 && bind == AdecToAo)
  {
  }

  function Closed(d: Decoder, taskType: nat): Decoder {
    if d.open != 0 && Cleared(d.bind, taskType) then d.(open := 0, bSwms := false) else d
  }

  /** The decoders after the first i of them have been visited. */
  ghost predicate ClearedTo(before: seq<Decoder>, after: seq<Decoder>, i: nat, taskType: nat) {
    && i <= |before| == |after|
    && forall j :: 0 <= j < |before| ==> after[j] == if j < i then Closed(before[j], taskType) else before[j]
  }

  /** The clients' tasks then: those of the closed decoders are gone. */
  ghost predicate TasksTo(before: map<nat, nat>, after: map<nat, nat>, slots: map<nat, nat>, i: nat, taskType: nat) {
    && (forall t :: t in before ==> before[t] in slots)
    && (forall t :: t in after ==> t in before && after[t] == before[t])
    && (forall t :: t in before ==>
          (t in after <==> !(slots[before[t]] < i && Cleared(BindOf(before[t]), taskType))))
  }

  /** One step of the loop of clearAllTask. */
  lemma ClearStep(before: seq<Decoder>, decoders: seq<Decoder>, slots: map<nat, nat>, before3: map<nat, nat>,
                  third: map<nat, nat>, used: seq<nat>, i: nat, taskType: nat, t: nat)
    requires Slots(before, slots) && Slots(decoders, slots) && Linked(decoders, third) && MapsInto(third, used)
    requires i < |before| && ClearedTo(before, decoders, i, taskType) && TasksTo(before3, third, slots, i, taskType)
    requires decoders[i].open != 0 && Cleared(decoders[i].bind, taskType)
    requires t in third && third[t] == decoders[i].taskId
    ensures var after := decoders[i := decoders[i].(bSwms := false, open := 0)];
            && ClearedTo(before, after, i + 1, taskType) && Slots(after, slots)
            && Linked(after, third - {t}) && TasksTo(before3, third - {t}, slots, i + 1, taskType)
  {
    var d := decoders[i].(bSwms := false, open := 0);
    LinkedClose(decoders, slots, third, used, t, i, d);
    SlotsKept(decoders, decoders[i := d], slots);
    hide Linked;
    assert decoders[i].bind == BindOf(third[t]);
  }

  lemma SkipStep(before: seq<Decoder>, decoders: seq<Decoder>, slots: map<nat, nat>, before3: map<nat, nat>,
                 third: map<nat, nat>, i: nat, taskType: nat)
    requires Slots(before, slots) && Linked(decoders, third)
    requires i < |before| && ClearedTo(before, decoders, i, taskType) && TasksTo(before3, third, slots, i, taskType)
    requires !(decoders[i].open != 0 && Cleared(decoders[i].bind, taskType))
    ensures ClearedTo(before, decoders, i + 1, taskType) && TasksTo(before3, third, slots, i + 1, taskType)
  {
    forall t | t in before3 && slots[before3[t]] == i
      ensures t in third <==> !Cleared(BindOf(before3[t]), taskType)
    {
      assert before[i].taskId == before3[t] && before[i].bind == BindOf(before3[t]);
      if t in third {
        assert before3[t] in third.Values;
      }
    }
  }

  /** What clearing does to the list. */
  lemma ClearOutcome(before: seq<Decoder>, after: seq<Decoder>, z: seq<nat>, third: map<nat, nat>, taskType: nat)
    requires Represents(before, z) && Linked(before, third) && ClearedTo(before, after, |before|, taskType)
    ensures taskType == 0 || taskType == 2 ==> Represents(after, [])
    ensures taskType != 0 && taskType != 2 ==> Represents(after, z) && forall z' :: Represents(after, z') ==> |z'| == |z|
  {
    if taskType != 0 && taskType != 2 {
      assert forall i :: 0 <= i < |before| ==>
          after[i].bSwms == before[i].bSwms && after[i].priority == before[i].priority;
      PlacesCount(before, z);
      assert Shown(after) == Shown(before);
      forall z' | Represents(after, z') ensures |z'| == |z| {
        PlacesCount(after, z');
      }
    }
  }

  lemma TasksAtStart(decoders: seq<Decoder>, slots: map<nat, nat>, third: map<nat, nat>, used: seq<nat>,
                     audio: seq<nat>, video: seq<nat>, auVi: seq<nat>, taskType: nat)
    requires MapsInto(third, used) && UsedFrom(used, audio, video, auVi)
    requires forall x :: x in audio || x in video || x in auVi ==> x in slots
    ensures ClearedTo(decoders, decoders, 0, taskType) && TasksTo(third, third, slots, 0, taskType)
  {
  }

  lemma TasksAtEnd(before3: map<nat, nat>, third: map<nat, nat>, slots: map<nat, nat>, before: seq<Decoder>, taskType: nat)
    requires Slots(before, slots) && TasksTo(before3, third, slots, |before|, taskType)
    ensures forall t :: t in before3 ==> (t in third <==> !Cleared(BindOf(before3[t]), taskType))
    ensures forall t :: t in third ==> t in before3 && third[t] == before3[t]
  {
  }

  lemma OpenHasTask(decoders: seq<Decoder>, third: map<nat, nat>, i: nat)
    requires Linked(decoders, third) && i < |decoders| && decoders[i].open != 0
    ensures exists t :: t in third && third[t] == decoders[i].taskId
  {
    assert decoders[i].taskId in third.Values;
  }

  lemma UnusedIsClosedAudio(decoders: seq<Decoder>, slots: map<nat, nat>, third: map<nat, nat>, used: seq<nat>, id: nat)
    requires Slots(decoders, slots) && Linked(decoders, third) && MapsInto(third, used)
    requires id !in used && id in slots && BindOf(id) == AdecToAo
    ensures slots[id] < |decoders| && decoders[slots[id]].taskId == id
    ensures decoders[slots[id]].bind == AdecToAo && !decoders[slots[id]].bSwms
  {
  }

  lemma LinkedSame(decoders: seq<Decoder>, third: map<nat, nat>, it: nat, d: Decoder)
    requires Linked(decoders, third) && it < |decoders|
    requires d.taskId == decoders[it].taskId && d.bind == decoders[it].bind && d.bSwms == decoders[it].bSwms
    requires d.open != 0 <==> decoders[it].open != 0
    ensures Linked(decoders[it := d], third)
  {
  }

  lemma RepresentsSame(decoders: seq<Decoder>, z: seq<nat>, it: nat, d: Decoder)
    requires Represents(decoders, z) && it < |decoders|
    requires d.bSwms == decoders[it].bSwms && d.priority == decoders[it].priority
    ensures Represents(decoders[it := d], z)
  {
  }

  lemma SlotOf(decoders: seq<Decoder>, slots: map<nat, nat>, it: nat)
    requires Slots(decoders, slots) && it < |decoders|
    ensures decoders[it].taskId in slots && slots[decoders[it].taskId] == it
  {
  }

  lemma WindowHasPlace(decoders: seq<Decoder>, z: seq<nat>, it: nat)
    requires Represents(decoders, z) && it < |decoders|
    ensures decoders[it].bSwms ==> z != []
  {
  }

  class LogicHandle {
    const ids: TaskIds
    var decoders: seq<Decoder>         // _vAVDecGetInfo
    var winPriority: seq<nat>          // _vWindowPriority
    var outputs: map<Channel, nat>     // _mAODevIDCodecID, by the channel that names the output
    ghost const slots: map<nat, nat>
    ghost var zOrder: seq<nat>         // slots of the open windows, bottom to top
    ghost var windows: seq<nat>        // their clients

    /** The tasks, the decoders and their table fit together. */
    ghost predicate Tasks()
      reads this, ids
    {
      && ids.Valid() && ids.Served() && Slots(decoders, slots) && |decoders| < U32
      && (forall x :: x in ids.audio || x in ids.video || x in ids.auVi ==> x in slots)
      && Linked(decoders, ids.third)
    }

    /** The ghost list of clients is that of the windows, and the outputs name audio decoders. */
    ghost predicate Shows()
      reads this, ids
    {
      Named(decoders, zOrder, ids.third, windows) && Speakers(outputs, slots)
    }

    /** The wall as the clients know it. */
    ghost function View(): Wall
      reads this, ids
    {
      Wall(windows, ClientsOf(ids.third, AdecToAo), ClientsOf(ids.third, VdecToVo), Holders(ids.third, outputs))
    }

    function Places(): Room
      reads this, ids
    {
      Room(|ids.auVi|, |ids.audio|)
    }

    ghost predicate Valid()
      reads this, ids
    {
      Tasks() && Represents(decoders, zOrder) && winPriority == UpTo(|zOrder|)
    }

    /**
     * The output node starts with the tasks recovered: their decoders are open,
     * and the priorities of the windows are sorted into the vector.
     */
    constructor (decoders: seq<Decoder>, recovered: map<nat, nat>, outputs: map<Channel, nat>)
      requires Table(decoders) && |decoders| < U32
      ensures fresh(ids) && this.decoders == decoders && ids.third == recovered && this.outputs == outputs
      ensures winPriority == Sort(Priorities(decoders))
      ensures Tasks() <==> MapsInto(recovered, OpenIds(decoders)) && Linked(decoders, recovered)
      ensures Valid() <==> Tasks() && exists z :: Represents(decoders, z)
      ensures Valid() && Speakers(outputs, slots) ==> Shows()
    {
      hide Represents, Linked, Slots, Pools, UsedFrom, Counted, AllServed, OpenIds, IdsOf, MapsInto, Table, Sort, Priorities,
           Speakers;
      ghost var m := TableSlots(decoders);
      InitialSlots(decoders, m);
      InitialServed(decoders, recovered);
      RecoveredIff(decoders);
      ghost var z: seq<nat> := [];
      ghost var names: seq<nat> := [];
      if y :| Represents(decoders, y) {
        z := y;
        names := if Linked(decoders, recovered) then NamesOf(decoders, z, recovered) else [];
      }
      ids := new TaskIds(decoders, recovered);
      this.decoders, this.outputs, zOrder, windows, slots := decoders, outputs, z, names, m;
      winPriority := [];
      new;
      RecoverPriorities();
      winPriority := Sort(winPriority);
    }

    /** The windows found open. */
    method RecoverPriorities()
      requires winPriority == []
      modifies `winPriority
      ensures winPriority == Priorities(decoders)
    {
      for i := 0 to |decoders|
        invariant winPriority == Priorities(decoders[..i])
      {
        assert decoders[..i + 1][..i] == decoders[..i];
        if decoders[i].bSwms {
          winPriority := winPriority + [decoders[i].priority];
        }
      }
      assert decoders[..|decoders|] == decoders;
    }

    /** `removeCodecTaskID` after a refused open: the allocation is undone. */
    method Refuse(thirdId: nat, ghost third0: map<nat, nat>, ghost used0: seq<nat>, ghost beUsed0: map<seq<nat>, nat>)
      requires ids.Valid() && thirdId in ids.third && thirdId !in third0
      requires var id := ids.third[thirdId];
               && ids.third == third0[thirdId := id] && id !in used0 && ids.used == used0 + [id]
               && ids.PoolOf(id) in beUsed0
               && ids.beUsed == beUsed0[ids.PoolOf(id) := beUsed0[ids.PoolOf(id)] + 1]
      modifies ids`used, ids`beUsed, ids`third
      ensures ids.Valid() && ids.third == third0 && ids.used == used0 && ids.beUsed == beUsed0
    {
      hide Pools, UsedFrom, Counted, AllServed, MapsInto, Without, BindOf;
      WithoutLast(used0, ids.third[thirdId]);
      ids.RemoveCodecTaskID(thirdId);
    }

    /** `find_if` over the decoders. */
    method FindSlot(id: nat) returns (s: nat)
      requires Slots(decoders, slots)
      ensures if id in slots then s == slots[id] && s < |decoders| && decoders[s].taskId == id else s == |decoders|
    {
      s := 0;
      while s < |decoders| && decoders[s].taskId != id
        invariant 0 <= s <= |decoders|
        invariant forall j :: 0 <= j < s ==> decoders[j].taskId != id
      {
        s := s + 1;
      }
    }

    /** The loop over all decoders that closes the gap a moved or closed window leaves. */
    method Renumber(it: nat, origin: nat)
      modifies `decoders
      ensures Renumbered(old(decoders), decoders, it, origin)
    {
      var i := 0;
      while i < |decoders|
        invariant 0 <= i <= |decoders| == |old(decoders)|
        invariant forall j :: 0 <= j < i ==>
                    decoders[j] == if j == it then old(decoders)[j] else Lowered(old(decoders)[j], origin)
        invariant forall j :: i <= j < |decoders| ==> decoders[j] == old(decoders)[j]
      {
        if decoders[i].bSwms && decoders[i].priority >= origin && i != it {
          decoders := decoders[i := decoders[i].(priority := Minus1(decoders[i].priority))];
        }
        i := i + 1;
      }
    }

    /** bSwms, the priority and the open flag of a window that opens. */
    method ShowOnTop(it: nat)
      requires it < |decoders| < U32 && !decoders[it].bSwms
      requires Represents(decoders, zOrder) && winPriority == UpTo(|zOrder|)
      modifies `decoders, `winPriority, `zOrder
      ensures Represents(decoders, zOrder) && winPriority == UpTo(|zOrder|)
      ensures zOrder == old(zOrder) + [it]
      ensures decoders == old(decoders)[it := old(decoders)[it].(open := 2, bSwms := true, priority := |old(zOrder)|)]
    {
      PlacesCount(decoders, zOrder);
      var newPriority := 0;
      if winPriority != [] {
        newPriority := Plus1(winPriority[|winPriority| - 1]);
      }
      var d := decoders[it].(open := 2, bSwms := true, priority := newPriority);
      OpenRepresents(decoders, zOrder, it, d);
      winPriority := winPriority + [newPriority];     // already in order for sort
      decoders := decoders[it := d];
      zOrder := zOrder + [it];
    }

    /** createWindow, and openAndMoveWindow for a client ID that has no task yet. */
    method OpenWindow(r: Request) returns (success: nat)
      requires Valid()
      modifies `decoders, `winPriority, `zOrder, ids`used, ids`beUsed, ids`third
      ensures Valid()
      ensures var full := forall x :: x in ids.auVi ==> x in old(ids.used);
              success == if r.audioIn > 1 then DP_ERR_TASK_PARAM_ILLEGAL
                         else if r.thirdId in old(ids.third) then DP_ERR_THIRD_TASK_ID
                         else if full then DP_ERR_FULL_CODEC_TASK_ID
                         else if !r.Legal() then DP_ERR_VO_ID_INVALID
                         else 0
      // A new window goes on top; a refused one leaves no trace.
      ensures success == 0 ==>
                && r.thirdId in ids.third && ids.third[r.thirdId] in slots
                && zOrder == old(zOrder) + [slots[ids.third[r.thirdId]]]
                && ids.third == old(ids.third)[r.thirdId := ids.third[r.thirdId]]
                && var it := slots[ids.third[r.thirdId]];
                   it < |old(decoders)|
                   && decoders == old(decoders)[it := old(decoders)[it].(open := 2, bSwms := true,
                                                                         priority := |old(zOrder)|)]
      ensures success != 0 ==>
                decoders == old(decoders) && zOrder == old(zOrder) && winPriority == old(winPriority)
                && ids.third == old(ids.third) && ids.used == old(ids.used) && ids.beUsed == old(ids.beUsed)
    {
      hide FirstUnused, Represents, Linked, Slots, Pools, UsedFrom, Counted, AllServed, UpTo, Without;
      if r.audioIn > 1 {
        return DP_ERR_TASK_PARAM_ILLEGAL;
      }
      PoolsHoldNoErrors(ids.audio, ids.video, ids.auVi);
      var id := ids.GetNewCodecTaskID(r.thirdId, AudioAndVideoTask);
      if id > 1792 {
        if id != DP_ERR_THIRD_TASK_ID {
          ids.RemoveCodecTaskID(r.thirdId);
        }
        return id;
      }
      UnusedIsClosed(decoders, slots, old(ids.third), old(ids.used), id);
      var it := FindSlot(id);
      if it == |decoders| {
        assert false;      // DP_ERR_TASK_ID_NOTEXIST: every ID of the pool has a decoder
      }
      if !(r.voDevice && r.cropLegal) {
        Refuse(r.thirdId, old(ids.third), old(ids.used), old(ids.beUsed));
        return DP_ERR_VO_ID_INVALID;
      }
      if !r.voChannel {
        Refuse(r.thirdId, old(ids.third), old(ids.used), old(ids.beUsed));
        return DP_ERR_VO_ID_INVALID;
      }
      ShowOnTop(it);
      LinkedOpen(old(decoders), slots, old(ids.third), r.thirdId, it, decoders[it]);
      SlotsKept(old(decoders), decoders, slots);
      return 0;
    }

    /** The decoder of a client's task. */
    method FindTask(thirdId: nat) returns (it: nat)
      requires Tasks() && thirdId in ids.third
      ensures it < |decoders| && decoders[it].taskId == ids.third[thirdId] && decoders[it].open != 0
      ensures decoders[it].bind == BindOf(ids.third[thirdId])
      ensures decoders[it].bSwms <==> IsWindow(thirdId)
    {
      hide Pools, Counted;
      var id := ids.SetServerTaskID(thirdId);
      assert id in ids.third.Values;
      it := FindSlot(id);
    }

    /** The client's task shows a window; tasks opened by openAudio do not. */
    predicate IsWindow(thirdId: nat)
      reads this, ids
    {
      thirdId in ids.third && BindOf(ids.third[thirdId]) == AdecToAoVdecToVo
    }

    /** The new priority of a raised window, and the loop that closes the gap. */
    method RaiseToTop(it: nat)
      requires it < |decoders| && winPriority != []
      modifies `decoders
      ensures Renumbered(old(decoders)[it := old(decoders)[it].(priority := winPriority[|winPriority| - 1])],
                         decoders, it, old(decoders)[it].priority)
    {
      var originPriority := decoders[it].priority;
      decoders := decoders[it := decoders[it].(priority := winPriority[|winPriority| - 1])];
      Renumber(it, originPriority);
    }

    /**
     * Raises a window.  Given an audio task it leaves the windows in order
     * exactly when no window has the priority of that task's decoder or more.
     */
    method MoveWindow(r: Request) returns (success: nat)
      requires Valid()
      modifies `decoders, `zOrder
      ensures success == if r.thirdId !in ids.third then DP_ERR_TASK_ID_NOTEXIST
                         else if !r.voDevice || !r.cropLegal then DP_ERR_VO_ID_INVALID
                         else if old(zOrder) == [] then DP_ERR_STATE_ABNORMAL
                         else 0
      ensures r.thirdId !in ids.third || !(r.voDevice && r.cropLegal) ==>
                Valid() && decoders == old(decoders) && zOrder == old(zOrder)
      ensures IsWindow(r.thirdId) && r.voDevice && r.cropLegal ==>
                var it := slots[ids.third[r.thirdId]];
                && Valid() && old(zOrder) != []
                && it < |old(decoders)| && old(decoders)[it].priority < |old(zOrder)|
                && old(zOrder)[old(decoders)[it].priority] == it
                && zOrder == Raised(old(zOrder), old(decoders)[it].priority)
      ensures r.thirdId in ids.third && !IsWindow(r.thirdId) && r.voDevice && r.cropLegal ==>
                var it := slots[ids.third[r.thirdId]];
                && it < |old(decoders)|
                && (Valid() <==> old(decoders)[it].priority >= |old(zOrder)|)
                && (!Valid() ==> forall z :: !Represents(decoders, z))
      ensures success == 0 ==>
                var it := slots[ids.third[r.thirdId]];
                && it < |old(decoders)| && zOrder != []
                && Renumbered(old(decoders)[it := old(decoders)[it].(priority := |zOrder| - 1)],
                              decoders, it, old(decoders)[it].priority)
    {
      hide Represents, Linked, Slots, Renumbered, Raised;
      if r.thirdId !in ids.third {
        return DP_ERR_TASK_ID_NOTEXIST;
      }
      var it := FindTask(r.thirdId);
      SlotOf(decoders, slots, it);
      WindowHasPlace(decoders, zOrder, it);
      if !(r.voDevice && r.cropLegal) {
        return DP_ERR_VO_ID_INVALID;
      }
      if winPriority == [] {
        return DP_ERR_STATE_ABNORMAL;
      }
      RaiseToTop(it);
      MoveOutcome(old(decoders), zOrder, slots, ids.third, it, decoders);
      if old(decoders)[it].bSwms {
        zOrder := Raised(zOrder, old(decoders)[it].priority);
      }
      return 0;
    }

    /**
     * Opens a window, or raises the one the client already has.  Raising keeps
     * everything in agreement exactly when the request is legal and the task is
     * a window: a refused raise drops the task of a window that stays open.
     */
    method OpenAndMoveWindow(r: Request) returns (success: nat)
      requires Valid()
      modifies `decoders, `winPriority, `zOrder, ids`used, ids`beUsed, ids`third
      ensures r.thirdId !in old(ids.third) ==>
                && Valid()
                && (var full := forall x :: x in ids.auVi ==> x in old(ids.used);
                    success == if r.audioIn > 1 then DP_ERR_TASK_PARAM_ILLEGAL
                               else if full then DP_ERR_FULL_CODEC_TASK_ID
                               else if !r.Legal() then DP_ERR_VO_ID_INVALID
                               else 0)
                && (success == 0 ==>
                      && r.thirdId in ids.third && ids.third[r.thirdId] in slots
                      && ids.third == old(ids.third)[r.thirdId := ids.third[r.thirdId]]
                      && zOrder == old(zOrder) + [slots[ids.third[r.thirdId]]])
                && (success != 0 ==> zOrder == old(zOrder) && ids.third == old(ids.third) && decoders == old(decoders))
      ensures r.thirdId in old(ids.third) ==> (Valid() <==> r.Legal() && old(IsWindow(r.thirdId)))
      ensures r.thirdId in old(ids.third) && !r.Legal() ==>
                success == DP_ERR_VO_ID_INVALID && ids.third == old(ids.third) - {r.thirdId} && decoders == old(decoders)
      ensures r.thirdId in old(ids.third) && r.Legal() ==>
                success == if old(zOrder) == [] then DP_ERR_STATE_ABNORMAL else 0
      ensures old(IsWindow(r.thirdId)) && r.Legal() ==>
                var it := slots[old(ids.third)[r.thirdId]];
                && success == 0 && ids.third == old(ids.third)
                && it < |old(decoders)| && old(decoders)[it].priority < |old(zOrder)|
                && zOrder == Raised(old(zOrder), old(decoders)[it].priority)
    {
      hide Represents, Linked, Slots, Renumbered, Raised, MapsInto, Pools, UsedFrom, Counted, AllServed;
      if r.thirdId !in ids.third {
        success := OpenWindow(r);
        return success;
      }
      var it := FindTask(r.thirdId);
      SlotOf(decoders, slots, it);
      WindowHasPlace(decoders, zOrder, it);
      LinkBroken(decoders, slots, ids.third, ids.used, r.thirdId, it, decoders[it].(bSwms := true));
      if !(r.voDevice && r.cropLegal) {
        ids.RemoveCodecTaskID(r.thirdId);
        return DP_ERR_VO_ID_INVALID;
      }
      if !r.voChannel {
        ids.RemoveCodecTaskID(r.thirdId);
        return DP_ERR_VO_ID_INVALID;
      }
      ghost var shown := decoders[it].(bSwms := true);
      decoders := decoders[it := decoders[it].(bSwms := true)];
      if winPriority == [] {
        return DP_ERR_STATE_ABNORMAL;
      }
      ghost var raised := shown.(priority := winPriority[|winPriority| - 1]);
      LinkBroken(old(decoders), slots, ids.third, ids.used, r.thirdId, it, raised);
      ghost var before := decoders[it := raised];
      assert before == old(decoders)[it := raised];
      RaiseToTop(it);
      LinkedRenumbered(before, decoders, it, shown.priority, ids.third);
      if old(decoders)[it].bSwms {
        MoveOutcome(old(decoders), zOrder, slots, ids.third, it, decoders);
        zOrder := Raised(zOrder, shown.priority);
      }
      return 0;
    }

    /**
     * Closes a window.  Given an audio task it takes away a window's priority,
     * unless there is none to take away.
     */
    method CloseWindow(thirdId: nat) returns (success: nat)
      requires Valid()
      modifies `decoders, `winPriority, `zOrder, ids`used, ids`beUsed, ids`third
      ensures thirdId !in old(ids.third) ==>
                Valid() && success == DP_ERR_TASK_ID_NOTEXIST
                && decoders == old(decoders) && zOrder == old(zOrder) && ids.third == old(ids.third)
      ensures thirdId in old(ids.third) ==> success == 0 && ids.third == old(ids.third) - {thirdId}
      ensures thirdId in old(ids.third) ==> (Valid() <==> old(IsWindow(thirdId)) || old(zOrder) == [])
      ensures thirdId in old(ids.third) && !Valid() ==>
                forall z :: Represents(decoders, z) ==> winPriority != UpTo(|z|)
      ensures old(IsWindow(thirdId)) ==>
                var it := slots[old(ids.third)[thirdId]];
                && it < |old(decoders)| && old(decoders)[it].priority < |old(zOrder)|
                && old(zOrder)[old(decoders)[it].priority] == it
                && zOrder == Removed(old(zOrder), old(decoders)[it].priority)
      ensures success == 0 ==>
                var it := slots[old(ids.third)[thirdId]];
                && it < |old(decoders)|
                && Renumbered(old(decoders)[it := old(decoders)[it].(open := 0, bSwms := false)],
                              decoders, it, old(decoders)[it].priority)
    {
      hide Represents, Linked, Slots, Renumbered, Removed, MapsInto, Pools, UsedFrom, Counted, AllServed;
      if thirdId !in ids.third {
        return DP_ERR_TASK_ID_NOTEXIST;
      }
      var it := FindTask(thirdId);
      SlotOf(decoders, slots, it);
      WindowHasPlace(decoders, zOrder, it);
      decoders := decoders[it := decoders[it].(open := 0, bSwms := false)];
      ids.RemoveCodecTaskID(thirdId);
      var originPriority := decoders[it].priority;
      if winPriority != [] {
        UpToPop(|winPriority|);
        winPriority := winPriority[..|winPriority| - 1];     // still in order for sort
      }
      Renumber(it, originPriority);
      CloseOutcome(old(decoders), zOrder, slots, old(ids.third), old(ids.used), thirdId, it, decoders);
      if old(decoders)[it].bSwms {
        zOrder := Removed(zOrder, originPriority);
      }
      return 0;
    }

    /**
     * Closes all windows (0), all audio tasks (1) or both (2).  The priority
     * vector is emptied in any case, which is right exactly when the windows
     * go, or there are none.
     */
    method ClearAllTask(taskType: nat)
      requires Valid()
      modifies `decoders, `winPriority, `zOrder, ids`used, ids`beUsed, ids`third
      ensures Tasks() && winPriority == []
      ensures ClearedTo(old(decoders), decoders, |decoders|, taskType)
      ensures Valid() <==> taskType == 0 || taskType == 2 || old(zOrder) == []
      ensures !Valid() ==> forall z :: Represents(decoders, z) ==> winPriority != UpTo(|z|)
      ensures Valid() ==> zOrder == []
      ensures forall t :: t in old(ids.third) ==>
                (t in ids.third <==> !Cleared(BindOf(old(ids.third)[t]), taskType))
      ensures forall t :: t in ids.third ==> t in old(ids.third) && ids.third[t] == old(ids.third)[t]
    {
      hide Represents, Linked, Slots, MapsInto, Pools, UsedFrom, Counted, AllServed, Cleared, Closed, ClearedTo, TasksTo, Without;
      TasksAtStart(decoders, slots, ids.third, ids.used, ids.audio, ids.video, ids.auVi, taskType);
      var i := 0;
      while i < |decoders|
        invariant 0 <= i <= |decoders| == |old(decoders)|
        invariant zOrder == old(zOrder) && winPriority == old(winPriority)
        invariant Tasks()
        invariant ClearedTo(old(decoders), decoders, i, taskType)
        invariant TasksTo(old(ids.third), ids.third, slots, i, taskType)
      {
        if decoders[i].open != 0 && Cleared(decoders[i].bind, taskType) {
          OpenHasTask(decoders, ids.third, i);
          var t :| t in ids.third && ids.third[t] == decoders[i].taskId;      // findThirdIDByCodecID
          ClearStep(old(decoders), decoders, slots, old(ids.third), ids.third, ids.used, i, taskType, t);
          decoders := decoders[i := decoders[i].(bSwms := false, open := 0)];
          ids.RemoveCodecTaskID(t);
        } else {
          SkipStep(old(decoders), decoders, slots, old(ids.third), ids.third, i, taskType);
        }
        i := i + 1;
      }
      ClearOutcome(old(decoders), decoders, zOrder, old(ids.third), taskType);
      TasksAtEnd(old(ids.third), ids.third, slots, old(decoders), taskType);
      winPriority := [];
      if taskType == 0 || taskType == 2 {
        zOrder := [];
      }
    }

    /**
     * openAudio.  On an output that nobody uses it opens a new task; on one that
     * is in use the task there goes over to the new client, which keeps
     * everything in agreement exactly when that task has not ended and is an
     * audio task.
     */
    method OpenAudio(thirdId: nat, ch: Channel) returns (success: nat)
      requires Valid()
      modifies `decoders, `outputs, ids`used, ids`beUsed, ids`third
      ensures thirdId in old(ids.third) ==>
                && Valid() && success == 0
                && ids.third == old(ids.third) && decoders == old(decoders) && outputs == old(outputs)
      ensures thirdId !in old(ids.third) ==>
                var full := forall x :: x in ids.audio ==> x in old(ids.used);
                success == if ch == OtherChannel then DP_ERR_TASK_PARAM_ILLEGAL
                           else if ch in old(outputs) then if old(outputs)[ch] in slots then 0 else DP_ERR_TASK_ID_NOTEXIST
                           else if full then DP_ERR_FULL_CODEC_TASK_ID
                           else 0
      ensures success != 0 ==>
                && Valid()
                && ids.third == old(ids.third) && decoders == old(decoders) && outputs == old(outputs)
      ensures thirdId !in old(ids.third) && success == 0 && ch !in old(outputs) ==>
                && Valid() && thirdId in ids.third && BindOf(ids.third[thirdId]) == AdecToAo
                && ids.third == old(ids.third)[thirdId := ids.third[thirdId]] && ids.third[thirdId] !in old(ids.used)
                && outputs == old(outputs)[ch := ids.third[thirdId]]
                && ids.third[thirdId] in slots
                && var it := slots[ids.third[thirdId]];
                   it < |old(decoders)| && decoders == old(decoders)[it := old(decoders)[it].(open := 1)]
      ensures thirdId !in old(ids.third) && success == 0 && ch in old(outputs) ==>
                var id := old(outputs)[ch];
                && (Valid() <==> id in old(ids.used) && BindOf(id) == AdecToAo)
                && outputs == old(outputs) && ids.used == old(ids.used)
                && ids.third == HandedOver(old(ids.third), thirdId, id)
                && id in slots && slots[id] < |old(decoders)|
                && var d := old(decoders)[slots[id]];
                   decoders == old(decoders)[slots[id] := d.(open := if d.bind == AdecToAo then 1 else 0)]
    {
      hide FirstUnused, Represents, Linked, Slots, MapsInto, Pools, UsedFrom, Counted, AllServed, HandedOver;
      if thirdId in ids.third {
        return 0;
      }
      if ch == OtherChannel {
        return DP_ERR_TASK_PARAM_ILLEGAL;
      }
      if ch in outputs {
        success := ShiftAudio(thirdId, outputs[ch]);
        return success;
      }
      PoolsHoldNoErrors(ids.audio, ids.video, ids.auVi);
      var id := ids.GetNewCodecTaskID(thirdId, AudioTask);
      if id > 1792 {
        return id;
      }
      var it := FindSlot(id);
      UnusedIsClosedAudio(decoders, slots, old(ids.third), old(ids.used), id);
      var d := decoders[it].(open := 1);
      LinkedOpen(decoders, slots, old(ids.third), thirdId, it, d);
      SlotsKept(decoders, decoders[it := d], slots);
      RepresentsSame(decoders, zOrder, it, d);
      decoders := decoders[it := d];
      outputs := outputs[ch := id];
      return 0;
    }

    /** The task of an output goes over to a new client. */
    method ShiftAudio(thirdId: nat, id: nat) returns (success: nat)
      requires Valid() && thirdId !in ids.third
      modifies `decoders, ids`third
      ensures success == if id in slots then 0 else DP_ERR_TASK_ID_NOTEXIST
      ensures success != 0 ==> Valid() && ids.third == old(ids.third) && decoders == old(decoders)
      ensures success == 0 ==>
                && (Valid() <==> id in ids.used && BindOf(id) == AdecToAo)
                && ids.third == HandedOver(old(ids.third), thirdId, id)
                && slots[id] < |old(decoders)|
                && var d := old(decoders)[slots[id]];
                   decoders == old(decoders)[slots[id] := d.(open := if d.bind == AdecToAo then 1 else 0)]
    {
      hide Represents, Linked, Slots, MapsInto, Pools, UsedFrom, Counted, AllServed, HandedOver;
      var it := FindSlot(id);
      if it == |decoders| {
        return DP_ERR_TASK_ID_NOTEXIST;
      }
      ghost var third0 := ids.third;
      var d := decoders[it].(open := 0);
      if d.bind == AdecToAo {
        d := d.(open := 1);
      }
      ShiftOutcome(decoders, slots, third0, ids.used, thirdId, it, d);
      SlotsKept(decoders, decoders[it := d], slots);
      RepresentsSame(decoders, zOrder, it, d);
      decoders := decoders[it := d];
      ids.UpdateThirdTaskIDCodecTaskid(thirdId, id);
      return 0;
    }

    /** closeAudio: an audio task ends; a window goes on without its sound. */
    method CloseAudio(thirdId: nat, ch: Channel) returns (success: nat)
      requires Valid() && (thirdId in ids.third ==> ch != OtherChannel)
      modifies `decoders, `outputs, ids`used, ids`beUsed, ids`third
      ensures Valid()
      // It is the output named in the request that is forgotten, whichever task it plays.
      ensures outputs == if thirdId in old(ids.third) then old(outputs) - {ch} else old(outputs)
      ensures thirdId !in old(ids.third) ==> success == DP_ERR_TASK_ID_NOTEXIST && ids.third == old(ids.third)
      ensures thirdId in old(ids.third) ==>
                && success == 0
                && ids.third == if BindOf(old(ids.third)[thirdId]) == AdecToAo then old(ids.third) - {thirdId}
                                else old(ids.third)
      ensures thirdId in old(ids.third) ==>
                && old(ids.third)[thirdId] in slots
                && var it := slots[old(ids.third)[thirdId]];
                   && it < |old(decoders)|
                   && var d := old(decoders)[it];
                      decoders == old(decoders)[it := d.(open := if d.bind == AdecToAoVdecToVo then 2
                                                                 else if d.bind == AdecToAo then 0 else d.open)]
      ensures thirdId !in old(ids.third) ==> decoders == old(decoders)
    {
      hide Represents, Linked, Slots, MapsInto, Pools, UsedFrom, Counted, AllServed;
      if thirdId !in ids.third {
        return DP_ERR_TASK_ID_NOTEXIST;
      }
      var it := FindTask(thirdId);
      var d := decoders[it];
      if d.bind == AdecToAoVdecToVo {
        d := d.(open := 2);
        LinkedSame(decoders, ids.third, it, d);
      } else if d.bind == AdecToAo {
        d := d.(open := 0);
        LinkedClose(decoders, slots, ids.third, ids.used, thirdId, it, d);
      } else {
        assert decoders[it := d] == decoders;
      }
      SlotsKept(decoders, decoders[it := d], slots);
      RepresentsSame(decoders, zOrder, it, d);
      decoders := decoders[it := d];
      if d.bind == AdecToAo {
        ids.RemoveCodecTaskID(thirdId);
      }
      outputs := outputs - {ch};
      return 0;
    }

    /** What the ghost list of clients says about tasks, pools and room. */
    lemma ViewFacts()
      requires Valid() && Shows()
      ensures Orderly(View(), Places())
      ensures forall t :: t in windows <==> IsWindow(t)
      ensures forall t :: View().Has(t) <==> t in ids.third
      ensures |windows| >= |ids.auVi| <==> forall x :: x in ids.auVi ==> x in ids.used
      ensures |View().sounds| >= |ids.audio| <==> forall x :: x in ids.audio ==> x in ids.used
    {
      hide Represents, Linked, Slots, Named;
      KindsOfUsed(ids.audio, ids.video, ids.auVi, ids.used);
      NamedOnce(decoders, zOrder, slots, ids.third, windows);
      NamedAre(decoders, zOrder, slots, ids.third, ids.used, windows);
      ClientsCount(ids.third, ids.used, ids.auVi, AdecToAoVdecToVo);
      ClientsCount(ids.third, ids.used, ids.audio, AdecToAo);
      MembersCount(windows);
      assert Members(windows) == ClientsOf(ids.third, AdecToAoVdecToVo);
      UnusedExists(ids.auVi, ids.used);
      UnusedExists(ids.audio, ids.used);
    }

    /** Sounds, pictures and the players of the outputs by the tasks and their IDs. */
    lemma ViewIs(t: nat, o: Channel)
      requires Valid() && Shows()
      ensures t in View().sounds <==> t in ids.third && ids.third[t] / 256 == 1
      ensures t in View().videos <==> t in ids.third && ids.third[t] / 256 == 4
      ensures t in View().windows <==> t in ids.third && ids.third[t] / 256 == 6
      ensures o in View().outputs <==> o in outputs
      ensures o in outputs ==> (View().outputs[o] == Client(t) <==> t in ids.third && ids.third[t] == outputs[o])
      ensures o in outputs ==> (View().outputs[o] == Nobody <==> forall u :: u in ids.third ==> ids.third[u] != outputs[o])
    {
      hide Represents, Linked, Slots, Named, Pools, UsedFrom, Counted, AllServed, Speakers, Orderly, BindOf;
      ViewFacts();
      if t in ids.third {
        BindIs(ids.third[t]);
        HolderIs(ids.third, ids.used, t);
      }
    }

    /** The place of a window's client in the list. */
    lemma ViewPlace(t: nat)
      requires Valid() && Shows() && IsWindow(t)
      ensures ids.third[t] in slots && slots[ids.third[t]] < |decoders|
      ensures var p := decoders[slots[ids.third[t]]].priority;
              p < |zOrder| && p < |windows| && windows[p] == t
    {
      var it := slots[ids.third[t]];
      assert ids.third[t] in ids.third.Values;
      assert decoders[it].bSwms;
      NamedAt(decoders, zOrder, ids.third, ids.used, windows, t, decoders[it].priority);
    }

    lemma ShowsOpened(decoders0: seq<Decoder>, z0: seq<nat>, third0: map<nat, nat>, used0: seq<nat>, t: nat)
      requires MapsInto(third0, used0) && Speakers(outputs, slots)
      requires Valid() && Slots(decoders0, slots) && Named(decoders0, z0, third0, windows)
      requires t !in third0 && t in ids.third && ids.third[t] in slots
      requires ids.third == third0[t := ids.third[t]] && zOrder == z0 + [slots[ids.third[t]]]
      ensures Named(decoders, zOrder, ids.third, windows + [t])
      ensures Holders(ids.third, outputs) == Holders(third0, outputs)
      ensures ClientsOf(ids.third, AdecToAo) == ClientsOf(third0, AdecToAo)
      ensures ClientsOf(ids.third, VdecToVo) == ClientsOf(third0, VdecToVo)
    {
      hide Pools, UsedFrom, Counted, AllServed, MapsInto, Speakers, Holders, ClientsOf;
      var it := slots[ids.third[t]];
      SlotsSame(decoders0, decoders, slots);
      NamedOpened(decoders0, z0, third0, windows, decoders, it, t);
      assert zOrder[|z0|] == it;
      assert decoders[it].bSwms && decoders[it].taskId == ids.third[t];
      hide Linked, Named, Represents;
      HoldersBeside(third0, used0, ids.third, ids.used, outputs, slots);
      ClientsAdd(third0, t, ids.third[t], AdecToAo);
      ClientsAdd(third0, t, ids.third[t], VdecToVo);
    }

    /** A request that opens a window, answered. */
    method HandleCreate(r: Request) returns (success: nat)
      requires Valid() && Shows()
      modifies `decoders, `winPriority, `zOrder, `windows, ids`used, ids`beUsed, ids`third
      ensures Valid() && Shows() && Places() == old(Places())
      ensures View() == Acted(old(View()), Create(r), Places())
      ensures success == if r.audioIn > 1 then DP_ERR_TASK_PARAM_ILLEGAL
                         else if old(View()).Has(r.thirdId) then DP_ERR_THIRD_TASK_ID
                         else if |old(windows)| >= Places().windows then DP_ERR_FULL_CODEC_TASK_ID
                         else if !r.Legal() then DP_ERR_VO_ID_INVALID
                         else 0
      ensures windows == if success == 0 then old(windows) + [r.thirdId] else old(windows)
    {
      hide Represents, Linked, Slots, Pools, UsedFrom, Counted, AllServed, MapsInto, Named, ClientsOf, Holders,
           Speakers, UpTo, Without,
           Orderly, NoDuplicates, BindOf;
      ViewFacts();
      ghost var decoders0, z0, third0, used0 := decoders, zOrder, ids.third, ids.used;
      success := OpenWindow(r);
      if success == 0 {
        ShowsOpened(decoders0, z0, third0, used0, r.thirdId);
        windows := windows + [r.thirdId];
      }
    }

    lemma ShowsLifted(decoders0: seq<Decoder>, z0: seq<nat>, p: nat, t: nat)
      requires Valid() && Slots(decoders0, slots) && Named(decoders0, z0, ids.third, windows) && NoDuplicates(windows)
      requires p < |z0| && p < |windows| && windows[p] == t && zOrder == Raised(z0, p)
      ensures Named(decoders, zOrder, ids.third, Without(windows, t) + [t])
    {
      SlotsSame(decoders0, decoders, slots);
      NamedLifted(decoders0, z0, ids.third, windows, decoders, p);
    }

    /** A request that raises a window, or opens it for a client that has none. */
    method HandleOpenAndMove(r: Request) returns (success: nat)
      requires Valid() && Shows() && Fits(View(), OpenAndMove(r))
      modifies `decoders, `winPriority, `zOrder, `windows, ids`used, ids`beUsed, ids`third
      ensures Valid() && Shows() && Places() == old(Places())
      ensures View() == Acted(old(View()), OpenAndMove(r), Places())
      ensures success == 0 ==> windows != [] && windows[|windows| - 1] == r.thirdId
      ensures r.thirdId in old(windows) ==> success == 0
      ensures success != 0 ==> windows == old(windows)
    {
      hide Represents, Linked, Slots, Pools, UsedFrom, Counted, AllServed, MapsInto, Named, ClientsOf, Holders,
           Speakers, UpTo, Without,
           Orderly, NoDuplicates, BindOf, Raised;
      ViewFacts();
      WindowsOnce();
      ghost var decoders0, z0, third0, used0 := decoders, zOrder, ids.third, ids.used;
      if IsWindow(r.thirdId) {
        ViewPlace(r.thirdId);
        ghost var p := decoders[slots[ids.third[r.thirdId]]].priority;
        success := OpenAndMoveWindow(r);
        ShowsLifted(decoders0, z0, p, r.thirdId);
        windows := Without(windows, r.thirdId) + [r.thirdId];
      } else {
        success := OpenAndMoveWindow(r);
        if success == 0 {
          ShowsOpened(decoders0, z0, third0, used0, r.thirdId);
          windows := windows + [r.thirdId];
        }
      }
    }

    lemma WindowsOnce()
      requires Valid() && Shows()
      ensures NoDuplicates(windows)
    {
      NamedOnce(decoders, zOrder, slots, ids.third, windows);
    }

    method HandleMove(r: Request) returns (success: nat)
      requires Valid() && Shows() && Fits(View(), Move(r))
      modifies `decoders, `zOrder, `windows
      ensures Valid() && Shows() && Places() == old(Places())
      ensures View() == Acted(old(View()), Move(r), Places())
      ensures success == 0 ==> windows != [] && windows[|windows| - 1] == r.thirdId
      ensures success == 0 <==> r.thirdId in old(windows) && r.voDevice && r.cropLegal
      ensures success != 0 ==> windows == old(windows)
    {
      hide Represents, Linked, Slots, Pools, UsedFrom, Counted, AllServed, MapsInto, Named, ClientsOf, Holders,
           Speakers, UpTo, Without,
           Orderly, NoDuplicates, BindOf, Raised, Renumbered;
      ViewFacts();
      WindowsOnce();
      ghost var decoders0, z0 := decoders, zOrder;
      if IsWindow(r.thirdId) && r.voDevice && r.cropLegal {
        ViewPlace(r.thirdId);
        ghost var p := decoders[slots[ids.third[r.thirdId]]].priority;
        success := MoveWindow(r);
        ShowsLifted(decoders0, z0, p, r.thirdId);
        windows := Without(windows, r.thirdId) + [r.thirdId];
      } else {
        success := MoveWindow(r);
      }
    }

    lemma ShowsClosed(decoders0: seq<Decoder>, z0: seq<nat>, third0: map<nat, nat>, used0: seq<nat>, p: nat, t: nat)
      requires MapsInto(third0, used0) && Speakers(outputs, slots)
      requires Valid() && Slots(decoders0, slots) && Named(decoders0, z0, third0, windows) && NoDuplicates(windows)
      requires p < |z0| && p < |windows| && windows[p] == t && zOrder == Removed(z0, p) && ids.third == third0 - {t}
      requires t in third0 && BindOf(third0[t]) == AdecToAoVdecToVo
      ensures Named(decoders, zOrder, ids.third, Without(windows, t))
      ensures Holders(ids.third, outputs) == Holders(third0, outputs)
      ensures ClientsOf(ids.third, AdecToAo) == ClientsOf(third0, AdecToAo)
      ensures ClientsOf(ids.third, VdecToVo) == ClientsOf(third0, VdecToVo)
    {
      hide Represents, Linked, Named, Pools, UsedFrom, Counted, AllServed, MapsInto, Speakers, Holders;
      SlotsSame(decoders0, decoders, slots);
      NamedClosed(decoders0, z0, third0, windows, decoders, p);
      HoldersBeside(third0, used0, ids.third, ids.used, outputs, slots);
      ClientsDrop(third0, t, AdecToAo);
      ClientsDrop(third0, t, VdecToVo);
    }

    method HandleClose(t: nat) returns (success: nat)
      requires Valid() && Shows() && Fits(View(), Close(t))
      modifies `decoders, `winPriority, `zOrder, `windows, ids`used, ids`beUsed, ids`third
      ensures Valid() && Shows() && Places() == old(Places())
      ensures View() == Acted(old(View()), Close(t), Places())
      ensures success == if t in old(windows) then 0 else DP_ERR_TASK_ID_NOTEXIST
    {
      hide Represents, Linked, Slots, Pools, UsedFrom, Counted, AllServed, MapsInto, Named, ClientsOf, Holders,
           Speakers, UpTo, Without,
           Orderly, NoDuplicates, Removed, Renumbered;
      ViewFacts();
      WindowsOnce();
      ghost var decoders0, z0, third0, used0 := decoders, zOrder, ids.third, ids.used;
      if IsWindow(t) {
        ViewPlace(t);
        ghost var p := decoders[slots[ids.third[t]]].priority;
        success := CloseWindow(t);
        ShowsClosed(decoders0, z0, third0, used0, p, t);
        windows := Without(windows, t);
      } else {
        WithoutAbsent(windows, t);
        success := CloseWindow(t);
      }
    }

    method HandleClear(taskType: nat)
      requires Valid() && Shows() && Fits(View(), Clear(taskType))
      modifies `decoders, `winPriority, `zOrder, `windows, ids`used, ids`beUsed, ids`third
      ensures Valid() && Shows() && Places() == old(Places())
      ensures View() == Acted(old(View()), Clear(taskType), Places())
    {
      hide Represents, Linked, Slots, Pools, UsedFrom, Counted, AllServed, MapsInto, Without, Orderly, NoDuplicates, BindOf,
           ClearedTo, Holders, Speakers, ClientsOf;
      ghost var third0, used0 := ids.third, ids.used;
      KindsCleared(taskType);
      ClearAllTask(taskType);
      windows := [];
      ClientsCleared(third0, used0, taskType);
    }

    lemma ClientsCleared(third0: map<nat, nat>, used0: seq<nat>, taskType: nat)
      requires Valid() && MapsInto(third0, used0) && Speakers(outputs, slots) && (taskType == 0 || taskType == 2)
      requires forall t :: t in third0 && !Cleared(BindOf(third0[t]), taskType) ==>
                 taskType == 0 && BindOf(third0[t]) == AdecToAo
      requires forall t :: t in third0 ==> (t in ids.third <==> !Cleared(BindOf(third0[t]), taskType))
      requires forall t :: t in ids.third ==> t in third0 && ids.third[t] == third0[t]
      ensures ClientsOf(ids.third, VdecToVo) == {}
      ensures ClientsOf(ids.third, AdecToAo) == if taskType == 0 then ClientsOf(third0, AdecToAo) else {}
      ensures Holders(ids.third, outputs)
              == if taskType == 0 then Holders(third0, outputs) else map o | o in Holders(third0, outputs) :: Nobody
    {
      hide Represents, Linked, Pools, UsedFrom, Counted, AllServed, MapsInto, Speakers, Slots, BindOf;
      if taskType == 0 {
        hide Holders;
        HoldersBeside(third0, used0, ids.third, ids.used, outputs, slots);
      } else {
        assert ids.third == map[];
      }
    }

    lemma KindsCleared(taskType: nat)
      requires Valid() && (taskType == 0 || taskType == 2)
      ensures forall t :: t in ids.third && !Cleared(BindOf(ids.third[t]), taskType) ==>
                taskType == 0 && BindOf(ids.third[t]) == AdecToAo
      ensures !Cleared(AdecToAo, 0)
    {
      KindsOfUsed(ids.audio, ids.video, ids.auVi, ids.used);
    }

    lemma ShownBeside(decoders0: seq<Decoder>, third0: map<nat, nat>)
      requires Valid() && Slots(decoders0, slots) && Named(decoders0, zOrder, third0, windows)
      requires forall u :: u in third0 && u in windows ==> u in ids.third && ids.third[u] == third0[u]
      ensures Named(decoders, zOrder, ids.third, windows)
    {
      SlotsSame(decoders0, decoders, slots);
      NamedBeside(decoders0, zOrder, third0, windows, decoders, ids.third);
    }

    /** A new sound on a free output. */
    lemma ShowsSounded(decoders0: seq<Decoder>, third0: map<nat, nat>, used0: seq<nat>, outputs0: map<Channel, nat>,
                       ch: Channel, t: nat)
      requires Valid() && MapsInto(third0, used0) && Slots(decoders0, slots) && Named(decoders0, zOrder, third0, windows)
      requires Speakers(outputs0, slots) && forall o :: o in outputs0 ==> outputs0[o] in third0.Values
      requires t !in third0 && t in ids.third && BindOf(ids.third[t]) == AdecToAo && ids.third[t] in slots
      requires ids.third == third0[t := ids.third[t]] && ids.third[t] !in used0
      requires outputs == outputs0[ch := ids.third[t]]
      ensures Shows() && Holders(ids.third, outputs) == Holders(third0, outputs0)[ch := Client(t)]
      ensures ClientsOf(ids.third, AdecToAo) == ClientsOf(third0, AdecToAo) + {t}
      ensures ClientsOf(ids.third, VdecToVo) == ClientsOf(third0, VdecToVo)
    {
      hide Represents, Linked, Pools, UsedFrom, Counted, AllServed, MapsInto, Named, Holders, ClientsOf, Speakers, Slots;
      HoldersOpened(third0, used0, ids.used, outputs0, ch, t, ids.third[t]);
      SpeakersOpened(outputs0, slots, ch, ids.third[t]);
      ShownBeside(decoders0, third0);
      ClientsAdd(third0, t, ids.third[t], AdecToAo);
      ClientsAdd(third0, t, ids.third[t], VdecToVo);
    }

    /** A sound that takes another's output. */
    lemma ShowsShifted(decoders0: seq<Decoder>, third0: map<nat, nat>, used0: seq<nat>, ch: Channel, c: nat, t: nat)
      requires Valid() && MapsInto(third0, used0) && used0 == ids.used && Slots(decoders0, slots)
      requires Named(decoders0, zOrder, third0, windows) && Speakers(outputs, slots)
      requires forall u :: u in windows ==> u in third0 && BindOf(third0[u]) == AdecToAoVdecToVo
      requires t !in third0 && ch in outputs && c in third0 && third0[c] == outputs[ch]
      requires ids.third == HandedOver(third0, t, outputs[ch])
      ensures Shows() && Holders(ids.third, outputs) == Holders(third0, outputs)[ch := Client(t)]
      ensures ClientsOf(ids.third, AdecToAo) == ClientsOf(third0, AdecToAo) - {c} + {t}
      ensures ClientsOf(ids.third, VdecToVo) == ClientsOf(third0, VdecToVo)
    {
      HoldersShifted(third0, ids.used, outputs, ch, slots, c, t);
      assert c !in windows;
      ShownBeside(decoders0, third0);
      ClientsDrop(third0, c, AdecToAo);
      ClientsDrop(third0, c, VdecToVo);
      ClientsAdd(third0 - {c}, t, outputs[ch], AdecToAo);
      ClientsAdd(third0 - {c}, t, outputs[ch], VdecToVo);
    }

    /** While no output is held by a task that has ended, every output has a client. */
    lemma HoldersKnown(t: nat, ch: Channel)
      requires Valid() && Shows() && Fits(View(), OpenSound(t, ch)) && t !in ids.third && ch != OtherChannel
      ensures forall o :: o in outputs ==> outputs[o] in ids.third.Values && outputs[o] in ids.used
      ensures ch in outputs ==>
                var c := ClientOf(ids.third, outputs[ch]);
                View().outputs[ch] == Client(c) && c in ids.third && ids.third[c] == outputs[ch]
      ensures forall u :: u in windows ==> u in ids.third && BindOf(ids.third[u]) == AdecToAoVdecToVo
      ensures ch in outputs ==> outputs[ch] in slots && BindOf(outputs[ch]) == AdecToAo
      ensures ch in View().outputs <==> ch in outputs
    {
      ViewFacts();
      forall o | o in outputs ensures outputs[o] in ids.third.Values {
        assert o in View().outputs;
      }
    }

    method HandleOpenSound(t: nat, ch: Channel) returns (success: nat)
      requires Valid() && Shows() && Fits(View(), OpenSound(t, ch))
      modifies `decoders, `outputs, ids`used, ids`beUsed, ids`third
      ensures Valid() && Shows() && Places() == old(Places())
      ensures View() == Acted(old(View()), OpenSound(t, ch), Places())
      ensures success == if old(View()).Has(t) then 0
                         else if ch == OtherChannel then DP_ERR_TASK_PARAM_ILLEGAL
                         else if ch !in old(outputs) && |old(View()).sounds| >= Places().sounds
                         then DP_ERR_FULL_CODEC_TASK_ID
                         else 0
    {
      hide Represents, Linked, Slots, Pools, UsedFrom, Counted, AllServed, MapsInto, Named, ClientsOf, Holders,
           Speakers, UpTo, Without, Orderly, NoDuplicates, BindOf, HandedOver;
      ViewFacts();
      if t in ids.third || ch == OtherChannel {
        success := OpenAudio(t, ch);
        return success;
      }
      HoldersKnown(t, ch);
      ghost var decoders0, third0, used0, outputs0 := decoders, ids.third, ids.used, outputs;
      success := OpenAudio(t, ch);
      if success == 0 {
        if ch in outputs0 {
          ShowsShifted(decoders0, third0, used0, ch, ClientOf(third0, outputs0[ch]), t);
        } else {
          ShowsSounded(decoders0, third0, used0, outputs0, ch, t);
        }
      }
    }

    method HandleCloseSound(t: nat, ch: Channel) returns (success: nat)
      requires Valid() && Shows() && Fits(View(), CloseSound(t, ch))
      modifies `decoders, `outputs, ids`used, ids`beUsed, ids`third
      ensures Valid() && Shows() && Places() == old(Places())
      ensures View() == Acted(old(View()), CloseSound(t, ch), Places())
      ensures success == if old(View()).Has(t) then 0 else DP_ERR_TASK_ID_NOTEXIST
    {
      hide Represents, Linked, Slots, Pools, UsedFrom, Counted, AllServed, MapsInto, Named, ClientsOf, Holders, UpTo, Without,
           Orderly, NoDuplicates, BindOf;
      ViewFacts();
      ghost var decoders0, third0, used0, outputs0 := decoders, ids.third, ids.used, outputs;
      success := CloseAudio(t, ch);
      ShownBeside(decoders0, third0);
      ClientsMute(third0, t);
      if t in third0 {
        HoldersClosed(third0, used0, ids.third, ids.used, outputs0, ch, slots, t);
      }
    }

    /** The request keeps the list, by the tasks. */
    predicate Suits(a: Action)
      reads this, ids
    {
      match a
      case OpenAndMove(r) => r.thirdId in ids.third ==> r.Legal() && IsWindow(r.thirdId)
      case Move(r) => r.thirdId in ids.third && r.voDevice && r.cropLegal ==> IsWindow(r.thirdId)
      case Close(thirdId) => thirdId in ids.third ==> IsWindow(thirdId)
      case Clear(taskType) => taskType == 0 || taskType == 2
      case OpenSound(t, ch) =>
        t in ids.third || ch == OtherChannel || forall o :: o in outputs ==> outputs[o] in ids.third.Values
      case CloseSound(t, ch) => t in ids.third ==> ch != OtherChannel
      case _ => true
    }

    lemma SuitsIff(a: Action)
      requires Valid() && Shows()
      ensures Suits(a) <==> Fits(View(), a)
    {
      hide Represents, Linked, Slots, Named, Pools, UsedFrom, Counted, AllServed, MapsInto, Speakers, Orderly, BindOf, Holders;
      ViewFacts();
      PlayersKnown();
    }

    /** Every output plays somebody exactly when all their IDs have clients. */
    lemma PlayersKnown()
      requires Valid() && Shows()
      ensures (forall o :: o in outputs ==> outputs[o] in ids.third.Values)
         <==> forall o :: o in View().outputs ==> View().outputs[o].Client?
    {
      hide Represents, Linked, Slots, Named, Pools, UsedFrom, Counted, AllServed, MapsInto, Speakers, BindOf;
      assert View().outputs.Keys == outputs.Keys;
      assert forall o :: o in outputs ==> (outputs[o] in ids.third.Values <==> View().outputs[o].Client?);
    }

    /** One request of a kind that keeps the list. */
    method Handle(a: Action)
      requires Valid() && Shows() && Fits(View(), a)
      modifies `decoders, `winPriority, `zOrder, `windows, `outputs, ids`used, ids`beUsed, ids`third
      ensures Valid() && Shows() && Places() == old(Places())
      ensures View() == Acted(old(View()), a, Places())
    {
      hide *;
      var success;
      match a {
        case Create(r) => success := HandleCreate(r);
        case OpenAndMove(r) => success := HandleOpenAndMove(r);
        case Move(r) => success := HandleMove(r);
        case Close(t) => success := HandleClose(t);
        case Clear(taskType) => HandleClear(taskType);
        case OpenSound(t, ch) => success := HandleOpenSound(t, ch);
        case CloseSound(t, ch) => success := HandleCloseSound(t, ch);
      }
    }

    /**
     * Any run of such requests, up to the first other one, does to the list of
     * windows, the sounds and their outputs what the requests say, and the
     * priorities stand for that list.
     */
    method Serve(actions: seq<Action>) returns (done: nat)
      requires Valid() && Shows()
      modifies `decoders, `winPriority, `zOrder, `windows, `outputs, ids`used, ids`beUsed, ids`third
      ensures Valid() && Shows() && Orderly(View(), Places())
      ensures done <= |actions| && View() == Replay(old(View()), actions[..done], Places())
      ensures done < |actions| ==> !Fits(View(), actions[done])
    {
      hide *;
      ghost var wall, room := View(), Places();
      ReplayNone(wall, actions, room);
      done := 0;
      while done < |actions| && Suits(actions[done])
        invariant 0 <= done <= |actions| && Valid() && Shows()
        invariant Places() == room && View() == Replay(wall, actions[..done], room)
      {
        SuitsIff(actions[done]);
        ReplayStep(wall, actions, room, done);
        Handle(actions[done]);
        done := done + 1;
      }
      ViewFacts();
      if done < |actions| {
        SuitsIff(actions[done]);
      }
    }
  }

  /**
   * An output outlives its task: a client opens a sound, all tasks are cleared,
   * and the next client of the output gets an ID that is not in use.
   */
  method OutputOutlivesTask(h: LogicHandle, t: nat, u: nat, ch: Channel) returns (success: nat)
    requires h.Valid() && t !in h.ids.third && ch != OtherChannel && ch !in h.outputs
    requires exists x :: x in h.ids.audio && x !in h.ids.used
    modifies h, h.ids
    ensures success == 0 && u in h.ids.third && h.ids.third[u] !in h.ids.used && !h.Valid()
  {
    hide Represents, Linked, Slots, Pools, Counted, UpTo;
    success := h.OpenAudio(t, ch);
    h.KindsCleared(2);
    h.ClearAllTask(2);
    assert h.ids.third == map[];
    success := h.OpenAudio(u, ch);
  }
}
