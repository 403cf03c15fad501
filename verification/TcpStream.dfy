/**
 * The sending half of a TCP connection in its simple form: the messages sent,
 * those accepted, the bytes on the wire and the bytes waiting for it, and one
 * step for each thing that can happen.
 */
module TcpStream {
  import opened ByteBuffer

  datatype State = Disconnected | Connecting | Connected | Disconnecting

  /** Outcome of a write: how much was taken, or why nothing was. */
  datatype WriteResult =
    | Wrote(n: nat)
    | WouldBlock
    | Broken             // EPIPE or ECONNRESET
    | OtherError

  /** Functors of this connection in the queue of its loop. */
  datatype Task = SendTask(message: seq<Byte>) | ShutdownTask | ForceCloseTask

  /** User callbacks handed to the loop. */
  datatype Notice = WriteComplete | HighWaterMark(size: nat)

  /** What can happen to a connection, in any order. */
  datatype Event =
    | Establish
    | SendFrom(message: seq<Byte>, inLoopThread: bool, w: WriteResult)
    | ShutdownFrom(inLoopThread: bool)
    | Writable(w: WriteResult)
    | PeerCloses
    | ForceClosed
    | ForceClosedLater
    | DelayEnds
    | TaskRuns(w: WriteResult)
    | Destroyed

  predicate Breaks(e: Event) {
    match e
    case SendFrom(_, _, w) => w.Broken?
    case Writable(w) => w.Broken?
    case TaskRuns(w) => w.Broken?
    case _ => false
  }

  /** What the kernel answers: never more than it was given, and EPIPE after a half-close. */
  function Answer(w: WriteResult, len: nat, halfClosed: bool): WriteResult {
    if halfClosed then Broken
    else if w.Wrote? && w.n > len then Wrote(len)
    else w
  }

  /** Before a half-close every answer within the length is possible; after it only an error. */
  lemma AnswerIs(w: WriteResult, len: nat, halfClosed: bool)
    ensures Answer(w, len, halfClosed) == w <==> if halfClosed then w == Broken else w.Wrote? ==> w.n <= len
    ensures Answer(Answer(w, len, halfClosed), len, halfClosed) == Answer(w, len, halfClosed)
    ensures !halfClosed && w.Wrote? && w.n > len ==> Answer(w, len, halfClosed) == Wrote(len)
  {
  }

  // ------------------------------------------------- messages and bytes

  function Concat(messages: seq<seq<Byte>>): seq<Byte> {
    if messages == [] then [] else Concat(messages[..|messages| - 1]) + messages[|messages| - 1]
  }

  lemma ConcatSnoc(messages: seq<seq<Byte>>, m: seq<Byte>)
    ensures Concat(messages + [m]) == Concat(messages) + m
  {
    assert (messages + [m])[..|messages|] == messages;
  }

  lemma {:induction false} ConcatConcat(a: seq<seq<Byte>>, b: seq<seq<Byte>>)
    ensures Concat(a + b) == Concat(a) + Concat(b)
  {
    if b == [] {
      assert a + b == a;
    } else {
      var c := b[..|b| - 1];
      assert (a + b)[..|a + b| - 1] == a + c;
      ConcatConcat(a, c);
      Assoc(Concat(a), Concat(c), b[|b| - 1]);
    }
  }

  lemma Joined(wire: seq<Byte>, waiting: seq<Byte>, m: seq<Byte>, n: nat)
    requires n <= |m| && (n > 0 ==> waiting == [])
    ensures (wire + m[..n]) + (waiting + m[n..]) == wire + waiting + m
    ensures waiting != [] ==> waiting + m[n..] != [] && wire + m[..n] == wire
  {
    assert m == m[..n] + m[n..];
    if n > 0 {
      assert waiting + m[n..] == m[n..] && wire + waiting == wire;
      Assoc(wire, m[..n], m[n..]);
    } else {
      assert m[..n] == [] && m[n..] == m && wire + m[..n] == wire;
      Assoc(wire, waiting, m);
    }
  }

  /** Accepting a message, n bytes of it straight to the wire, extends the stream by it. */
  lemma StreamGrows(wire: seq<Byte>, buffered: seq<Byte>, kept: seq<seq<Byte>>, data: seq<Byte>, n: nat)
    requires wire + buffered == Concat(kept) && n <= |data| && (n > 0 ==> buffered == [])
    ensures (wire + data[..n]) + (buffered + data[n..]) == Concat(kept + [data])
    ensures n == |data| ==> buffered + data[n..] == buffered
  {
    ConcatSnoc(kept, data);
    hide Concat;
    Joined(wire, buffered, data, n);
  }

  lemma WrittenMoves(wire: seq<Byte>, buffered: seq<Byte>, n: nat)
    requires n <= |buffered|
    ensures (wire + buffered[..n]) + buffered[n..] == wire + buffered
  {
    assert buffered == buffered[..n] + buffered[n..];
  }

  /** The messages that wait in the loop's queue. */
  function Pending(tasks: seq<Task>): seq<seq<Byte>> {
    if tasks == [] then []
    else (if tasks[0].SendTask? then [tasks[0].message] else []) + Pending(tasks[1..])
  }

  lemma PendingFirst(tasks: seq<Task>)
    requires tasks != []
    ensures Pending(tasks) == (if tasks[0].SendTask? then [tasks[0].message] else []) + Pending(tasks[1..])
    ensures !tasks[0].SendTask? ==> Pending(tasks) == Pending(tasks[1..])
  {
  }

  lemma {:induction false} PendingSnoc(tasks: seq<Task>, t: Task)
    ensures Pending(tasks + [t]) == Pending(tasks) + (if t.SendTask? then [t.message] else [])
  {
    if tasks == [] {
      assert tasks + [t] == [t] && [t][1..] == [];
    } else {
      assert (tasks + [t])[0] == tasks[0] && (tasks + [t])[1..] == tasks[1..] + [t];
      PendingSnoc(tasks[1..], t);
    }
  }

  lemma Assoc(a: seq<Byte>, b: seq<Byte>, c: seq<Byte>)
    ensures a + b + c == a + (b + c)
  {
  }

  predicate AllAre(messages: seq<seq<Byte>>, m: seq<Byte>) {
    forall i :: 0 <= i < |messages| ==> messages[i] == m
  }

  /** A message may pass others unnoticed exactly when they are all the same. */
  lemma {:induction false} PassesIff(waiting: seq<seq<Byte>>, m: seq<Byte>)
    ensures waiting + [m] == [m] + waiting <==> AllAre(waiting, m)
  {
    if waiting + [m] == [m] + waiting {
      forall i | 0 <= i < |waiting| ensures waiting[i] == m {
        PassesAt(waiting, m, i);
      }
    }
    if AllAre(waiting, m) {
      assert forall i :: 0 <= i <= |waiting| ==> (waiting + [m])[i] == m && ([m] + waiting)[i] == m;
    }
  }

  lemma {:induction false} PassesAt(waiting: seq<seq<Byte>>, m: seq<Byte>, i: nat)
    requires waiting + [m] == [m] + waiting && i < |waiting|
    ensures waiting[i] == m
  {
    assert waiting[i] == (waiting + [m])[i] == ([m] + waiting)[i];
    if i > 0 {
      PassesAt(waiting, m, i - 1);
    }
  }

  // ------------------------------------------------------ the connection

  /** What is fixed when the connection is made. */
  datatype Setup = Setup(highWaterMark: nat, onWriteComplete: bool, onHighWaterMark: bool) {
    /** The notice due when the buffer grows from one length to another. */
    function Crossing(before: nat, after: nat): seq<Notice> {
      if onHighWaterMark && before < highWaterMark <= after then [HighWaterMark(after)] else []
    }

    function Completed(whole: bool): seq<Notice> {
      if onWriteComplete && whole then [WriteComplete] else []
    }
  }

  datatype Link = Link(
    setup: Setup,
    state: State,
    tasks: seq<Task>,
    delayed: bool,               // a forced close will come by timer
    sent: seq<seq<Byte>>,        // every message send has taken while connected
    kept: seq<seq<Byte>>,        // every message accepted
    wire: seq<Byte>,             // every byte the socket has taken
    waiting: seq<Byte>,          // accepted and not yet taken
    shut: bool,                  // the shutdown has had its turn
    halfClosed: bool,
    lost: bool,                  // a message was dropped: broken socket, or down before its turn
    overtook: bool,              // the loop thread sent past a different message that waited
    notices: seq<Notice>)
  {
    predicate Up() { state == Connected || state == Disconnecting }
  }

  function Fresh(setup: Setup): Link {
    Link(setup, Connecting, [], false, [], [], [], [], false, false, false, false, [])
  }

  /** A message joins the stream, n bytes of it on the wire and the rest waiting. */
  function Joins(l: Link, m: seq<Byte>, n: nat): Link
    requires n <= |m|
  {
    l.(kept := l.kept + [m], wire := l.wire + m[..n], waiting := l.waiting + m[n..],
       notices := l.notices + l.setup.Crossing(|l.waiting|, |l.waiting| + |m| - n))
  }

  /** A message's turn: it joins the stream whole or is dropped whole. */
  function Accepted(l: Link, m: seq<Byte>, w: WriteResult): Link {
    var a := Answer(w, |m|, l.halfClosed);
    if l.state == Disconnected || (l.waiting == [] && a.Broken?) then l.(lost := true)
    else
      var whole := l.waiting == [] && a == Wrote(|m|);
      Joins(l.(notices := l.notices + l.setup.Completed(whole)), m, if l.waiting == [] && a.Wrote? then a.n else 0)
  }

  function SentFrom(l: Link, m: seq<Byte>, here: bool, w: WriteResult): Link {
    if l.state != Connected then l
    else if here then
      Accepted(l.(sent := l.sent + [m], overtook := l.overtook || !AllAre(Pending(l.tasks), m)), m, w)
    else
      l.(sent := l.sent + [m], tasks := l.tasks + [SendTask(m)])
  }

  /** The shutdown's turn: at once if nothing waits for the wire, and otherwise when nothing does. */
  function Shut(l: Link): Link {
    l.(shut := true, halfClosed := l.halfClosed || l.waiting == [] || l.state == Disconnected)
  }

  function ShutFrom(l: Link, here: bool): Link {
    if l.state != Connected then l
    else if here then Shut(l.(state := Disconnecting))
    else l.(state := Disconnecting, tasks := l.tasks + [ShutdownTask])
  }

  function Written(l: Link, w: WriteResult): Link {
    var a := Answer(w, |l.waiting|, l.halfClosed);
    if l.state == Disconnected || l.waiting == [] || !a.Wrote? || a.n == 0 then l
    else
      var moved := l.(wire := l.wire + l.waiting[..a.n], waiting := l.waiting[a.n..]);
      if moved.waiting != [] then moved
      else
        var done := moved.(notices := l.notices + l.setup.Completed(true));
        if done.state == Disconnecting then Shut(done) else done
  }

  function Down(l: Link): Link {
    if l.Up() then l.(state := Disconnected) else l
  }

  function ForceQueued(l: Link): Link {
    if l.Up() then l.(state := Disconnecting, tasks := l.tasks + [ForceCloseTask]) else l
  }

  /** The oldest functor's turn. */
  function Turn(l: Link, w: WriteResult): Link {
    if l.tasks == [] then l
    else
      var rest := l.(tasks := l.tasks[1..]);
      match l.tasks[0]
      case SendTask(m) => Accepted(rest, m, w)
      case ShutdownTask => Shut(rest)
      case ForceCloseTask => Down(rest)
  }

  function Established(l: Link): Link {
    if l.state == Connecting then l.(state := Connected) else l
  }

  function ForcedLater(l: Link): Link {
    if l.Up() then l.(state := Disconnecting, delayed := true) else l
  }

  function DelayEnded(l: Link): Link {
    if l.delayed then ForceQueued(l).(delayed := false) else l
  }

  function Destroy(l: Link): Link {
    if l.state == Connected then l.(state := Disconnected) else l
  }

  function Happened(l: Link, e: Event): Link {
    match e
    case Establish => Established(l)
    case SendFrom(m, here, w) => SentFrom(l, m, here, w)
    case ShutdownFrom(here) => ShutFrom(l, here)
    case Writable(w) => Written(l, w)
    case PeerCloses => Down(l)
    case ForceClosed => ForceQueued(l)
    case ForceClosedLater => ForcedLater(l)
    case DelayEnds => DelayEnded(l)
    case TaskRuns(w) => Turn(l, w)
    case Destroyed => Destroy(l)
  }

  /** The answers of the kernel are already those it can give. */
  lemma AnswersOnce(l: Link, e: Event)
    ensures e.SendFrom? ==>
              Happened(l, e) == SentFrom(l, e.message, e.inLoopThread, Answer(e.w, |e.message|, l.halfClosed))
    ensures e.Writable? ==> Happened(l, e) == Written(l, Answer(e.w, |l.waiting|, l.halfClosed))
    ensures e.TaskRuns? && l.tasks != [] ==>
              var len := if l.tasks[0].SendTask? then |l.tasks[0].message| else 0;
              Happened(l, e) == Turn(l, Answer(e.w, len, l.halfClosed))
  {
  }

  function Replay(l: Link, events: seq<Event>): Link {
    if events == [] then l else Happened(Replay(l, events[..|events| - 1]), events[|events| - 1])
  }

  lemma ReplayEnds(l: Link, events: seq<Event>)
    ensures Replay(l, events[..0]) == l && events[..|events|] == events
  {
  }

  lemma ReplayStep(l: Link, events: seq<Event>, i: nat)
    requires i < |events|
    ensures Replay(l, events[..i + 1]) == Happened(Replay(l, events[..i]), events[i])
  {
    assert events[..i + 1][..i] == events[..i];
  }

  // ---------------------------------------------------------- invariants

  /**
   * The accepted messages are on the wire or wait for it, in order; and while
   * the connection is not down, a half-closed stream is complete, and once the
   * shutdown has had its turn the half-close has happened or comes with the
   * write that takes the last byte.
   */
  ghost predicate Streams(l: Link) {
    && l.wire + l.waiting == Concat(l.kept)
    && (l.halfClosed && l.state != Disconnected ==> l.waiting == [])
    && (l.shut ==> l.state == Disconnecting || l.state == Disconnected)
    && (l.shut && l.state != Disconnected ==> l.halfClosed || l.waiting != [])
  }

  /** A connection is disconnecting only with one of the ways to end it under way. */
  predicate Ending(l: Link) {
    && (l.state == Disconnecting ==> l.shut || l.delayed || ShutdownTask in l.tasks || ForceCloseTask in l.tasks)
    && (l.state == Connecting ==> l.tasks == [])
    && (l.state == Connected ==> OnlySends(l.tasks))
    && (l.halfClosed ==> l.shut)
  }

  /** Unless one was dropped or overtaken, the messages sent are those accepted and those waiting, in order. */
  predicate Accounted(l: Link) {
    !l.lost && !l.overtook ==> l.sent == l.kept + Pending(l.tasks)
  }

  ghost predicate Proper(l: Link) {
    Streams(l) && Ending(l) && Accounted(l)
  }

  predicate OnlySends(tasks: seq<Task>) {
    forall i :: 0 <= i < |tasks| ==> tasks[i].SendTask?
  }

  lemma AcceptedEnding(l: Link, m: seq<Byte>, w: WriteResult)
    requires Ending(l)
    ensures Ending(Accepted(l, m, w))
  {
  }

  lemma AcceptedStreams(l: Link, m: seq<Byte>, w: WriteResult)
    requires Streams(l)
    ensures Streams(Accepted(l, m, w))
  {
    var a := Answer(w, |m|, l.halfClosed);
    StreamGrows(l.wire, l.waiting, l.kept, m, if l.waiting == [] && a.Wrote? then a.n else 0);
    hide Concat;
  }

  /** A message's turn takes it out of the waiting ones and into the stream, in order, unless it is lost. */
  lemma AcceptedAccounted(l: Link, m: seq<Byte>, rest: seq<seq<Byte>>, w: WriteResult)
    requires !l.lost && !l.overtook ==> l.sent == l.kept + ([m] + rest)
    ensures var l' := Accepted(l, m, w); !l'.lost && !l'.overtook ==> l'.sent == l'.kept + rest
  {
    assert l.kept + ([m] + rest) == l.kept + [m] + rest;
  }

  lemma WrittenStreams(l: Link, w: WriteResult)
    requires Streams(l)
    ensures Streams(Written(l, w))
  {
    var a := Answer(w, |l.waiting|, l.halfClosed);
    if a.Wrote? {
      WrittenMoves(l.wire, l.waiting, a.n);
    }
    hide Concat;
  }

  /** A shutdown whose turn has come finds the connection closing or down. */
  lemma ShutdownIsDue(l: Link)
    requires Proper(l) && ShutdownTask in l.tasks
    ensures l.state == Disconnecting || l.state == Disconnected
  {
  }

  lemma ShutStreams(l: Link)
    requires Streams(l) && (l.state == Disconnecting || l.state == Disconnected)
    ensures Streams(Shut(l))
  {
  }

  lemma SentKeeps(l: Link, m: seq<Byte>, here: bool, w: WriteResult)
    requires Proper(l)
    ensures Proper(SentFrom(l, m, here, w))
  {
    if l.state == Connected && here {
      var asked := l.(sent := l.sent + [m], overtook := l.overtook || !AllAre(Pending(l.tasks), m));
      assert Streams(asked) && Ending(asked);
      AcceptedStreams(asked, m, w);
      SendIsAccounted(l.kept, Pending(l.tasks), m);
      AcceptedAccounted(asked, m, Pending(l.tasks), w);
      AcceptedEnding(asked, m, w);
      hide Streams, Ending, Accounted, Accepted, AllAre, Pending, Concat, Joins, Answer;
    } else if l.state == Connected {
      PendingSnoc(l.tasks, SendTask(m));
      hide Concat, Pending;
    }
  }

  /** What a message does to an account that is right when it goes before all that wait. */
  lemma SendIsAccounted(kept: seq<seq<Byte>>, waiting: seq<seq<Byte>>, m: seq<Byte>)
    ensures kept + waiting + [m] == kept + ([m] + waiting) <==> AllAre(waiting, m)
  {
    PassesIff(waiting, m);
    assert kept + waiting + [m] == kept + (waiting + [m]);
    assert (kept + (waiting + [m]))[|kept|..] == waiting + [m];
    assert (kept + ([m] + waiting))[|kept|..] == [m] + waiting;
  }

  lemma TurnKeeps(l: Link, w: WriteResult)
    requires Proper(l) && l.tasks != []
    ensures Proper(Turn(l, w))
  {
    PendingFirst(l.tasks);
    var rest := l.(tasks := l.tasks[1..]);
    assert Streams(rest);
    match l.tasks[0] {
      case SendTask(m) =>
        MessageKeeps(l, m, rest, w);
      case ShutdownTask =>
        ShutStreams(rest);
        hide Concat, Pending;
      case ForceCloseTask =>
        hide Concat, Pending;
    }
  }

  lemma MessageKeeps(l: Link, m: seq<Byte>, rest: Link, w: WriteResult)
    requires Proper(l) && l.tasks != [] && l.tasks[0] == SendTask(m) && rest == l.(tasks := l.tasks[1..])
    ensures Proper(Accepted(rest, m, w))
  {
    PendingFirst(l.tasks);
    assert Ending(rest);
    AcceptedStreams(rest, m, w);
    AcceptedAccounted(rest, m, Pending(rest.tasks), w);
    AcceptedEnding(rest, m, w);
    hide Streams, Ending, Accounted, Accepted, Pending, Concat, Joins, Answer;
  }

  /** What is in the queue besides the messages does not count. */
  lemma QueuedKeeps(l: Link, t: Task)
    requires Accounted(l) && !t.SendTask?
    ensures Accounted(l.(tasks := l.tasks + [t]))
  {
    PendingSnoc(l.tasks, t);
  }

  lemma HappenedKeeps(l: Link, e: Event)
    requires Proper(l)
    ensures Proper(Happened(l, e))
  {
    hide Concat, Pending;
    match e {
      case SendFrom(m, here, w) => SentKeeps(l, m, here, w);
      case Writable(w) => WrittenStreams(l, w);
      case TaskRuns(w) => if l.tasks != [] { TurnKeeps(l, w); }
      case _ =>
        QueuedKeeps(l, ShutdownTask);
        QueuedKeeps(l, ForceCloseTask);
    }
  }

  lemma {:induction false} ReplayKeeps(l: Link, events: seq<Event>)
    requires Proper(l)
    ensures Proper(Replay(l, events))
  {
    if events != [] {
      hide Proper, Happened;
      ReplayKeeps(l, events[..|events| - 1]);
      HappenedKeeps(Replay(l, events[..|events| - 1]), events[|events| - 1]);
    }
  }

  // ------------------------------------------------------------- results

  /**
   * With nothing lost or overtaken, wire, buffer and queue hold the messages
   * sent, in order; and a closing connection with nothing left to do has
   * half-closed behind the last byte sent.
   */
  lemma StreamOfSent(l: Link)
    requires Proper(l) && !l.lost && !l.overtook
    ensures l.wire + l.waiting + Concat(Pending(l.tasks)) == Concat(l.sent)
    ensures l.state == Disconnecting && l.tasks == [] && !l.delayed && l.waiting == [] ==>
              l.halfClosed && l.wire == Concat(l.sent)
  {
    hide Concat;
    ConcatConcat(l.kept, Pending(l.tasks));
    assert l.kept + [] == l.kept && l.wire + [] == l.wire;
  }

  /** What was sent, accepted and written stays so, and no loss or overtaking is without cause. */
  ghost predicate Grown(l: Link, l': Link, broke: bool, here: bool) {
    && l'.setup == l.setup && l.wire <= l'.wire && l.sent <= l'.sent && l.kept <= l'.kept
    && (l.state == Disconnected ==> l'.state == Disconnected)
    && (l.halfClosed ==> l'.halfClosed)
    && (l'.lost ==> l.lost || broke || l'.halfClosed || l'.state == Disconnected)
    && (l'.overtook ==> l.overtook || here)
  }

  lemma HappenedGrows(l: Link, e: Event)
    ensures Grown(l, Happened(l, e), Breaks(e), e.SendFrom? && e.inLoopThread)
  {
    hide Grown, SentFrom, Written, Turn, ShutFrom, Down, ForceQueued, ForcedLater, DelayEnded, Destroy;
    match e {
      case SendFrom(m, here, w) => SentGrows(l, m, here, w);
      case Writable(w) => WrittenGrows(l, w);
      case TaskRuns(w) => TurnGrows(l, w);
      case _ => OtherGrows(l, e);
    }
  }

  lemma OtherGrows(l: Link, e: Event)
    requires !e.SendFrom? && !e.Writable? && !e.TaskRuns?
    ensures Grown(l, Happened(l, e), false, false)
  {
    hide Grown, Established, ShutFrom, Down, ForceQueued, ForcedLater, DelayEnded, Destroy, Turn, Written, SentFrom;
    match e {
      case Establish => StateGrows(l);
      case PeerCloses => StateGrows(l);
      case Destroyed => StateGrows(l);
      case ShutdownFrom(here) => ShutGrows(l, here);
      case _ => ForceGrows(l);
    }
  }

  lemma StateGrows(l: Link)
    ensures Grown(l, Established(l), false, false) && Grown(l, Down(l), false, false)
    ensures Grown(l, Destroy(l), false, false)
  {
    hide Grown, Established, Down, Destroy;
    EstablishedGrows(l);
    DownGrows(l);
  }

  lemma EstablishedGrows(l: Link)
    ensures Grown(l, Established(l), false, false)
  {
  }

  lemma DownGrows(l: Link)
    ensures Grown(l, Down(l), false, false) && Grown(l, Destroy(l), false, false)
  {
  }

  lemma ForceGrows(l: Link)
    ensures Grown(l, ForceQueued(l), false, false) && Grown(l, ForcedLater(l), false, false)
    ensures Grown(l, DelayEnded(l), false, false)
  {
  }

  lemma ShutGrows(l: Link, here: bool)
    ensures Grown(l, ShutFrom(l, here), false, false)
  {
  }

  lemma SentGrows(l: Link, m: seq<Byte>, here: bool, w: WriteResult)
    ensures Grown(l, SentFrom(l, m, here, w), w.Broken?, here)
  {
    AcceptedGrows(l.(sent := l.sent + [m], overtook := l.overtook || !AllAre(Pending(l.tasks), m)), m, w);
    hide Accepted, AllAre, Pending;
  }

  lemma TurnGrows(l: Link, w: WriteResult)
    ensures Grown(l, Turn(l, w), w.Broken?, false)
  {
    if l.tasks != [] && l.tasks[0].SendTask? {
      AcceptedGrows(l.(tasks := l.tasks[1..]), l.tasks[0].message, w);
    }
    hide Accepted;
  }

  lemma AcceptedGrows(l: Link, m: seq<Byte>, w: WriteResult)
    ensures Grown(l, Accepted(l, m, w), w.Broken?, false)
    ensures var l' := Accepted(l, m, w); l'.sent == l.sent && l'.overtook == l.overtook
  {
  }

  lemma WrittenGrows(l: Link, w: WriteResult)
    ensures Grown(l, Written(l, w), w.Broken?, false)
  {
  }

  lemma {:induction false} ReplayGrows(l: Link, events: seq<Event>)
    ensures Grown(l, Replay(l, events), exists i :: 0 <= i < |events| && Breaks(events[i]),
                  exists i :: 0 <= i < |events| && events[i].SendFrom? && events[i].inLoopThread)
  {
    if events != [] {
      var front := events[..|events| - 1];
      ReplayGrows(l, front);
      HappenedGrows(Replay(l, front), events[|events| - 1]);
      hide Happened;
    }
  }

  /** Only the state, the queue, the timer and the shutdown are different. */
  predicate SameMessages(l: Link, l': Link) {
    && l'.setup == l.setup && l'.sent == l.sent && l'.kept == l.kept && l'.wire == l.wire && l'.waiting == l.waiting
    && l'.lost == l.lost && l'.overtook == l.overtook && l'.notices == l.notices
  }

  lemma QuietEvent(l: Link, e: Event)
    requires !e.SendFrom? && !e.Writable? && !e.TaskRuns?
    ensures SameMessages(l, Happened(l, e))
  {
    hide SameMessages, Established, ShutFrom, ForceQueued, ForcedLater, DelayEnded, Down, Destroy;
    QuietState(l);
    QuietForce(l);
    match e {
      case ShutdownFrom(here) => QuietShut(l, here);
      case _ =>
    }
  }

  lemma QuietState(l: Link)
    ensures SameMessages(l, Established(l)) && SameMessages(l, Down(l)) && SameMessages(l, Destroy(l))
  {
  }

  lemma QuietForce(l: Link)
    ensures SameMessages(l, ForceQueued(l)) && SameMessages(l, ForcedLater(l)) && SameMessages(l, DelayEnded(l))
  {
  }

  lemma QuietShut(l: Link, here: bool)
    ensures SameMessages(l, ShutFrom(l, here))
  {
  }

  /** What the events that bring and take no bytes do to the state. */
  lemma EventDoes(l: Link, e: Event)
    requires !e.SendFrom? && !e.Writable? && !e.TaskRuns?
    ensures SameMessages(l, Happened(l, e))
    ensures Happened(l, e).state
            == match e
               case Establish => if l.state == Connecting then Connected else l.state
               case PeerCloses => if l.state == Connected || l.state == Disconnecting then Disconnected else l.state
               case Destroyed => if l.state == Connected then Disconnected else l.state
               case DelayEnds => if l.delayed && l.state == Connected then Disconnecting else l.state
               case _ => if l.state == Connected then Disconnecting else l.state
  {
    hide SameMessages;
    QuietEvent(l, e);
  }

  /** And what they queue and shut. */
  lemma EventQueues(l: Link, e: Event)
    requires !e.SendFrom? && !e.Writable? && !e.TaskRuns?
    ensures var l' := Happened(l, e);
            var up := l.state == Connected || l.state == Disconnecting;
            && l'.tasks == l.tasks + (if up && (e.ForceClosed? || (e.DelayEnds? && l.delayed)) then [ForceCloseTask]
                                      else if l.state == Connected && e == ShutdownFrom(false) then [ShutdownTask]
                                      else [])
            && l'.delayed == ((l.delayed && !e.DelayEnds?) || (up && e.ForceClosedLater?))
    ensures var l' := Happened(l, e);
            var shuts := l.state == Connected && e == ShutdownFrom(true);
            l'.shut == (l.shut || shuts) && l'.halfClosed == (l.halfClosed || (shuts && l.waiting == []))
  {
    assert l.tasks + [] == l.tasks;
  }

  /** What a functor's turn does: messages join the stream, a shutdown or a forced close takes effect. */
  lemma TurnDoes(l: Link, w: WriteResult)
    ensures l.tasks == [] ==> Turn(l, w) == l
    ensures l.tasks != [] ==> Turn(l, w).tasks == l.tasks[1..]
    ensures l.tasks != [] && l.tasks[0].ForceCloseTask? ==>
              && SameMessages(l, Turn(l, w))
              && Turn(l, w).state == if l.state == Connected || l.state == Disconnecting then Disconnected else l.state
    ensures l.tasks != [] && l.tasks[0].ShutdownTask? ==>
              && SameMessages(l, Turn(l, w)) && Turn(l, w).state == l.state && Turn(l, w).shut
              && Turn(l, w).halfClosed == (l.halfClosed || l.waiting == [] || l.state == Disconnected)
    ensures l.tasks != [] && l.tasks[0].SendTask? ==>
              Turn(l, w) == Accepted(l.(tasks := l.tasks[1..]), l.tasks[0].message, w)
  {
    hide Accepted;
    if l.tasks != [] && l.tasks[0].SendTask? {
      AcceptedTasks(l.(tasks := l.tasks[1..]), l.tasks[0].message, w);
    }
  }

  lemma AcceptedTasks(l: Link, m: seq<Byte>, w: WriteResult)
    ensures Accepted(l, m, w).tasks == l.tasks
  {
  }

  /** What a message's turn does with the kernel's answer: nothing taken while bytes wait. */
  lemma AcceptedDoes(l: Link, m: seq<Byte>, w: WriteResult)
    requires Answer(w, |m|, l.halfClosed) == w
    ensures var l' := Accepted(l, m, w);
            && l'.state == l.state && l'.tasks == l.tasks && l'.sent == l.sent && l'.overtook == l.overtook
            && l'.halfClosed == l.halfClosed && l'.shut == l.shut && l'.delayed == l.delayed
    ensures var l' := Accepted(l, m, w);
            if l.state == Disconnected || (l.waiting == [] && w.Broken?) then
              l'.lost && l'.kept == l.kept && l'.wire == l.wire && l'.waiting == l.waiting && l'.notices == l.notices
            else
              var n := if l.waiting == [] && w.Wrote? then w.n else 0;
              && l'.lost == l.lost && l'.kept == l.kept + [m]
              && l'.wire == l.wire + m[..n] && l'.waiting == l.waiting + m[n..]
              && l'.notices == l.notices
                               + (if l.setup.onWriteComplete && l.waiting == [] && w == Wrote(|m|) then [WriteComplete] else [])
                               + (if l.setup.onHighWaterMark && |l.waiting| < l.setup.highWaterMark <= |l'.waiting|
                                  then [HighWaterMark(|l'.waiting|)] else [])
  {
  }

  /** What a write of waiting bytes does. */
  lemma WrittenDoes(l: Link, w: WriteResult)
    requires Answer(w, |l.waiting|, l.halfClosed) == w
    ensures var l' := Written(l, w);
            var n := if l.state != Disconnected && w.Wrote? then w.n else 0;
            var drained := l.state != Disconnected && l.waiting != [] && w.Wrote? && w.n == |l.waiting|;
            && l'.wire == l.wire + l.waiting[..n] && l'.waiting == l.waiting[n..]
            && l'.state == l.state && l'.tasks == l.tasks && l'.sent == l.sent && l'.kept == l.kept && l'.lost == l.lost
            && l'.overtook == l.overtook && l'.delayed == l.delayed
            && l'.notices == l.notices + (if l.setup.onWriteComplete && drained then [WriteComplete] else [])
            && l'.halfClosed == (l.halfClosed || (drained && l.state == Disconnecting))
  {
    assert l.waiting[..0] == [] && l.wire + [] == l.wire && l.waiting[0..] == l.waiting && l.notices + [] == l.notices;
  }

  /** What send does: at once on the loop thread, and otherwise by the queue. */
  lemma SentDoes(l: Link, m: seq<Byte>, here: bool, w: WriteResult)
    ensures var l' := SentFrom(l, m, here, w);
            if l.state != Connected then l' == l
            else if here then
              l' == Accepted(l.(sent := l.sent + [m],
                                overtook := l.overtook || exists i :: 0 <= i < |Pending(l.tasks)| && Pending(l.tasks)[i] != m),
                             m, w)
            else l' == l.(sent := l.sent + [m], tasks := l.tasks + [SendTask(m)])
  {
    hide Accepted, Pending;
    assert AllAre(Pending(l.tasks), m) <==> !exists i :: 0 <= i < |Pending(l.tasks)| && Pending(l.tasks)[i] != m;
    hide AllAre;
  }

  /** A connection that is down stays down, and nothing of its stream changes again. */
  lemma {:induction false} DownStays(l: Link, events: seq<Event>)
    requires l.state == Disconnected
    ensures var l' := Replay(l, events);
            l'.state == Disconnected && l'.wire == l.wire && l'.sent == l.sent && l'.kept == l.kept && l'.waiting == l.waiting
  {
    if events != [] {
      hide Replay, Happened;
      var front := events[..|events| - 1];
      DownStays(l, front);
      ReplayEnds(l, events);
      ReplayStep(l, events, |front|);
      DownOnce(Replay(l, front), events[|events| - 1]);
    } else {
      ReplayEnds(l, events);
    }
  }

  lemma DownOnce(l: Link, e: Event)
    requires l.state == Disconnected
    ensures var l' := Happened(l, e);
            l'.state == Disconnected && l'.wire == l.wire && l'.sent == l.sent && l'.kept == l.kept && l'.waiting == l.waiting
  {
    hide Happened, Accepted, Written, Turn, SentFrom;
    match e {
      case SendFrom(m, here, w) => SentDoes(l, m, here, w);
      case Writable(w) => WrittenDown(l, w);
      case TaskRuns(w) => TurnDown(l, w);
      case _ => EventDoes(l, e);
    }
    IsEvent(l, e);
  }

  lemma IsEvent(l: Link, e: Event)
    ensures e.SendFrom? ==> Happened(l, e) == SentFrom(l, e.message, e.inLoopThread, e.w)
    ensures e.Writable? ==> Happened(l, e) == Written(l, e.w)
    ensures e.TaskRuns? ==> Happened(l, e) == Turn(l, e.w)
  {
    hide Accepted, Written, Turn, SentFrom;
  }

  lemma WrittenDown(l: Link, w: WriteResult)
    requires l.state == Disconnected
    ensures Written(l, w) == l
  {
  }

  lemma TurnDown(l: Link, w: WriteResult)
    requires l.state == Disconnected
    ensures var l' := Turn(l, w);
            l'.state == Disconnected && l'.wire == l.wire && l'.sent == l.sent && l'.kept == l.kept && l'.waiting == l.waiting
  {
    hide Answer, Joins;
  }

  /** Once the peer has closed a connection that was up, it is down for good. */
  lemma PeerClosesForGood(l: Link, events: seq<Event>, k: nat)
    requires k < |events| && events[k] == PeerCloses
    requires Replay(l, events[..k]).state == Connected || Replay(l, events[..k]).state == Disconnecting
    ensures var before, l' := Replay(l, events[..k]), Replay(l, events);
            && l'.state == Disconnected && l'.wire == before.wire && l'.sent == before.sent && l'.kept == before.kept
            && l'.waiting == before.waiting
  {
    ReplayStep(l, events, k);
    EventDoes(Replay(l, events[..k]), PeerCloses);
    ReplaySplits(l, events, k + 1);
    DownStays(Replay(l, events[..k + 1]), events[k + 1..]);
    hide *;
  }

  lemma {:induction false} ReplaySplits(l: Link, events: seq<Event>, k: nat)
    requires k <= |events|
    ensures Replay(l, events) == Replay(Replay(l, events[..k]), events[k..])
    decreases |events|
  {
    hide Happened;
    if k == |events| {
      assert events[..k] == events && events[k..] == [];
    } else {
      var front := events[..|events| - 1];
      assert front[..k] == events[..k] && events[k..][..|events| - k - 1] == front[k..];
      ReplaySplits(l, front, k);
    }
  }

  /**
   * With every message accounted for, a message the loop thread sends keeps
   * them so exactly if all that wait are the same, and it is buffered or the
   * write does not find the socket broken.
   */
  lemma OvertakesIff(l: Link, m: seq<Byte>, w: WriteResult)
    requires l.state == Connected && l.sent == l.kept + Pending(l.tasks)
    ensures var l' := SentFrom(l, m, true, w);
            l'.sent == l'.kept + Pending(l'.tasks) <==>
              (l.waiting != [] || !Answer(w, |m|, l.halfClosed).Broken?) && AllAre(Pending(l.tasks), m)
  {
    var waiting := Pending(l.tasks);
    SendIsAccounted(l.kept, waiting, m);
    assert l.kept + [m] + waiting == l.kept + ([m] + waiting);
    assert |l.kept + waiting + [m]| != |l.kept + waiting|;
    hide AllAre, Pending;
  }

  /** The order breaks: the loop thread sends while another thread's message waits for its turn. */
  lemma Overtaken(setup: Setup)
    ensures var l := Replay(Fresh(setup),
                            [Establish, SendFrom([1], false, WouldBlock), SendFrom([2], true, Wrote(1)), TaskRuns(Wrote(1))]);
            !l.lost && l.waiting == [] && l.tasks == [] && l.sent == [[1], [2]] && l.wire == [2, 1]
  {
    FourSteps(Fresh(setup), Establish, SendFrom([1], false, WouldBlock), SendFrom([2], true, Wrote(1)), TaskRuns(Wrote(1)));
    Passed(Fresh(setup).(state := Connected, sent := [[1]], tasks := [SendTask([1])]), [1], [2]);
    hide Accepted, Replay, Pending, AllAre, Turn;
  }

  /** A message waits, the loop thread sends another, and the socket takes both. */
  lemma Passed(l: Link, waits: seq<Byte>, m: seq<Byte>)
    requires l.state == Connected && !l.halfClosed && l.waiting == [] && l.tasks == [SendTask(waits)]
    ensures var l' := Turn(SentFrom(l, m, true, Wrote(|m|)), Wrote(|waits|));
            && l'.wire == l.wire + m + waits && l'.waiting == [] && l'.tasks == [] && l'.sent == l.sent + [m]
            && l'.lost == l.lost
  {
    var asked := l.(sent := l.sent + [m], overtook := l.overtook || !AllAre(Pending(l.tasks), m));
    DirectSend(asked, m);
    DirectSend(Accepted(asked, m, Wrote(|m|)).(tasks := []), waits);
    hide Accepted, AllAre, Pending;
  }

  lemma FourSteps(l: Link, a: Event, b: Event, c: Event, d: Event)
    ensures Replay(l, [a, b, c, d]) == Happened(Happened(Happened(Happened(l, a), b), c), d)
  {
    hide Happened;
    ReplayStep(l, [a, b, c, d], 0);
    ReplayStep(l, [a, b, c, d], 1);
    ReplayStep(l, [a, b, c, d], 2);
    ReplayStep(l, [a, b, c, d], 3);
    ReplayEnds(l, [a, b, c, d]);
  }

  /** With nothing waiting for the wire, the socket may take a message whole. */
  lemma DirectSend(l: Link, m: seq<Byte>)
    requires l.state == Connected && !l.halfClosed && l.waiting == []
    ensures var l' := Accepted(l, m, Wrote(|m|));
            && l'.wire == l.wire + m && l'.waiting == [] && l'.tasks == l.tasks && l'.sent == l.sent
            && l'.lost == l.lost && l'.state == Connected && !l'.halfClosed
  {
    assert m[..|m|] == m && m[|m|..] == [];
  }
}
