/**
 * The sending half of a TCP connection: messages handed to send become one
 * stream of bytes, written as far as the socket takes them and buffered for
 * the rest, and the stream is half-closed only when it has all been written.
 */
module TcpOutput {
  import opened ByteBuffer
  import opened TcpStream

  class Connection {
    var state: State
    var reading: bool                 // the channel's read interest
    var writing: bool                 // the channel's write interest
    const output: Buffer
    var halfClosed: bool              // socket_->shutdownWrite() has been called
    var tasks: seq<Task>
    var notices: seq<Notice>
    var delayedClose: bool            // forceCloseWithDelay's timer is set
    const setup: Setup                // the mark, and which callbacks are set

    ghost var wire: seq<Byte>         // every byte the socket has taken, in order
    ghost var kept: seq<seq<Byte>>    // every message accepted, in order
    ghost var shutdownRan: bool       // shutdownInLoop has been called
    ghost var sent: seq<seq<Byte>>    // every message send has taken while connected
    ghost var lost: bool              // a message was dropped: broken socket, or down before its turn
    ghost var overtook: bool          // the loop thread sent past a different message that waited

    /** The connection in its simple form. */
    ghost function View(): Link
      requires output.Valid()
      reads this, output, output.buffer
    {
      Link(setup, state, tasks, delayedClose, sent, kept, wire, output.Contents(), shutdownRan, halfClosed,
           lost, overtook, notices)
    }

    /** The loop watches for writability exactly while bytes are buffered, and for nothing once the connection is down. */
    ghost predicate Watching()
      reads this, output, output.buffer
    {
      && output.Valid()
      && (writing <==> state != Disconnected && output.Contents() != [])
      && (reading <==> state == Connected || state == Disconnecting)
    }

    ghost predicate Valid()
      reads this, output, output.buffer
    {
      Watching() && Proper(View())
    }

    predicate PossibleWrite(w: WriteResult, len: nat)
      reads this
    {
      Answer(w, len, halfClosed) == w
    }

    constructor (setup: Setup)
      ensures Valid() && fresh(output) && fresh(output.buffer)
      ensures View() == Fresh(setup) && state == Connecting && !reading && !writing && tasks == []
      ensures wire == [] && sent == kept == [] && output.Contents() == [] && output.WritableBytes() == 1024
    {
      state, reading, writing, halfClosed, tasks, notices, delayedClose :=
        Connecting, false, false, false, [], [], false;
      output := new Buffer(INITIAL_SIZE);
      this.setup := setup;
      wire, kept, shutdownRan := [], [], false;
      sent, lost, overtook := [], false, false;
    }

    method ConnectEstablished()
      requires Watching() && state == Connecting
      modifies `state, `reading
      ensures Watching() && View() == Established(old(View())) && state == Connected && reading
    {
      state := Connected;
      reading := true;
    }

    /**
     * Hands a message to the socket and the buffer.  It is accepted whole,
     * unless the connection is down, or the write finds the socket broken, and
     * then it is dropped whole.
     */
    method SendInLoop(data: seq<Byte>, w: WriteResult)
      requires Watching() && PossibleWrite(w, |data|)
      modifies `writing, `notices, `wire, `kept, `lost, output, output.buffer
      ensures Watching() && (output.buffer == old(output.buffer) || fresh(output.buffer))
      ensures View() == Accepted(old(View()), data, w)
    {
      hide Joins;
      assert notices + [] == notices;
      var nwrote, faultError := 0, false;
      if state == Disconnected {
        lost := true;
        return;
      }
      if !writing && output.ReadableBytes() == 0 {
        match w {
          case Wrote(n) =>
            nwrote := n;
            if nwrote == |data| && setup.onWriteComplete {
              notices := notices + [WriteComplete];
            }
          case Broken =>
            faultError := true;
          case _ =>
        }
      }
      if faultError {
        lost := true;
      } else {
        Keep(data, nwrote);
      }
    }

    /** A message is accepted: what the socket has taken of it is on the wire. */
    method Keep(data: seq<Byte>, nwrote: nat)
      requires Watching() && state != Disconnected && nwrote <= |data|
      modifies `writing, `notices, `wire, `kept, output, output.buffer
      ensures Watching() && (output.buffer == old(output.buffer) || fresh(output.buffer))
      ensures View() == Joins(old(View()), data, nwrote)
    {
      wire := wire + data[..nwrote];
      kept := kept + [data];
      if nwrote < |data| {
        BufferRest(data[nwrote..]);
      }
    }

    /** What the socket did not take is buffered, and the loop watches for writability. */
    method BufferRest(rest: seq<Byte>)
      requires output.Valid() && rest != []
      modifies `writing, `notices, output, output.buffer
      ensures output.Valid() && (output.buffer == old(output.buffer) || fresh(output.buffer))
      ensures output.Contents() == old(output.Contents()) + rest && writing
      ensures notices == old(notices) + setup.Crossing(|old(output.Contents())|, |output.Contents()|)
    {
      var oldLen := output.ReadableBytes();
      if oldLen + |rest| >= setup.highWaterMark && oldLen < setup.highWaterMark && setup.onHighWaterMark {
        notices := notices + [HighWaterMark(oldLen + |rest|)];
      }
      output.Append(rest);
      if !writing {
        writing := true;
      }
    }

    /**
     * `send`: on the loop thread at once, from another thread through the
     * loop's queue.
     */
    method Send(message: seq<Byte>, inLoopThread: bool, w: WriteResult)
      requires Watching() && PossibleWrite(w, |message|)
      modifies `writing, `notices, `wire, `kept, `tasks, `sent, `lost, `overtook, output, output.buffer
      ensures Watching() && (output.buffer == old(output.buffer) || fresh(output.buffer))
      ensures View() == SentFrom(old(View()), message, inLoopThread, w)
      // On the loop thread the messages stay in order exactly if every message passed is the same.
      ensures state == Connected && inLoopThread && old(sent == kept + Pending(tasks)) ==>
                (sent == kept + Pending(tasks) <==>
                  (old(output.Contents()) != [] || !w.Broken?) && AllAre(Pending(tasks), message))
    {
      hide Concat, AllAre, Accepted, Pending, Answer;
      SendOrder(message, w);
      if state == Connected {
        sent := sent + [message];
        if inLoopThread {
          overtook := overtook || !AllAre(Pending(tasks), message);
          SendInLoop(message, w);
        } else {
          tasks := tasks + [SendTask(message)];
        }
      }
    }

    lemma SendOrder(m: seq<Byte>, w: WriteResult)
      requires output.Valid()
      ensures state == Connected && sent == kept + Pending(tasks) ==>
                var l := SentFrom(View(), m, true, w);
                l.state == state && l.tasks == tasks
                && (l.sent == l.kept + Pending(tasks) <==>
                     (output.Contents() != [] || !Answer(w, |m|, halfClosed).Broken?) && AllAre(Pending(tasks), m))
    {
      if state == Connected && sent == kept + Pending(tasks) {
        OvertakesIff(View(), m, w);
      }
    }

    /** Half-closes at once exactly when nothing is being written. */
    method ShutdownInLoop()
      requires Watching() && (state == Disconnecting || state == Disconnected)
      modifies `halfClosed, `shutdownRan
      ensures Watching() && View() == Shut(old(View()))
      ensures halfClosed == (old(halfClosed) || !writing)
    {
      if !writing {
        halfClosed := true;
      }
      shutdownRan := true;
    }

    method Shutdown(inLoopThread: bool)
      requires Watching()
      modifies `state, `tasks, `halfClosed, `shutdownRan
      ensures Watching() && View() == ShutFrom(old(View()), inLoopThread)
    {
      if state == Connected {
        state := Disconnecting;
        if inLoopThread {
          ShutdownInLoop();
        } else {
          tasks := tasks + [ShutdownTask];
        }
      }
    }

    /** The socket is writable: write what is buffered, as far as it goes. */
    method HandleWrite(w: WriteResult)
      requires Watching() && PossibleWrite(w, |output.Contents()|)
      modifies `writing, `notices, `wire, `halfClosed, `shutdownRan, output, output.buffer
      ensures Watching() && output.buffer == old(output.buffer)
      ensures View() == Written(old(View()), w)
    {
      if writing {
        if w.Wrote? && w.n > 0 {
          wire := wire + output.Contents()[..w.n];
          output.Retrieve(w.n);
          if output.ReadableBytes() == 0 {
            writing := false;
            if setup.onWriteComplete {
              notices := notices + [WriteComplete];
            }
            if state == Disconnecting {
              ShutdownInLoop();
            }
          }
        }
      }
    }

    /** End of file or an error from the peer, or a forced close. */
    method HandleClose()
      requires Watching() && (state == Connected || state == Disconnecting)
      modifies `state, `writing, `reading
      ensures Watching() && View() == Down(old(View()))
      ensures state == Disconnected && !reading && !writing
      ensures wire == old(wire) && sent == old(sent) && kept == old(kept) && output.Contents() == old(output.Contents())
    {
      state := Disconnected;
      reading, writing := false, false;
    }

    method ForceClose()
      requires Watching()
      modifies `state, `tasks
      ensures Watching() && View() == ForceQueued(old(View()))
    {
      if state == Connected || state == Disconnecting {
        state := Disconnecting;
        tasks := tasks + [ForceCloseTask];
      }
    }

    method ForceCloseWithDelay()
      requires Watching()
      modifies `state, `delayedClose
      ensures Watching() && View() == ForcedLater(old(View()))
    {
      if state == Connected || state == Disconnecting {
        state := Disconnecting;
        delayedClose := true;
      }
    }

    /** The timer of forceCloseWithDelay. */
    method DelayedCloseFires()
      requires Watching() && delayedClose
      modifies `state, `tasks, `delayedClose
      ensures Watching() && View() == DelayEnded(old(View()))
    {
      ForceClose();
      delayedClose := false;
    }

    method ForceCloseInLoop()
      requires Watching()
      modifies `state, `writing, `reading
      ensures Watching() && View() == Down(old(View()))
      ensures old(state) == Connected || old(state) == Disconnecting ==> state == Disconnected && !reading && !writing
    {
      if state == Connected || state == Disconnecting {
        HandleClose();
      }
    }

    method ConnectDestroyed()
      requires Watching()
      modifies `state, `writing, `reading
      ensures Watching() && View() == Destroy(old(View()))
      ensures old(state) == Connected ==> state == Disconnected && !reading && !writing
    {
      if state == Connected {
        state := Disconnected;
        writing, reading := false, false;
      }
    }

    /** The loop executes the oldest functor of this connection. */
    method RunTask(w: WriteResult)
      requires Valid() && tasks != []
      requires tasks[0].SendTask? ==> PossibleWrite(w, |tasks[0].message|)
      modifies this, output, output.buffer
      ensures Watching() && (output.buffer == old(output.buffer) || fresh(output.buffer))
      ensures View() == Turn(old(View()), w)
    {
      if tasks[0].ShutdownTask? {
        ShutdownIsDue(View());
      }
      hide Accepted, Shut, Down, Proper;
      var task := tasks[0];
      tasks := tasks[1..];
      match task {
        case SendTask(message) => SendInLoop(message, w);
        case ShutdownTask => ShutdownInLoop();
        case ForceCloseTask => ForceCloseInLoop();
      }
    }

    /** One event; the kernel's answer is the one it can give now. */
    method Handle(e: Event)
      requires Valid()
      modifies this, output, output.buffer
      ensures Valid() && (output.buffer == old(output.buffer) || fresh(output.buffer))
      ensures View() == Happened(old(View()), e)
    {
      HappenedKeeps(View(), e);
      AnswersOnce(View(), e);
      hide Proper, Accepted, SentFrom, ShutFrom, Written, Down, ForceQueued, ForcedLater, DelayEnded, Turn, Destroy;
      match e {
        case Establish => if state == Connecting { ConnectEstablished(); }
        case SendFrom(message, here, w) => Send(message, here, Answer(w, |message|, halfClosed));
        case ShutdownFrom(here) => Shutdown(here);
        case Writable(w) => HandleWrite(Answer(w, output.ReadableBytes(), halfClosed));
        case PeerCloses => ForceCloseInLoop();
        case ForceClosed => ForceClose();
        case ForceClosedLater => ForceCloseWithDelay();
        case DelayEnds => if delayedClose { DelayedCloseFires(); }
        case TaskRuns(w) =>
          if tasks != [] {
            RunTask(Answer(w, if tasks[0].SendTask? then |tasks[0].message| else 0, halfClosed));
          }
        case Destroyed => ConnectDestroyed();
      }
    }

    /**
     * Any run of events does to the messages and bytes what the simple form
     * says.  Unless one is lost or overtaken, wire, buffer and queue hold
     * exactly the messages sent, in order; and a closing connection with
     * nothing left to do has half-closed behind the last byte sent.
     */
    method Serve(events: seq<Event>)
      requires Valid()
      modifies this, output, output.buffer
      ensures Valid() && View() == Replay(old(View()), events)
      ensures old(wire) <= wire && old(sent) <= sent && old(kept) <= kept
      ensures lost ==> old(lost) || state == Disconnected || halfClosed || exists i :: 0 <= i < |events| && Breaks(events[i])
      ensures overtook ==> old(overtook) || exists i :: 0 <= i < |events| && events[i].SendFrom? && events[i].inLoopThread
      ensures !lost && !overtook ==> wire + output.Contents() + Concat(Pending(tasks)) == Concat(sent)
      ensures !lost && !overtook && state == Disconnecting && tasks == [] && !delayedClose && output.Contents() == [] ==>
                halfClosed && wire == Concat(sent)
    {
      ghost var link := View();
      ReplayEnds(link, events);
      ReplayGrows(link, events);
      hide Concat, Proper, Pending, Happened, Replay;
      var i := 0;
      while i < |events|
        invariant 0 <= i <= |events| && Valid()
        invariant output.buffer == old(output.buffer) || fresh(output.buffer)
        invariant View() == Replay(link, events[..i])
      {
        ReplayStep(link, events, i);
        Handle(events[i]);
        i := i + 1;
      }
      if !lost && !overtook {
        StreamOfSent(View());
      }
    }
  }
}
