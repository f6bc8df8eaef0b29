/** The link itself: shared state that callers and the reader task change one atomic step at a time. */
module Link {
  import opened Wrappers
  import opened LinkModel

  /** What the mutex guards: each method is one lock region. */
  class Waiters {
    var closed: bool
    var waiting: map<nat, nat>

    ghost function Contents(): Table
      reads this
    {
      Table(closed, waiting)
    }

    constructor ()
      ensures Contents() == Table(false, map[])
    {
      closed := false;
      waiting := map[];
    }

    /** Refuses once closed; otherwise the sender goes in, and a displaced one comes back to be dropped. */
    method Insert(id: nat, call: nat) returns (accepted: bool, displaced: Option<nat>)
      modifies this
      ensures accepted <==> !old(closed)
      ensures Contents() == Inserted(old(Contents()), id, call)
      ensures displaced == if accepted then Waiter(old(Contents()), id) else None
    {
      if closed {
        return false, None;
      }
      displaced := if id in waiting then Some(waiting[id]) else None;
      waiting := waiting[id := call];
      accepted := true;
    }

    /** Takes the waiter out, so a second result with its id finds none. */
    method Remove(id: nat) returns (waiter: Option<nat>)
      modifies this
      ensures Contents() == Removed(old(Contents()), id)
      ensures waiter == Waiter(old(Contents()), id)
    {
      waiter := if id in waiting then Some(waiting[id]) else None;
      waiting := waiting - {id};
    }

    /** Closes and clears in one region; the senders that were in the table are dropped. */
    method Close() returns (dropped: set<nat>)
      modifies this
      ensures Contents() == Emptied(old(Contents()))
      ensures dropped == old(waiting).Values
    {
      dropped := waiting.Values;
      closed := true;
      waiting := map[];
    }
  }

  class Connection {
    const pending: Waiters
    var next: nat
    var ended: bool
    var calls: seq<Call>
    var reader: Reader
    var lines: seq<Line>
    var inbox: seq<Incoming>
    var listening: bool
    var writing: bool
    var sent: seq<nat>

    ghost function State(): System
      reads this, pending
    {
      System(next, calls, pending.Contents(), reader, ended, lines, inbox, listening, writing, sent)
    }

    constructor ()
      ensures State() == OPENED && fresh(pending)
    {
      pending := new Waiters();
      next, ended, calls, reader := 1, false, [], Reading;
      lines, inbox, listening, writing, sent := [], [], true, true, [];
    }

    method Register(c: nat)
      requires Enabled(State(), Action.Register(c))
      modifies this`calls, pending
      ensures State() == RegisterCall(old(State()), c)
    {
      var accepted, displaced := pending.Insert(calls[c].id, c);
      if !accepted {
        calls := calls[c := calls[c].(stage := Refused, slot := Dropped)];
        return;
      }
      var k := calls[c];
      calls := WithoutSenders(calls, if displaced.Some? then {displaced.value} else {});
      calls := calls[c := k.(stage := Registered, since := |lines|)];
    }

    method Queue(c: nat)
      requires Enabled(State(), Action.Queue(c))
      modifies this
      ensures State() == QueueCall(old(State()), c)
    {
      if writing {
        sent := sent + [calls[c].id];
        calls := calls[c := calls[c].(stage := Awaiting)];
      } else {
        calls := calls[c := calls[c].(stage := Unsent)];
      }
    }

    method Finish(c: nat)
      requires Enabled(State(), Action.Finish(c))
      modifies this`calls
      ensures State() == FinishCall(old(State()), c)
    {
      if calls[c].slot.Filled? {
        calls := calls[c := calls[c].(stage := Answered(calls[c].slot.envelope))];
      } else {
        calls := calls[c := calls[c].(stage := Cut)];
      }
    }

    /** One turn of the read loop; a consumer that is gone ends the loop. */
    method Take(line: Line)
      requires Enabled(State(), Action.Take(line))
      modifies this, pending
      ensures State() == TakeLine(old(State()), line)
    {
      lines := lines + [line];
      match line {
        case Reply(id, envelope) =>
          var waiter := pending.Remove(id);
          if waiter.Some? {
            reader := Handing(waiter.value, envelope);
          }
        case Noise =>
        case _ =>
          if listening {
            inbox := inbox + [Pushed(line)];
          } else {
            reader := Stopping;
          }
      }
    }

    method HandOver()
      requires Enabled(State(), Action.HandOver)
      modifies this
      ensures State() == HandedOver(old(State()), old(reader).call, old(reader).envelope)
    {
      var c := reader.call;
      var k := calls[c];
      calls := calls[c := k.(slot := if Receiving(k) then Filled(reader.envelope) else Dropped)];
      reader := Reading;
    }

    method Clear()
      requires Enabled(State(), Action.Clear)
      modifies this, pending
      ensures State() == ClearTable(old(State()))
    {
      var dropped := pending.Close();
      calls := WithoutSenders(calls, dropped);
      reader := Cleared;
    }

    /** One step, if it can happen. */
    method Step(a: Action)
      modifies this, pending
      ensures State() == Next(old(State()), a)
    {
      if a.Begin? || a.Register? || a.Queue? || a.Finish? || a.Abandon? {
        CallerStep(a);
      } else {
        ReaderStep(a);
      }
    }

    method CallerStep(a: Action)
      requires a.Begin? || a.Register? || a.Queue? || a.Finish? || a.Abandon?
      modifies this, pending
      ensures State() == Next(old(State()), a)
    {
      match a {
        case Begin =>
          calls := calls + [Call(next, Numbered, Open, 0)];
          next := next + 1;
        case Register(c) =>
          if c < |calls| && calls[c].stage.Numbered? { Register(c); }
        case Queue(c) =>
          if c < |calls| && calls[c].stage.Registered? { Queue(c); }
        case Finish(c) =>
          if c < |calls| && calls[c].stage.Awaiting? && !calls[c].slot.Open? { Finish(c); }
        case Abandon(c) =>
          if c < |calls| && calls[c].stage.Awaiting? { calls := calls[c := calls[c].(stage := Abandoned)]; }
      }
    }

    method ReaderStep(a: Action)
      requires !a.Begin? && !a.Register? && !a.Queue? && !a.Finish? && !a.Abandon?
      modifies this, pending
      ensures State() == Next(old(State()), a)
    {
      match a {
        case Take(line) =>
          if reader.Reading? { Take(line); }
        case EndInput =>
          if reader.Reading? { reader := Stopping; }
        case HandOver =>
          if reader.Handing? && reader.call < |calls| { HandOver(); }
        case Clear =>
          if reader.Stopping? { Clear(); }
        case Store =>
          if reader.Cleared? { ended, reader := true, Stored; }
        case Announce =>
          if reader.Stored? {
            reader := Done;
            if listening { inbox := inbox + [Closed]; }
          }
        case DropInbox =>
          listening := false;
        case WriterFails =>
          writing := false;
      }
    }

    /** The steps of callers and reader in any order: the machine's runs are the link's. */
    method Perform(schedule: seq<Action>)
      modifies this, pending
      ensures State() == Run(old(State()), schedule)
    {
      for i := 0 to |schedule|
        invariant State() == Run(old(State()), schedule[..i])
      {
        Step(schedule[i]);
        assert schedule[..i + 1][..i] == schedule[..i];
      }
      assert schedule[..|schedule|] == schedule;
    }
  }
}
