/** What every interleaving of callers and the reader keeps. */
module LinkLaws {
  import opened Wrappers
  import opened Seqs
  import opened LinkModel

  // ---- the lines taken ----

  lemma ReplyAppends(lines: seq<Line>, line: Line, since: nat, id: nat)
    requires since <= |lines|
    ensures FirstReply(lines + [line], since, id) ==
            if FirstReply(lines, since, id).Some? then FirstReply(lines, since, id)
            else if line.Reply? && line.id == id then Some(line.envelope)
            else None
  {
    assert (lines + [line])[..|lines|] == lines;
  }

  lemma PushesAppend(lines: seq<Line>, line: Line)
    ensures Pushes(lines + [line]) ==
            Pushes(lines) + if line.Event? || line.Notice? then [Pushed(line)] else []
  {
    assert (lines + [line])[..|lines|] == lines;
  }

  // ---- parts of the state a step leaves alone ----

  /** A change of the reader's place, the end flag, the inbox or the two channel ends only. */
  lemma CallsUntouched(s: System, t: System)
    requires CallsSound(s) && t.calls == s.calls && t.table == s.table && t.lines == s.lines
    requires t.reader == s.reader || (!t.reader.Handing? && !s.reader.Handing?)
    ensures CallsSound(t)
  {
    forall d | 0 <= d < |t.calls| ensures Sound(t, d) {
      assert Sound(s, d);
    }
  }

  lemma InboxUntouched(s: System, t: System)
    requires InboxSound(s) && t.lines == s.lines && t.inbox == s.inbox && t.listening == s.listening
    requires t.reader.Done? == s.reader.Done?
    requires s.reader.Stopping? || Shut(s.reader) ==> t.reader.Stopping? || Shut(t.reader)
    ensures InboxSound(t)
  {
  }

  /** Calls may come, and stages move, but not past the queueing step. */
  lemma SentUntouched(s: System, t: System)
    requires SentSound(s) && t.sent == s.sent && |s.calls| <= |t.calls|
    requires forall c :: 0 <= c < |s.calls| ==>
               WasQueued(t.calls[c]) == WasQueued(s.calls[c]) && t.calls[c].id == s.calls[c].id
    requires forall c :: |s.calls| <= c < |t.calls| ==> !WasQueued(t.calls[c])
    ensures SentSound(t)
  {
    forall c | 0 <= c < |t.calls| && WasQueued(t.calls[c]) ensures t.calls[c].id in t.sent {
      assert WasQueued(s.calls[c]);
    }
  }

  // ---- callers' steps ----

  lemma BeginKeeps(s: System)
    requires Healthy(s)
    ensures Healthy(BeginCall(s))
  {
    var t := BeginCall(s);
    forall d | 0 <= d < |t.calls| ensures Sound(t, d) {
      if d < |s.calls| {
        assert Sound(s, d);
      }
    }
    InboxUntouched(s, t);
    SentUntouched(s, t);
  }

  /** An id enters the table once, so inserting never displaces a waiter. */
  lemma RegistersAfresh(s: System, c: nat)
    requires TableSound(s) && CallsSound(s) && Enabled(s, Register(c))
    ensures Waiter(s.table, s.calls[c].id).None?
    ensures WithoutSenders(s.calls, {}) == s.calls
    ensures RegisterCall(s, c) ==
            if s.table.closed then s.(calls := s.calls[c := s.calls[c].(stage := Refused, slot := Dropped)])
            else s.(table := s.table.(waiting := s.table.waiting[c + 1 := c]),
                    calls := s.calls[c := s.calls[c].(stage := Registered, since := |s.lines|)])
  {
    assert Sound(s, c);
  }

  lemma RegisterKeepsCalls(s: System, c: nat)
    requires TableSound(s) && CallsSound(s) && Enabled(s, Register(c))
    ensures TableSound(RegisterCall(s, c)) && CallsSound(RegisterCall(s, c))
  {
    var t := RegisterCall(s, c);
    RegistersAfresh(s, c);
    assert Sound(s, c);
    forall d | 0 <= d < |t.calls| ensures Sound(t, d) {
      RegisterKeepsSound(s, c, d);
    }
  }

  lemma RegisterKeepsSound(s: System, c: nat, d: nat)
    requires TableSound(s) && CallsSound(s) && Enabled(s, Register(c)) && d < |s.calls|
    ensures |RegisterCall(s, c).calls| == |s.calls| && Sound(RegisterCall(s, c), d)
  {
    RegistersAfresh(s, c);
    assert Sound(s, c) && Sound(s, d);
  }

  lemma RegisterKeepsInbox(s: System, c: nat)
    requires TableSound(s) && CallsSound(s) && InboxSound(s) && Enabled(s, Register(c))
    ensures InboxSound(RegisterCall(s, c))
  {
    RegistersAfresh(s, c);
    InboxUntouched(s, RegisterCall(s, c));
  }

  lemma RegisterKeepsSent(s: System, c: nat)
    requires TableSound(s) && CallsSound(s) && SentSound(s) && Enabled(s, Register(c))
    ensures SentSound(RegisterCall(s, c))
  {
    RegistersAfresh(s, c);
    SentUntouched(s, RegisterCall(s, c));
  }

  lemma RegisterKeeps(s: System, c: nat)
    requires Healthy(s) && Enabled(s, Register(c))
    ensures Healthy(RegisterCall(s, c))
  {
    RegisterKeepsCalls(s, c);
    RegisterKeepsInbox(s, c);
    RegisterKeepsSent(s, c);
  }

  /** A step of one call that leaves its sender, the table, the lines and the reader alone. */
  lemma StageKeepsCalls(s: System, c: nat, stage: Stage)
    requires TableSound(s) && CallsSound(s) && c < |s.calls|
    requires s.calls[c].stage.Registered? || s.calls[c].stage.Awaiting?
    requires stage.Unsent? || stage.Abandoned? || stage.Awaiting?
             || (stage.Answered? && s.calls[c].slot == Filled(stage.envelope))
             || (stage.Cut? && s.calls[c].slot.Dropped?)
    ensures CallsSound(WithStage(s, c, stage)) && TableSound(WithStage(s, c, stage))
  {
    var t := WithStage(s, c, stage);
    assert Sound(s, c);
    forall d | 0 <= d < |t.calls| ensures Sound(t, d) {
      assert Sound(s, d);
    }
  }

  lemma StageKeeps(s: System, c: nat, stage: Stage)
    requires Healthy(s) && c < |s.calls|
    requires if s.calls[c].stage.Registered? then stage.Unsent?
             else s.calls[c].stage.Awaiting? && WasQueued(s.calls[c].(stage := stage))
    requires stage.Answered? ==> s.calls[c].slot == Filled(stage.envelope)
    requires stage.Cut? ==> s.calls[c].slot.Dropped?
    ensures Healthy(WithStage(s, c, stage))
  {
    StageKeepsCalls(s, c, stage);
    InboxUntouched(s, WithStage(s, c, stage));
    StageKeepsSent(s, c, stage);
  }

  lemma StageKeepsSent(s: System, c: nat, stage: Stage)
    requires SentSound(s) && c < |s.calls| && WasQueued(s.calls[c]) == WasQueued(s.calls[c].(stage := stage))
    ensures SentSound(WithStage(s, c, stage))
  {
    SentUntouched(s, WithStage(s, c, stage));
  }

  lemma AppendsOnce(ids: seq<nat>, id: nat)
    requires id !in ids && NoneTwice(ids)
    ensures NoneTwice(ids + [id])
  {
  }

  lemma SentStayQueued(calls: seq<Call>, sent: seq<nat>, c: nat, k: Call)
    requires SentAreQueued(calls, sent) && c < |calls| && WasQueued(k)
    ensures SentAreQueued(calls[c := k], sent + [c + 1])
  {
    var all := sent + [c + 1];
    forall id | id in all ensures 1 <= id <= |calls| && WasQueued(calls[c := k][id - 1]) {
      if id in sent {
        assert WasQueued(calls[id - 1]);
      }
    }
  }

  lemma QueuedStaySent(calls: seq<Call>, sent: seq<nat>, c: nat, k: Call)
    requires QueuedAreSent(calls, sent) && c < |calls| && k.id == c + 1
    ensures QueuedAreSent(calls[c := k], sent + [c + 1])
  {
    var after, all := calls[c := k], sent + [c + 1];
    assert all[|sent|] == c + 1;
    forall d | 0 <= d < |after| && WasQueued(after[d]) ensures after[d].id in all {
      if d != c {
        assert calls[d].id in sent;
      }
    }
  }

  lemma UnsentIsNew(calls: seq<Call>, sent: seq<nat>, c: nat)
    requires SentAreQueued(calls, sent) && c < |calls| && !WasQueued(calls[c])
    ensures c + 1 !in sent
  {
  }

  lemma QueueKeepsSent(s: System, c: nat)
    requires CallsSound(s) && SentSound(s) && Enabled(s, Queue(c)) && s.writing
    ensures SentSound(QueueCall(s, c))
  {
    assert Sound(s, c);
    var k := s.calls[c].(stage := Awaiting);
    UnsentIsNew(s.calls, s.sent, c);
    AppendsOnce(s.sent, c + 1);
    SentStayQueued(s.calls, s.sent, c, k);
    QueuedStaySent(s.calls, s.sent, c, k);
    var t := QueueCall(s, c);
    assert t.calls == s.calls[c := k] && t.sent == s.sent + [c + 1];
  }

  lemma QueueKeeps(s: System, c: nat)
    requires Healthy(s) && Enabled(s, Queue(c))
    ensures Healthy(QueueCall(s, c))
  {
    if s.writing {
      var t := WithStage(s, c, Awaiting);
      StageKeepsCalls(s, c, Awaiting);
      CallsUntouched(t, QueueCall(s, c));
      InboxUntouched(s, QueueCall(s, c));
      QueueKeepsSent(s, c);
    } else {
      StageKeeps(s, c, Unsent);
    }
  }

  lemma FinishKeeps(s: System, c: nat)
    requires Healthy(s) && Enabled(s, Finish(c))
    ensures Healthy(FinishCall(s, c))
  {
    var stage := if s.calls[c].slot.Filled? then Answered(s.calls[c].slot.envelope) else Cut;
    assert FinishCall(s, c) == WithStage(s, c, stage);
    StageKeeps(s, c, stage);
  }

  // ---- the reader's steps ----

  /** A line that is no result for call `d`. */
  lemma OtherLineTracks(s: System, line: Line, d: nat)
    requires TableSound(s) && CallsSound(s) && Enabled(s, Take(line)) && d < |s.calls|
    requires line.Reply? ==> line.id != d + 1
    ensures Sound(TakeLine(s, line), d)
  {
    assert Sound(s, d);
    if WasRegistered(s.calls[d]) {
      ReplyAppends(s.lines, line, s.calls[d].since, s.calls[d].id);
    }
  }

  lemma ReplyTracks(s: System, line: Line, d: nat)
    requires TableSound(s) && CallsSound(s) && Enabled(s, Take(line)) && d < |s.calls|
    requires line.Reply? && line.id == d + 1
    ensures Sound(TakeLine(s, line), d)
  {
    assert Sound(s, d);
    if WasRegistered(s.calls[d]) {
      ReplyAppends(s.lines, line, s.calls[d].since, s.calls[d].id);
    }
  }

  lemma TakeTracks(s: System, line: Line, d: nat)
    requires TableSound(s) && CallsSound(s) && Enabled(s, Take(line)) && d < |s.calls|
    ensures Sound(TakeLine(s, line), d)
  {
    if line.Reply? && line.id == d + 1 {
      ReplyTracks(s, line, d);
    } else {
      OtherLineTracks(s, line, d);
    }
  }

  lemma TakeKeepsTable(s: System, line: Line)
    requires TableSound(s) && Enabled(s, Take(line))
    ensures TableSound(TakeLine(s, line))
  {
  }

  lemma PushKeepsInbox(s: System, line: Line)
    requires InboxSound(s) && Enabled(s, Take(line)) && (line.Event? || line.Notice?)
    ensures InboxSound(TakeLine(s, line))
  {
    PushesAppend(s.lines, line);
    assert s.inbox == Pushes(s.lines);
  }

  lemma QuietKeepsInbox(s: System, t: System)
    requires InboxSound(s) && s.reader.Reading? && (t.reader.Reading? || t.reader.Handing?)
    requires Pushes(t.lines) == Pushes(s.lines) && t.inbox == s.inbox && t.listening == s.listening
    ensures InboxSound(t)
  {
  }

  lemma TakeKeepsInbox(s: System, line: Line)
    requires InboxSound(s) && Enabled(s, Take(line))
    ensures InboxSound(TakeLine(s, line))
  {
    if line.Event? || line.Notice? {
      PushKeepsInbox(s, line);
    } else {
      PushesAppend(s.lines, line);
      NothingAppended(Pushes(s.lines));
      QuietKeepsInbox(s, TakeLine(s, line));
    }
  }

  lemma TakeKeeps(s: System, line: Line)
    requires Healthy(s) && Enabled(s, Take(line))
    ensures Healthy(TakeLine(s, line))
  {
    var t := TakeLine(s, line);
    assert t.calls == s.calls && t.sent == s.sent;
    TakeKeepsTable(s, line);
    assert CallsSound(t) by {
      forall d | 0 <= d < |t.calls| ensures Sound(t, d) {
        TakeTracks(s, line, d);
      }
    }
    TakeKeepsInbox(s, line);
    SentUntouched(s, t);
  }

  lemma HandOverKeepsCalls(s: System)
    requires TableSound(s) && CallsSound(s) && Enabled(s, HandOver)
    ensures var t := HandedOver(s, s.reader.call, s.reader.envelope); TableSound(t) && CallsSound(t)
  {
    var t := HandedOver(s, s.reader.call, s.reader.envelope);
    forall d | 0 <= d < |t.calls| ensures Sound(t, d) {
      assert Sound(s, d);
    }
  }

  lemma HandOverKeeps(s: System)
    requires Healthy(s) && Enabled(s, HandOver)
    ensures Healthy(HandedOver(s, s.reader.call, s.reader.envelope))
  {
    var t := HandedOver(s, s.reader.call, s.reader.envelope);
    HandOverKeepsCalls(s);
    InboxUntouched(s, t);
    SentUntouched(s, t);
  }

  /** Clearing the table drops exactly the senders the table held. */
  lemma ClearDropsTheWaiters(s: System, d: nat)
    requires TableSound(s)
    ensures d in s.table.waiting.Values <==> InTable(s, d)
  {
    if InTable(s, d) {
      assert s.table.waiting[d + 1] == d;
    }
    if d in s.table.waiting.Values {
      var id :| id in s.table.waiting && s.table.waiting[id] == d;
    }
  }

  lemma ClearKeepsCalls(s: System)
    requires TableSound(s) && CallsSound(s) && Enabled(s, Clear)
    ensures TableSound(ClearTable(s)) && CallsSound(ClearTable(s))
  {
    var t := ClearTable(s);
    forall d | 0 <= d < |t.calls| ensures Sound(t, d) {
      assert Sound(s, d);
      ClearDropsTheWaiters(s, d);
    }
  }

  lemma ClearKeeps(s: System)
    requires Healthy(s) && Enabled(s, Clear)
    ensures Healthy(ClearTable(s))
  {
    ClearKeepsCalls(s);
    InboxUntouched(s, ClearTable(s));
    SentUntouched(s, ClearTable(s));
  }

  lemma EndInputKeeps(s: System)
    requires Healthy(s) && Enabled(s, EndInput)
    ensures Healthy(s.(reader := Stopping))
  {
    CallsUntouched(s, s.(reader := Stopping));
  }

  lemma StoreKeeps(s: System)
    requires Healthy(s) && Enabled(s, Store)
    ensures Healthy(s.(ended := true, reader := Stored))
  {
    CallsUntouched(s, s.(ended := true, reader := Stored));
  }

  lemma AnnounceKeeps(s: System)
    requires Healthy(s) && Enabled(s, Announce)
    ensures Healthy(s.(reader := Done, inbox := if s.listening then s.inbox + [Closed] else s.inbox))
  {
    CallsUntouched(s, s.(reader := Done, inbox := if s.listening then s.inbox + [Closed] else s.inbox));
  }

  lemma FailuresKeep(s: System)
    requires Healthy(s)
    ensures Healthy(s.(listening := false)) && Healthy(s.(writing := false))
  {
    CallsUntouched(s, s.(listening := false));
    CallsUntouched(s, s.(writing := false));
  }

  lemma CallerStepIsHealthy(s: System, a: Action)
    requires Healthy(s) && Enabled(s, a)
    requires a.Begin? || a.Register? || a.Queue? || a.Finish? || a.Abandon?
    ensures Healthy(Effect(s, a))
  {
    match a {
      case Begin => BeginKeeps(s);
      case Register(c) => RegisterKeeps(s, c);
      case Queue(c) => QueueKeeps(s, c);
      case Finish(c) => FinishKeeps(s, c);
      case Abandon(c) => StageKeeps(s, c, Abandoned);
    }
  }

  lemma ReaderStepIsHealthy(s: System, a: Action)
    requires Healthy(s) && Enabled(s, a)
    requires !a.Begin? && !a.Register? && !a.Queue? && !a.Finish? && !a.Abandon?
    ensures Healthy(Effect(s, a))
  {
    match a {
      case Take(line) => TakeKeeps(s, line);
      case EndInput => EndInputKeeps(s);
      case HandOver => HandOverKeeps(s);
      case Clear => ClearKeeps(s);
      case Store => StoreKeeps(s);
      case Announce => AnnounceKeeps(s);
      case DropInbox => FailuresKeep(s);
      case WriterFails => FailuresKeep(s);
    }
  }

  lemma StepIsHealthy(s: System, a: Action)
    requires Healthy(s)
    ensures Healthy(Next(s, a))
  {
    if Enabled(s, a) {
      if a.Begin? || a.Register? || a.Queue? || a.Finish? || a.Abandon? {
        CallerStepIsHealthy(s, a);
      } else {
        ReaderStepIsHealthy(s, a);
      }
    }
  }

  /** Every reachable state is healthy. */
  lemma {:induction false} RunsAreHealthy(actions: seq<Action>)
    ensures Healthy(Run(OPENED, actions))
    decreases |actions|
  {
    if actions != [] {
      RunsAreHealthy(actions[..|actions| - 1]);
      StepIsHealthy(Run(OPENED, actions[..|actions| - 1]), actions[|actions| - 1]);
    }
  }
}
