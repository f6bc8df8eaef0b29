/** What gets through: on an open link with a live writer every call is sent, and its reply comes back to it. */
module LinkDelivery {
  import opened Wrappers
  import opened LinkModel
  import opened LinkLaws
  import opened LinkPromises

  // ---- what a schedule alone decides ----

  /** There are as many calls as were begun, numbered from 1 in the order they began. */
  lemma {:induction false} CallsAreBegun(actions: seq<Action>)
    ensures |Run(OPENED, actions).calls| == multiset(actions)[Begin]
    ensures forall c :: 0 <= c < |Run(OPENED, actions).calls| ==> Run(OPENED, actions).calls[c].id == c + 1
    decreases |actions|
  {
    RunsAreHealthy(actions);
    forall c | 0 <= c < |Run(OPENED, actions).calls| ensures Run(OPENED, actions).calls[c].id == c + 1 {
      assert Sound(Run(OPENED, actions), c);
    }
    if actions != [] {
      var fewer, a := actions[..|actions| - 1], actions[|actions| - 1];
      CallsAreBegun(fewer);
      assert actions == fewer + [a];
      StepBegins(Run(OPENED, fewer), a);
    }
  }

  lemma StepBegins(s: System, a: Action)
    ensures |Next(s, a).calls| == |s.calls| + (if a.Begin? then 1 else 0)
  {
    if Enabled(s, a) {
      assert Next(s, a) == Effect(s, a);
    }
  }

  /** The consumer listens until it hangs up, and the writer lives until it fails. */
  lemma {:induction false} EndsAreKnown(actions: seq<Action>)
    ensures Run(OPENED, actions).listening <==> DropInbox !in actions
    ensures Run(OPENED, actions).writing <==> WriterFails !in actions
    decreases |actions|
  {
    if actions != [] {
      var fewer, a := actions[..|actions| - 1], actions[|actions| - 1];
      EndsAreKnown(fewer);
      assert actions == fewer + [a];
      StepKeepsEnds(Run(OPENED, fewer), a);
    }
  }

  lemma StepKeepsEnds(s: System, a: Action)
    ensures Next(s, a).listening == (s.listening && a != DropInbox)
    ensures Next(s, a).writing == (s.writing && a != WriterFails)
  {
  }

  /** The reader has taken only lines that came. */
  lemma {:induction false} LinesCame(actions: seq<Action>)
    ensures forall line :: line in Run(OPENED, actions).lines ==> Take(line) in actions
    decreases |actions|
  {
    if actions != [] {
      var fewer, a := actions[..|actions| - 1], actions[|actions| - 1];
      LinesCame(fewer);
      assert actions == fewer + [a];
      StepTakes(Run(OPENED, fewer), a);
    }
  }

  lemma StepTakes(s: System, a: Action)
    ensures Next(s, a).lines == if a.Take? && s.reader.Reading? then s.lines + [a.line] else s.lines
  {
  }

  /** A call that was given up was given up by its own step. */
  lemma {:induction false} AbandonedByItself(actions: seq<Action>, c: nat)
    requires c < |Run(OPENED, actions).calls| && Run(OPENED, actions).calls[c].stage.Abandoned?
    ensures Abandon(c) in actions
    decreases |actions|
  {
    if actions != [] {
      var fewer, a := actions[..|actions| - 1], actions[|actions| - 1];
      var s := Run(OPENED, fewer);
      assert actions == fewer + [a];
      RunsAreHealthy(fewer);
      StepBegins(s, a);
      if c < |s.calls| && s.calls[c].stage.Abandoned? {
        AbandonedByItself(fewer, c);
      } else if c < |s.calls| && a != Abandon(c) {
        AbandonsItself(s, a, c);
      }
    }
  }

  // ---- no call fails to be sent but by the writer ----

  predicate NoneUnsent(s: System) {
    forall c :: 0 <= c < |s.calls| ==> !s.calls[c].stage.Unsent?
  }

  lemma StepSends(s: System, a: Action)
    requires TableSound(s) && CallsSound(s) && s.writing && NoneUnsent(s)
    ensures NoneUnsent(Next(s, a))
  {
    var t := Next(s, a);
    StepBegins(s, a);
    forall c | 0 <= c < |t.calls| ensures !t.calls[c].stage.Unsent? {
      if c < |s.calls| {
        StepSendsCall(s, a, c);
      }
    }
  }

  lemma StepSendsCall(s: System, a: Action, c: nat)
    requires TableSound(s) && CallsSound(s) && s.writing && c < |s.calls| && !s.calls[c].stage.Unsent?
    ensures c < |Next(s, a).calls| && !Next(s, a).calls[c].stage.Unsent?
  {
    if a.Register? && Enabled(s, a) {
      RegistersAfresh(s, a.call);
    }
  }

  /** While the writer lives no call is told that its message could not be sent. */
  lemma {:induction false} LiveWriterSends(actions: seq<Action>)
    requires WriterFails !in actions
    ensures forall c :: 0 <= c < |Run(OPENED, actions).calls| ==> !Run(OPENED, actions).calls[c].stage.Unsent?
    decreases |actions|
  {
    if actions != [] {
      var fewer, a := actions[..|actions| - 1], actions[|actions| - 1];
      assert actions == fewer + [a];
      LiveWriterSends(fewer);
      RunsAreHealthy(fewer);
      EndsAreKnown(fewer);
      StepSends(Run(OPENED, fewer), a);
    }
  }

  // ---- a call on its way to the host ----

  lemma FirstStepsAdvance(s: System, c: nat, i: nat)
    requires c < |s.calls| && i < 2 && i <= Progress(s.calls[c])
    ensures var t := Next(s, OwnSteps(c)[i]);
            c < |t.calls| && i < Progress(t.calls[c])
  {
    if Progress(s.calls[c]) > i {
      assert !Enabled(s, OwnSteps(c)[i]);
    }
  }

  lemma {:induction false} FirstStepsProgress(actions: seq<Action>, more: seq<Action>, c: nat, from: nat, i: nat)
    requires c < |Run(OPENED, actions).calls| && from == Progress(Run(OPENED, actions).calls[c])
    requires from <= i <= 2 && InOrder(more, OwnSteps(c)[from..i])
    ensures var t := Run(OPENED, actions + more); c < |t.calls| && i <= Progress(t.calls[c])
    decreases |more|
  {
    RunsSettle(actions, more, c);
    ProgressStays(Run(OPENED, actions).calls[c], Run(OPENED, actions + more).calls[c]);
    if from < i {
      InOrderUnfolds(more, OwnSteps(c), from, i);
      var fewer, a := more[..|more| - 1], more[|more| - 1];
      RunUnfolds(actions, more);
      if InOrder(fewer, OwnSteps(c)[from..i]) {
        FirstStepsProgress(actions, fewer, c, from, i);
        RunStepSettles(actions + fewer, a, c);
        ProgressStays(Run(OPENED, actions + fewer).calls[c], Run(OPENED, actions + more).calls[c]);
      } else {
        FirstStepsProgress(actions, fewer, c, from, i - 1);
        FirstStepsAdvance(Run(OPENED, actions + fewer), c, i - 1);
      }
    }
  }

  lemma PastQueueing(actions: seq<Action>, more: seq<Action>, c: nat)
    requires c < |Run(OPENED, actions).calls| && InOrder(more, [Register(c), Queue(c)])
    ensures var t := Run(OPENED, actions + more); c < |t.calls| && Progress(t.calls[c]) >= 2
  {
    var from := Progress(Run(OPENED, actions).calls[c]);
    assert OwnSteps(c)[0..2] == [Register(c), Queue(c)];
    if from <= 2 {
      InOrderTail(more, [Register(c), Queue(c)], from);
      assert [Register(c), Queue(c)][from..] == OwnSteps(c)[from..2];
      FirstStepsProgress(actions, more, c, from, 2);
    } else {
      RunsSettle(actions, more, c);
      ProgressStays(Run(OPENED, actions).calls[c], Run(OPENED, actions + more).calls[c]);
    }
  }

  /** Once a call has entered the table and queued its message, whatever happened in between, the host is sent it,
    * if the link is still open and the writer never failed.
    */
  lemma OpenCallsAreSent(actions: seq<Action>, more: seq<Action>, c: nat)
    requires c < |Run(OPENED, actions).calls| && InOrder(more, [Register(c), Queue(c)])
    requires WriterFails !in actions + more && !Run(OPENED, actions + more).table.closed
    ensures var t := Run(OPENED, actions + more);
            && c < |t.calls| && t.calls[c].id == c + 1 && c + 1 in t.sent
            && (t.calls[c].stage.Awaiting? || t.calls[c].stage.Answered? || t.calls[c].stage.Abandoned?)
  {
    var t := Run(OPENED, actions + more);
    PastQueueing(actions, more, c);
    RunsAreHealthy(actions + more);
    assert Sound(t, c);
    LiveWriterSends(actions + more);
    AnswersAreFirstReplies(actions + more, c);
    EachCallIsSentOnce(actions + more, c);
  }

  // ---- and its reply on the way back ----

  predicate NoReplyCame(actions: seq<Action>, id: nat) {
    forall a :: a in actions ==> !(a.Take? && a.line.Reply? && a.line.id == id)
  }

  lemma {:induction false} NoReplyAmong(lines: seq<Line>, since: nat, id: nat)
    requires forall line :: line in lines ==> !line.Reply? || line.id != id
    ensures FirstReply(lines, since, id).None?
    decreases |lines|
  {
    if |lines| > since {
      var front := lines[..|lines| - 1];
      assert forall line :: line in front ==> line in lines;
      assert lines[|lines| - 1] in lines;
      NoReplyAmong(front, since, id);
    }
  }

  lemma WaitingSince(s: System, c: nat)
    requires Healthy(s) && c < |s.calls| && s.calls[c].stage.Awaiting?
    ensures s.calls[c].id == c + 1 && s.calls[c].since <= |s.lines|
  {
    assert Sound(s, c);
  }

  /** What the reader takes for a waiting call is its first result, if none came before. */
  lemma ReplyIsFirst(s: System, c: nat, envelope: Json)
    requires c < |s.calls| && s.calls[c].id == c + 1 && s.calls[c].since <= |s.lines| && s.reader.Reading?
    requires FirstReply(s.lines, s.calls[c].since, c + 1).None?
    ensures var t := Next(s, Take(Reply(c + 1, envelope)));
            t.calls == s.calls && FirstReply(t.lines, s.calls[c].since, c + 1) == Some(envelope)
  {
    StepTakes(s, Take(Reply(c + 1, envelope)));
    ReplyAppends(s.lines, Reply(c + 1, envelope), s.calls[c].since, c + 1);
  }

  /** The first result that comes for a call that was sent is what the call returns with, after a hand-over and its
    * last step with anything around them, unless it was given up by a step of its own.
    */
  lemma ReplyIsDelivered(actions: seq<Action>, envelope: Json, more: seq<Action>, c: nat)
    requires var s := Run(OPENED, actions); c < |s.calls| && c + 1 in s.sent && s.reader.Reading?
    requires NoReplyCame(actions, c + 1)
    requires InOrder(more, [HandOver, Finish(c)])
    ensures var all := actions + [Take(Reply(c + 1, envelope))] + more;
            var t := Run(OPENED, all);
            && c < |t.calls|
            && (|| t.calls[c].stage == Answered(envelope)
                || (t.calls[c].stage.Abandoned? && Abandon(c) in all))
  {
    var s, taken := Run(OPENED, actions), Take(Reply(c + 1, envelope));
    var next := actions + [taken];
    RunsAreHealthy(actions);
    assert Sound(s, c);
    RunUnfolds(actions, [taken]);
    assert actions + [taken][..0] == actions;
    EachCallIsSentOnce(actions, c);
    LinesCame(actions);
    NoReplyAmong(s.lines, s.calls[c].since, c + 1);
    if s.calls[c].stage.Awaiting? {
      WaitingSince(s, c);
      ReplyIsFirst(s, c, envelope);
      RepliesArrive(next, more, c);
    } else {
      SentIsWaitingOrGivenUp(actions, c);
      AbandonedByItself(actions, c);
      RunsSettle(actions, [taken], c);
      RunsSettle(next, more, c);
    }
  }

  /** While the reader reads and no result for a sent call has come, the call waits or was given up. */
  lemma SentIsWaitingOrGivenUp(actions: seq<Action>, c: nat)
    requires var s := Run(OPENED, actions);
             && c < |s.calls| && WasQueued(s.calls[c]) && s.reader.Reading?
             && FirstReply(s.lines, s.calls[c].since, s.calls[c].id).None?
    ensures var k := Run(OPENED, actions).calls[c]; k.stage.Awaiting? || k.stage.Abandoned?
  {
    RunsAreHealthy(actions);
    AnswersAreFirstReplies(actions, c);
  }

  /** End to end: a call that enters the table and queues its message is sent, and the first result that then comes
    * for it is what it returns with, unless it was given up.
    */
  lemma CallGetsItsReply(actions: seq<Action>, more: seq<Action>, envelope: Json, rest: seq<Action>, c: nat)
    requires c < |Run(OPENED, actions).calls| && InOrder(more, [Register(c), Queue(c)])
    requires WriterFails !in actions + more && Run(OPENED, actions + more).reader.Reading?
    requires NoReplyCame(actions + more, c + 1)
    requires InOrder(rest, [HandOver, Finish(c)])
    ensures c + 1 in Run(OPENED, actions + more).sent
    ensures var all := actions + more + [Take(Reply(c + 1, envelope))] + rest;
            var t := Run(OPENED, all);
            && c < |t.calls|
            && (|| t.calls[c].stage == Answered(envelope)
                || (t.calls[c].stage.Abandoned? && Abandon(c) in all))
  {
    RunsAreHealthy(actions + more);
    OpenCallsAreSent(actions, more, c);
    ReplyIsDelivered(actions + more, envelope, rest, c);
  }
}
