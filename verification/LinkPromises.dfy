/** What callers and the event consumer can rely on, over every run of the link. */
module LinkPromises {
  import opened Wrappers
  import opened LinkModel
  import opened LinkLaws

  // ---- the table and the flags ----

  /** Closed means empty, and whoever sees the link ended finds it closed. */
  lemma ClosedMeansEmpty(actions: seq<Action>)
    ensures var s := Run(OPENED, actions);
            && (s.table.closed ==> s.table.waiting == map[])
            && (s.ended ==> s.table.closed)
  {
    RunsAreHealthy(actions);
  }

  // ---- what a call is told ----

  /** A call that awaited its answer gets one exactly when a result with its id was taken after it
    * registered, and then the first such; otherwise it learns the connection is lost, which needs the link closed.
    */
  lemma AnswersAreFirstReplies(actions: seq<Action>, c: nat)
    requires c < |Run(OPENED, actions).calls|
    ensures var s := Run(OPENED, actions);
            var k := s.calls[c];
            var reply := FirstReply(s.lines, k.since, k.id);
            && (k.stage.Answered? ==> reply == Some(k.stage.envelope))
            && (k.stage.Cut? ==> reply.None?)
            && (k.stage.Cut? || k.stage.Refused? ==> s.table.closed)
  {
    RunsAreHealthy(actions);
    assert Sound(Run(OPENED, actions), c);
  }

  /** No two calls share an id, so a result is for one call at most. */
  lemma IdsAreDistinct(actions: seq<Action>, c: nat, d: nat)
    requires c < d < |Run(OPENED, actions).calls|
    ensures Run(OPENED, actions).calls[c].id != Run(OPENED, actions).calls[d].id
  {
    RunsAreHealthy(actions);
    assert Sound(Run(OPENED, actions), c) && Sound(Run(OPENED, actions), d);
  }

  /** What is settled about a call stays: its id, a sent or dropped value, and what it returned. */
  predicate Settles(before: Call, after: Call) {
    && before.id == after.id
    && (!before.slot.Open? ==> after.slot == before.slot)
    && (!Receiving(before) ==> after.stage == before.stage)
    && (WasRegistered(before) ==> WasRegistered(after) && after.since == before.since)
    && (WasQueued(before) ==> WasQueued(after))
  }

  lemma RegisterSettles(s: System, c: nat, d: nat)
    requires Healthy(s) && Enabled(s, Register(c)) && d < |s.calls|
    ensures |RegisterCall(s, c).calls| == |s.calls| && Settles(s.calls[d], RegisterCall(s, c).calls[d])
  {
    RegistersAfresh(s, c);
    assert Sound(s, c);
  }

  lemma ClearSettles(s: System, d: nat)
    requires Healthy(s) && d < |s.calls|
    ensures |ClearTable(s).calls| == |s.calls| && Settles(s.calls[d], ClearTable(s).calls[d])
  {
    ClearDropsTheWaiters(s, d);
    assert Sound(s, d);
  }

  lemma HandOverSettles(s: System, d: nat)
    requires CallsSound(s) && Enabled(s, HandOver) && d < |s.calls|
    ensures Settles(s.calls[d], HandedOver(s, s.reader.call, s.reader.envelope).calls[d])
  {
    assert Sound(s, d);
  }

  /** A step that moves at most the stage of one running call. */
  lemma StageSettles(s: System, a: Action, d: nat)
    requires Enabled(s, a) && (a.Queue? || a.Finish? || a.Abandon?) && d < |s.calls|
    ensures |s.calls| == |Effect(s, a).calls| && Settles(s.calls[d], Effect(s, a).calls[d])
  {
  }

  lemma StepSettles(s: System, a: Action, d: nat)
    requires Healthy(s) && d < |s.calls| && Enabled(s, a)
    ensures |s.calls| <= |Effect(s, a).calls| && Settles(s.calls[d], Effect(s, a).calls[d])
  {
    match a {
      case Register(c) => RegisterSettles(s, c, d);
      case Clear => ClearSettles(s, d);
      case HandOver => HandOverSettles(s, d);
      case Queue(_) => StageSettles(s, a, d);
      case Finish(_) => StageSettles(s, a, d);
      case Abandon(_) => StageSettles(s, a, d);
      case _ =>
    }
  }

  lemma RunStepSettles(actions: seq<Action>, a: Action, d: nat)
    requires d < |Run(OPENED, actions).calls|
    ensures var s := Run(OPENED, actions);
            |s.calls| <= |Next(s, a).calls| && Settles(s.calls[d], Next(s, a).calls[d])
  {
    var s := Run(OPENED, actions);
    RunsAreHealthy(actions);
    if Enabled(s, a) {
      StepSettles(s, a, d);
    }
  }

  lemma SettlingChains(k: Call, l: Call, m: Call)
    requires Settles(k, l) && Settles(l, m)
    ensures Settles(k, m)
  {
  }

  /** At most one answer: however the run goes on, nothing settled is undone. */
  lemma {:induction false} RunsSettle(actions: seq<Action>, more: seq<Action>, c: nat)
    requires c < |Run(OPENED, actions).calls|
    ensures |Run(OPENED, actions).calls| <= |Run(OPENED, actions + more).calls|
    ensures Settles(Run(OPENED, actions).calls[c], Run(OPENED, actions + more).calls[c])
    decreases |more|
  {
    if more == [] {
      assert actions + more == actions;
    } else {
      var fewer := more[..|more| - 1];
      RunsSettle(actions, fewer, c);
      RunStepSettles(actions + fewer, more[|more| - 1], c);
      RunUnfolds(actions, more);
      SettlingChains(Run(OPENED, actions).calls[c], Run(OPENED, actions + fewer).calls[c],
                     Run(OPENED, actions + more).calls[c]);
    }
  }

  lemma RunUnfolds(actions: seq<Action>, more: seq<Action>)
    requires more != []
    ensures Run(OPENED, actions + more) ==
            Next(Run(OPENED, actions + more[..|more| - 1]), more[|more| - 1])
  {
    assert (actions + more)[..|actions + more| - 1] == actions + more[..|more| - 1];
  }

  // ---- nobody waits in vain ----

  /** `steps` happen in `more` in this order, whatever happens in between. */
  predicate InOrder(more: seq<Action>, steps: seq<Action>)
    decreases |more|
  {
    || steps == []
    || (&& more != []
        && var fewer := more[..|more| - 1];
           || InOrder(fewer, steps)
           || (more[|more| - 1] == steps[|steps| - 1] && InOrder(fewer, steps[..|steps| - 1])))
  }

  /** The last of the steps `from` up to `to` is the last action, or they all happened before it. */
  lemma InOrderUnfolds(more: seq<Action>, steps: seq<Action>, from: nat, to: nat)
    requires from < to <= |steps| && InOrder(more, steps[from..to])
    ensures more != []
    ensures var fewer := more[..|more| - 1];
            || InOrder(fewer, steps[from..to])
            || (more[|more| - 1] == steps[to - 1] && InOrder(fewer, steps[from..to - 1]))
  {
    assert steps[from..to][..to - from - 1] == steps[from..to - 1];
  }

  /** One step after all the others makes the order longer, with anything after it. */
  lemma {:induction false} InOrderExtends(before: seq<Action>, a: Action, after: seq<Action>, steps: seq<Action>)
    requires InOrder(before, steps)
    ensures InOrder(before + [a] + after, steps + [a])
    decreases |after|
  {
    var all := before + [a] + after;
    assert (steps + [a])[..|steps|] == steps;
    if after == [] {
      assert all[..|all| - 1] == before;
    } else {
      assert all[..|all| - 1] == before + [a] + after[..|after| - 1];
      InOrderExtends(before, a, after[..|after| - 1], steps);
    }
  }

  lemma InOrderFolds(more: seq<Action>, steps: seq<Action>, front: seq<Action>, last: Action)
    requires more != [] && steps == front + [last]
    requires || InOrder(more[..|more| - 1], steps)
             || (more[|more| - 1] == last && InOrder(more[..|more| - 1], front))
    ensures InOrder(more, steps)
  {
    assert steps[..|steps| - 1] == front;
  }

  lemma {:induction false} InOrderTail(more: seq<Action>, steps: seq<Action>, from: nat)
    requires from <= |steps| && InOrder(more, steps)
    ensures InOrder(more, steps[from..])
    decreases |more|
  {
    if from < |steps| {
      var fewer, front, last := more[..|more| - 1], steps[..|steps| - 1], steps[|steps| - 1];
      if InOrder(fewer, steps) {
        InOrderTail(fewer, steps, from);
      } else {
        InOrderTail(fewer, front, from);
      }
      InOrderFolds(more, steps[from..], front[from..], last);
    }
  }

  /** Once the reader has closed the table, no registered call has a sender left to wait for. */
  lemma NoneIsPending(s: System, c: nat)
    requires Healthy(s) && s.table.closed && c < |s.calls| && WasRegistered(s.calls[c])
    ensures !s.calls[c].slot.Open?
  {
    assert Sound(s, c);
  }

  /** What a call does itself, and how many of these steps it has behind it. */
  function OwnSteps(c: nat): seq<Action> {
    [Register(c), Queue(c), Finish(c)]
  }

  function Progress(k: Call): nat {
    if k.stage.Numbered? then 0 else if k.stage.Registered? then 1 else if k.stage.Awaiting? then 2 else 3
  }

  lemma ProgressStays(before: Call, after: Call)
    requires Settles(before, after)
    ensures Progress(before) <= Progress(after)
  {
  }

  /** A call whose channel is settled returns by its next step. */
  lemma SettledReturns(s: System, c: nat)
    requires c < |s.calls| && s.calls[c].stage.Awaiting? && !s.calls[c].slot.Open?
    ensures c < |Next(s, Finish(c)).calls| && Progress(Next(s, Finish(c)).calls[c]) == 3
  {
    assert Next(s, Finish(c)) == FinishCall(s, c);
  }

  /** Once the table is closed, no step of a call's own is held up. */
  lemma CallAdvances(s: System, c: nat, i: nat)
    requires Healthy(s) && s.table.closed && c < |s.calls| && i < 3 && i <= Progress(s.calls[c])
    ensures var t := Next(s, OwnSteps(c)[i]);
            c < |t.calls| && i < Progress(t.calls[c])
  {
    if Progress(s.calls[c]) > i {
      assert !Enabled(s, OwnSteps(c)[i]);
    } else if i == 2 {
      NoneIsPending(s, c);
      SettledReturns(s, c);
    }
  }

  lemma {:induction false} CallProgresses(actions: seq<Action>, more: seq<Action>, c: nat, i: nat)
    requires var s := Run(OPENED, actions);
             && s.table.closed && c < |s.calls| && Progress(s.calls[c]) <= i <= 3
             && InOrder(more, OwnSteps(c)[Progress(s.calls[c])..i])
    ensures var t := Run(OPENED, actions + more); c < |t.calls| && i <= Progress(t.calls[c])
    decreases |more|
  {
    var from := Progress(Run(OPENED, actions).calls[c]);
    RunsSettle(actions, more, c);
    ProgressStays(Run(OPENED, actions).calls[c], Run(OPENED, actions + more).calls[c]);
    if from < i {
      InOrderUnfolds(more, OwnSteps(c), from, i);
      var fewer, a := more[..|more| - 1], more[|more| - 1];
      RunUnfolds(actions, more);
      if InOrder(fewer, OwnSteps(c)[from..i]) {
        CallProgresses(actions, fewer, c, i);
        RunStepSettles(actions + fewer, a, c);
        ProgressStays(Run(OPENED, actions + fewer).calls[c], Run(OPENED, actions + more).calls[c]);
      } else {
        CallProgresses(actions, fewer, c, i - 1);
        RunKeepsLateOut(actions, fewer);
        RunsAreHealthy(actions + fewer);
        CallAdvances(Run(OPENED, actions + fewer), c, i - 1);
      }
    }
  }

  /** After that every call still running ends once its remaining own steps have come, whatever comes between. */
  lemma EveryCallReturns(actions: seq<Action>, more: seq<Action>, c: nat)
    requires var s := Run(OPENED, actions);
             && s.table.closed && c < |s.calls|
             && InOrder(more, OwnSteps(c)[Progress(s.calls[c])..])
    ensures var t := Run(OPENED, actions + more);
            c < |t.calls| && !Receiving(t.calls[c])
  {
    var from := Progress(Run(OPENED, actions).calls[c]);
    assert OwnSteps(c)[from..] == OwnSteps(c)[from..3];
    CallProgresses(actions, more, c, 3);
  }

  /** Written out: the three steps of a call with any steps before, between and after them. */
  lemma InterleavedCallReturns(actions: seq<Action>, u: seq<Action>, v: seq<Action>, w: seq<Action>, x: seq<Action>,
                               c: nat)
    requires var s := Run(OPENED, actions); s.table.closed && c < |s.calls|
    ensures var t := Run(OPENED, actions + (u + [Register(c)] + v + [Queue(c)] + w + [Finish(c)] + x));
            c < |t.calls| && !Receiving(t.calls[c])
  {
    var one := u + [Register(c)] + v;
    var two := one + [Queue(c)] + w;
    var more := two + [Finish(c)] + x;
    InOrderExtends(u, Register(c), v, []);
    InOrderExtends(one, Queue(c), w, [] + [Register(c)]);
    InOrderExtends(two, Finish(c), x, [] + [Register(c)] + [Queue(c)]);
    assert [] + [Register(c)] + [Queue(c)] + [Finish(c)] == OwnSteps(c);
    InOrderTail(more, OwnSteps(c), Progress(Run(OPENED, actions).calls[c]));
    EveryCallReturns(actions, more, c);
  }

  /** No call from the `n`th on has got past the table. */
  predicate LateOnesWait(s: System, n: nat) {
    forall c :: n <= c < |s.calls| ==> s.calls[c].stage.Numbered? || s.calls[c].stage.Refused?
  }

  lemma StageKeepsLateOut(s: System, c: nat, stage: Stage, n: nat)
    requires LateOnesWait(s, n) && c < |s.calls| && !s.calls[c].stage.Numbered? && !s.calls[c].stage.Refused?
    ensures LateOnesWait(WithStage(s, c, stage), n)
  {
  }

  lemma QueueKeepsLateOut(s: System, c: nat, n: nat)
    requires LateOnesWait(s, n) && Enabled(s, Queue(c))
    ensures LateOnesWait(QueueCall(s, c), n)
  {
    StageKeepsLateOut(s, c, Awaiting, n);
    StageKeepsLateOut(s, c, Unsent, n);
    assert QueueCall(s, c).calls == WithStage(s, c, if s.writing then Awaiting else Unsent).calls;
  }

  lemma FinishKeepsLateOut(s: System, c: nat, n: nat)
    requires LateOnesWait(s, n) && Enabled(s, Finish(c))
    ensures LateOnesWait(FinishCall(s, c), n)
  {
    var stage := if s.calls[c].slot.Filled? then Answered(s.calls[c].slot.envelope) else Cut;
    assert FinishCall(s, c) == WithStage(s, c, stage);
    StageKeepsLateOut(s, c, stage, n);
  }

  /** What begins after the close stays outside. */
  lemma StepKeepsLateOut(s: System, a: Action, n: nat)
    requires s.table.closed && n <= |s.calls| && LateOnesWait(s, n) && Enabled(s, a)
    ensures LateOnesWait(Effect(s, a), n)
  {
    match a {
      case Queue(c) => QueueKeepsLateOut(s, c, n);
      case Finish(c) => FinishKeepsLateOut(s, c, n);
      case Abandon(c) => StageKeepsLateOut(s, c, Abandoned, n);
      case _ =>
    }
  }

  /** Closing is for good, and calls are never forgotten. */
  lemma ClosedStays(s: System, a: Action)
    requires s.table.closed
    ensures Next(s, a).table.closed && |s.calls| <= |Next(s, a).calls|
  {
    if Enabled(s, a) {
      match a {
        case Register(c) => assert RegisterCall(s, c).table == s.table;
        case Queue(c) => assert QueueCall(s, c).table == s.table;
        case Finish(c) => assert FinishCall(s, c).table == s.table;
        case _ =>
      }
    }
  }

  lemma {:induction false} RunKeepsLateOut(actions: seq<Action>, more: seq<Action>)
    requires Run(OPENED, actions).table.closed
    ensures var n, t := |Run(OPENED, actions).calls|, Run(OPENED, actions + more);
            t.table.closed && n <= |t.calls| && LateOnesWait(t, n)
    decreases |more|
  {
    if more == [] {
      assert actions + more == actions;
    } else {
      var fewer := more[..|more| - 1];
      RunKeepsLateOut(actions, fewer);
      var s, a := Run(OPENED, actions + fewer), more[|more| - 1];
      ClosedStays(s, a);
      if Enabled(s, a) {
        StepKeepsLateOut(s, a, |Run(OPENED, actions).calls|);
      }
      RunUnfolds(actions, more);
    }
  }

  /** However the run goes on after the close, a call begun since is refused at most: it never enters the
    * table and the host never gets its message.
    */
  lemma LateCallsAreRefused(actions: seq<Action>, more: seq<Action>, c: nat)
    requires Run(OPENED, actions).table.closed
    requires |Run(OPENED, actions).calls| <= c < |Run(OPENED, actions + more).calls|
    ensures var t := Run(OPENED, actions + more);
            && (t.calls[c].stage.Numbered? || t.calls[c].stage.Refused?)
            && t.calls[c].id !in t.table.waiting && t.calls[c].id !in t.sent
  {
    RunKeepsLateOut(actions, more);
    EachCallIsSentOnce(actions + more, c);
    ClosedMeansEmpty(actions + more);
  }

  /** Call `c` was sent, its first result is `envelope`, and it is `i` steps from the hand-over on. */
  predicate Replied(s: System, c: nat, envelope: Json, i: nat) {
    && c < |s.calls| && WasQueued(s.calls[c])
    && FirstReply(s.lines, s.calls[c].since, s.calls[c].id) == Some(envelope)
    && (s.calls[c].stage.Awaiting? ==> i < 2 && (i == 1 ==> !s.calls[c].slot.Open?))
  }

  lemma FirstReplyStays(s: System, a: Action, since: nat, id: nat)
    requires since <= |s.lines| && FirstReply(s.lines, since, id).Some?
    ensures FirstReply(Next(s, a).lines, since, id) == FirstReply(s.lines, since, id)
  {
    if a.Take? {
      ReplyAppends(s.lines, a.line, since, id);
    }
  }

  lemma RepliedStays(actions: seq<Action>, a: Action, c: nat, envelope: Json, i: nat)
    requires Replied(Run(OPENED, actions), c, envelope, i)
    ensures Replied(Next(Run(OPENED, actions), a), c, envelope, i)
  {
    var s := Run(OPENED, actions);
    RunsAreHealthy(actions);
    assert Sound(s, c);
    RunStepSettles(actions, a, c);
    FirstReplyStays(s, a, s.calls[c].since, s.calls[c].id);
  }

  /** The reply of a waiting call is in its channel or in the reader's hand. */
  lemma ReplyIsHanded(s: System, c: nat)
    requires Healthy(s) && c < |s.calls| && s.calls[c].stage.Awaiting?
    requires FirstReply(s.lines, s.calls[c].since, s.calls[c].id).Some?
    ensures c < |Next(s, HandOver).calls| && !Next(s, HandOver).calls[c].slot.Open?
  {
    assert Sound(s, c);
    if Enabled(s, HandOver) {
      HandOverSettles(s, c);
    } else {
      assert Next(s, HandOver) == s && !InHand(s, c);
    }
  }

  function ReplySteps(c: nat): seq<Action> {
    [HandOver, Finish(c)]
  }

  lemma ReplyAdvances(actions: seq<Action>, c: nat, envelope: Json, i: nat)
    requires i < 2 && Replied(Run(OPENED, actions), c, envelope, i)
    ensures Replied(Next(Run(OPENED, actions), ReplySteps(c)[i]), c, envelope, i + 1)
  {
    var s := Run(OPENED, actions);
    RepliedStays(actions, ReplySteps(c)[i], c, envelope, i);
    RunsAreHealthy(actions);
    RunStepSettles(actions, ReplySteps(c)[i], c);
    if s.calls[c].stage.Awaiting? {
      if i == 0 {
        ReplyIsHanded(s, c);
      } else {
        SettledReturns(s, c);
      }
    }
  }

  lemma {:induction false} ReplyProgresses(actions: seq<Action>, more: seq<Action>, c: nat, envelope: Json, i: nat)
    requires Replied(Run(OPENED, actions), c, envelope, 0)
    requires i <= 2 && InOrder(more, ReplySteps(c)[0..i])
    ensures Replied(Run(OPENED, actions + more), c, envelope, i)
    decreases |more|
  {
    if i > 0 {
      InOrderUnfolds(more, ReplySteps(c), 0, i);
    }
    if more == [] {
      assert actions + more == actions;
    } else {
      var fewer, a := more[..|more| - 1], more[|more| - 1];
      RunUnfolds(actions, more);
      if InOrder(fewer, ReplySteps(c)[0..i]) {
        ReplyProgresses(actions, fewer, c, envelope, i);
        RepliedStays(actions + fewer, a, c, envelope, i);
      } else {
        ReplyProgresses(actions, fewer, c, envelope, i - 1);
        ReplyAdvances(actions + fewer, c, envelope, i - 1);
      }
    }
  }

  lemma AbandonsItself(s: System, a: Action, c: nat)
    requires TableSound(s) && CallsSound(s) && c < |s.calls| && !s.calls[c].stage.Abandoned? && a != Abandon(c)
    ensures c < |Next(s, a).calls| && !Next(s, a).calls[c].stage.Abandoned?
  {
    if a.Register? && Enabled(s, a) {
      RegistersAfresh(s, a.call);
    }
  }

  /** A call is given up only by a step of its own. */
  lemma {:induction false} OnlyOwnAbandons(actions: seq<Action>, more: seq<Action>, c: nat)
    requires c < |Run(OPENED, actions).calls| && !Run(OPENED, actions).calls[c].stage.Abandoned?
    ensures var t := Run(OPENED, actions + more);
            c < |t.calls| && (t.calls[c].stage.Abandoned? ==> Abandon(c) in more)
    decreases |more|
  {
    if more == [] {
      assert actions + more == actions;
    } else {
      var fewer, a := more[..|more| - 1], more[|more| - 1];
      RunUnfolds(actions, more);
      OnlyOwnAbandons(actions, fewer, c);
      RunStepSettles(actions + fewer, a, c);
      RunsAreHealthy(actions + fewer);
      if a != Abandon(c) && !Run(OPENED, actions + fewer).calls[c].stage.Abandoned? {
        AbandonsItself(Run(OPENED, actions + fewer), a, c);
      }
    }
  }

  /** A taken reply is not lost on a waiting call: after a hand-over and the call's last step, with anything
    * before, between and after, it has returned with the first reply, unless it was given up.
    */
  lemma RepliesArrive(actions: seq<Action>, more: seq<Action>, c: nat)
    requires var s := Run(OPENED, actions);
             && c < |s.calls| && s.calls[c].stage.Awaiting?
             && FirstReply(s.lines, s.calls[c].since, s.calls[c].id).Some?
    requires InOrder(more, [HandOver, Finish(c)])
    ensures var s, t := Run(OPENED, actions), Run(OPENED, actions + more);
            && c < |t.calls|
            && (|| t.calls[c].stage == Answered(FirstReply(s.lines, s.calls[c].since, s.calls[c].id).value)
                || (t.calls[c].stage.Abandoned? && Abandon(c) in more))
  {
    var s := Run(OPENED, actions);
    assert ReplySteps(c)[0..2] == [HandOver, Finish(c)];
    ReplyProgresses(actions, more, c, FirstReply(s.lines, s.calls[c].since, s.calls[c].id).value, 2);
    OnlyOwnAbandons(actions, more, c);
    AnswersAreFirstReplies(actions + more, c);
  }

  // ---- the reader's way out ----

  const EXIT_STEPS := [Clear, Store, Announce]

  /** How many steps of its way out the reader has behind it. */
  function Exited(r: Reader): nat {
    if r.Done? then 3 else if r.Stored? then 2 else if r.Cleared? then 1 else 0
  }

  predicate Leaving(r: Reader) {
    r.Stopping? || Shut(r)
  }

  lemma LeavingStays(s: System, a: Action)
    requires Leaving(s.reader)
    ensures Leaving(Next(s, a).reader) && Exited(s.reader) <= Exited(Next(s, a).reader)
  {
    if Enabled(s, a) {
      match a {
        case Register(c) => assert RegisterCall(s, c).reader == s.reader;
        case Queue(c) => assert QueueCall(s, c).reader == s.reader;
        case Finish(c) => assert FinishCall(s, c).reader == s.reader;
        case _ =>
      }
    }
  }

  lemma ExitAdvances(s: System, i: nat)
    requires Leaving(s.reader) && i < 3 && i <= Exited(s.reader)
    ensures i < Exited(Next(s, EXIT_STEPS[i]).reader)
  {
  }

  lemma {:induction false} ExitProgresses(actions: seq<Action>, more: seq<Action>, i: nat)
    requires var r := Run(OPENED, actions).reader;
             Leaving(r) && Exited(r) <= i <= 3 && InOrder(more, EXIT_STEPS[Exited(r)..i])
    ensures var r := Run(OPENED, actions + more).reader; Leaving(r) && i <= Exited(r)
    decreases |more|
  {
    var from := Exited(Run(OPENED, actions).reader);
    if from < i {
      InOrderUnfolds(more, EXIT_STEPS, from, i);
    }
    if more == [] {
      assert actions + more == actions;
    } else {
      var fewer, a := more[..|more| - 1], more[|more| - 1];
      RunUnfolds(actions, more);
      if InOrder(fewer, EXIT_STEPS[from..i]) {
        ExitProgresses(actions, fewer, i);
        LeavingStays(Run(OPENED, actions + fewer), a);
      } else {
        ExitProgresses(actions, fewer, i - 1);
        LeavingStays(Run(OPENED, actions + fewer), a);
        ExitAdvances(Run(OPENED, actions + fewer), i - 1);
      }
    }
  }

  /** Once it has left its loop the reader ends when its remaining steps have come, whatever comes between,
    * and leaves the table closed and empty.
    */
  lemma ReaderEnds(actions: seq<Action>, more: seq<Action>)
    requires var r := Run(OPENED, actions).reader; Leaving(r) && InOrder(more, EXIT_STEPS[Exited(r)..])
    ensures var t := Run(OPENED, actions + more);
            t.reader.Done? && t.ended && t.table == Table(true, map[])
  {
    var from := Exited(Run(OPENED, actions).reader);
    assert EXIT_STEPS[from..] == EXIT_STEPS[from..3];
    ExitProgresses(actions, more, 3);
    RunsAreHealthy(actions + more);
  }

  /** Whatever the reader is doing, the end of its input takes it out of its loop, after the value in its hand. */
  lemma ReaderStops(actions: seq<Action>)
    ensures var s := Run(OPENED, actions); Leaving(Next(Next(s, HandOver), EndInput).reader)
  {
    RunsAreHealthy(actions);
    var h := Next(Run(OPENED, actions), HandOver);
    assert !h.reader.Handing?;
  }

  // ---- what the consumer sees ----

  /** The consumer that keeps listening has every pushed line in order, and `Closed` exactly once the
    * reader is done, once and last.
    */
  lemma InboxIsInOrder(actions: seq<Action>)
    ensures var s := Run(OPENED, actions);
            && (s.listening ==> s.inbox == Pushes(s.lines) + if s.reader.Done? then [Closed] else [])
            && (forall i :: 0 <= i < |s.inbox| && s.inbox[i].Closed? ==> i == |s.inbox| - 1 && s.ended)
  {
    RunsAreHealthy(actions);
    PushesAreOpen(Run(OPENED, actions).lines);
    InboxOfHealthy(Run(OPENED, actions));
  }

  lemma InboxOfHealthy(s: System)
    requires TableSound(s) && InboxSound(s)
    requires forall i :: 0 <= i < |Pushes(s.lines)| ==> Pushes(s.lines)[i].Pushed?
    ensures s.listening ==> s.inbox == Pushes(s.lines) + if s.reader.Done? then [Closed] else []
    ensures forall i :: 0 <= i < |s.inbox| && s.inbox[i].Closed? ==> i == |s.inbox| - 1 && s.ended
  {
  }

  lemma {:induction false} PushesAreOpen(lines: seq<Line>)
    ensures forall i :: 0 <= i < |Pushes(lines)| ==> Pushes(lines)[i].Pushed?
    decreases |lines|
  {
    if lines != [] {
      PushesAreOpen(lines[..|lines| - 1]);
    }
  }

  // ---- what the host sees ----

  /** The host gets one message for each call that got past its queueing step, and none twice. */
  lemma EachCallIsSentOnce(actions: seq<Action>, c: nat)
    requires c < |Run(OPENED, actions).calls|
    ensures var s := Run(OPENED, actions);
            && (s.calls[c].id in s.sent <==> WasQueued(s.calls[c]))
            && forall i, j :: 0 <= i < j < |s.sent| ==> s.sent[i] != s.sent[j]
  {
    RunsAreHealthy(actions);
    assert Sound(Run(OPENED, actions), c);
  }

  // ---- calls keep out of each other's way ----

  predicate Concerns(s: System, a: Action, d: nat) {
    match a
    case Register(c) => c == d
    case Queue(c) => c == d
    case Finish(c) => c == d
    case Abandon(c) => c == d
    case HandOver => s.reader.Handing? && s.reader.call == d
    case Clear => true
    case _ => false
  }

  /** Short of the final clearing, a step changes no call but the one it is about. */
  lemma OthersAreUntouched(s: System, a: Action, d: nat)
    requires TableSound(s) && CallsSound(s) && d < |s.calls| && !Concerns(s, a, d)
    ensures d < |Next(s, a).calls| && Next(s, a).calls[d] == s.calls[d]
  {
    if a.Register? && Enabled(s, a) {
      RegistersAfresh(s, a.call);
    }
  }
}
