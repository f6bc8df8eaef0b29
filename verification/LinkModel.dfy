/** The request/response link: callers, one reader task and the table of waiters they share.
  * Every action is one atomic step of the program: a lock region, an atomic operation or a channel operation.
  */
module LinkModel {
  import opened Wrappers

  /** An envelope or a pushed payload, as JSON text. */
  type Json = string

  /** A line from the host; `Noise` is a second greeting or a line that does not parse. */
  datatype Line = Reply(id: nat, envelope: Json) | Event(event: Json) | Notice(notice: Json) | Noise

  datatype Incoming = Pushed(line: Line) | Closed

  /** `Waiters`: the close flag, and the sender of each call waiting for its id (named by the call). */
  datatype Table = Table(closed: bool, waiting: map<nat, nat>)

  /** The oneshot channel of a call, seen from its sending half. */
  datatype Slot = Open | Filled(envelope: Json) | Dropped

  /** How far a call has come. `Refused`, `Unsent` and `Cut` are the three ways to report a lost connection. */
  datatype Stage =
    | Numbered
    | Registered
    | Awaiting
    | Refused
    | Unsent
    | Cut
    | Answered(envelope: Json)
    | Abandoned

  /** A call; `since` counts the lines the reader had taken when the call entered the table. */
  datatype Call = Call(id: nat, stage: Stage, slot: Slot, since: nat)

  datatype Reader = Reading | Handing(call: nat, envelope: Json) | Stopping | Cleared | Stored | Done

  /** `lines` are the lines the reader has taken and `sent` the ids queued for the host. */
  datatype System = System(
    next: nat, calls: seq<Call>, table: Table, reader: Reader, ended: bool,
    lines: seq<Line>, inbox: seq<Incoming>, listening: bool, writing: bool, sent: seq<nat>)

  datatype Action =
    | Begin
    | Register(call: nat)
    | Queue(call: nat)
    | Finish(call: nat)
    | Abandon(call: nat)
    | Take(line: Line)
    | EndInput
    | HandOver
    | Clear
    | Store
    | Announce
    | DropInbox
    | WriterFails

  const OPENED := System(1, [], Table(false, map[]), Reading, false, [], [], true, true, [])

  // ---- the three lock regions ----

  /** The caller's region: refuse when closed, otherwise insert. */
  function Inserted(t: Table, id: nat, call: nat): Table {
    if t.closed then t else t.(waiting := t.waiting[id := call])
  }

  /** The reader's region for a result: take the waiter out. */
  function Removed(t: Table, id: nat): Table {
    t.(waiting := t.waiting - {id})
  }

  /** The reader's last region: close and clear at once. */
  function Emptied(t: Table): Table {
    Table(true, map[])
  }

  function Waiter(t: Table, id: nat): Option<nat> {
    if id in t.waiting then Some(t.waiting[id]) else None
  }

  // ---- steps ----

  /** A receiver lives until its call has returned or was dropped. */
  predicate Receiving(k: Call) {
    k.stage.Numbered? || k.stage.Registered? || k.stage.Awaiting?
  }

  function WithStage(s: System, c: nat, stage: Stage): System
    requires c < |s.calls|
  {
    s.(calls := s.calls[c := s.calls[c].(stage := stage)])
  }

  /** Dropping senders that were still open. */
  function WithoutSenders(calls: seq<Call>, dropped: set<nat>): (r: seq<Call>)
    ensures |r| == |calls|
    ensures forall c :: 0 <= c < |r| ==>
              r[c] == if c in dropped then calls[c].(slot := Dropped) else calls[c]
  {
    seq(|calls|, c requires 0 <= c < |calls| =>
          if c in dropped then calls[c].(slot := Dropped) else calls[c])
  }

  function BeginCall(s: System): System {
    s.(next := s.next + 1, calls := s.calls + [Call(s.next, Numbered, Open, 0)])
  }

  function RegisterCall(s: System, c: nat): System
    requires c < |s.calls|
  {
    var k := s.calls[c];
    if s.table.closed then
      s.(calls := s.calls[c := k.(stage := Refused, slot := Dropped)])
    else
      var displaced := if k.id in s.table.waiting then {s.table.waiting[k.id]} else {};
      var calls := WithoutSenders(s.calls, displaced);
      s.(table := Inserted(s.table, k.id, c), calls := calls[c := k.(stage := Registered, since := |s.lines|)])
  }

  function QueueCall(s: System, c: nat): System
    requires c < |s.calls|
  {
    if s.writing then WithStage(s, c, Awaiting).(sent := s.sent + [s.calls[c].id]) else WithStage(s, c, Unsent)
  }

  function FinishCall(s: System, c: nat): System
    requires c < |s.calls|
  {
    match s.calls[c].slot
    case Open => s
    case Filled(envelope) => WithStage(s, c, Answered(envelope))
    case Dropped => WithStage(s, c, Cut)
  }

  function TakeLine(s: System, line: Line): System {
    var t := s.(lines := s.lines + [line]);
    match line
    case Noise => t
    case Reply(id, envelope) =>
      var held := t.(table := Removed(s.table, id));
      (match Waiter(s.table, id)
       case None => held
       case Some(c) => held.(reader := Handing(c, envelope)))
    case _ => if s.listening then t.(inbox := s.inbox + [Pushed(line)]) else t.(reader := Stopping)
  }

  /** Sending on a oneshot channel whose receiver is gone loses the value. */
  function HandedOver(s: System, c: nat, envelope: Json): System
    requires c < |s.calls|
  {
    var k := s.calls[c];
    s.(reader := Reading, calls := s.calls[c := k.(slot := if Receiving(k) then Filled(envelope) else Dropped)])
  }

  function ClearTable(s: System): System {
    s.(table := Emptied(s.table), calls := WithoutSenders(s.calls, s.table.waiting.Values), reader := Cleared)
  }

  predicate Enabled(s: System, a: Action) {
    match a
    case Begin => true
    case Register(c) => c < |s.calls| && s.calls[c].stage.Numbered?
    case Queue(c) => c < |s.calls| && s.calls[c].stage.Registered?
    case Finish(c) => c < |s.calls| && s.calls[c].stage.Awaiting? && !s.calls[c].slot.Open?
    case Abandon(c) => c < |s.calls| && s.calls[c].stage.Awaiting?
    case Take(_) => s.reader.Reading?
    case EndInput => s.reader.Reading?
    case HandOver => s.reader.Handing? && s.reader.call < |s.calls|
    case Clear => s.reader.Stopping?
    case Store => s.reader.Cleared?
    case Announce => s.reader.Stored?
    case DropInbox => s.listening
    case WriterFails => s.writing
  }

  function Effect(s: System, a: Action): System
    requires Enabled(s, a)
  {
    match a
    case Begin => BeginCall(s)
    case Register(c) => RegisterCall(s, c)
    case Queue(c) => QueueCall(s, c)
    case Finish(c) => FinishCall(s, c)
    case Abandon(c) => WithStage(s, c, Abandoned)
    case Take(line) => TakeLine(s, line)
    case EndInput => s.(reader := Stopping)
    case HandOver => HandedOver(s, s.reader.call, s.reader.envelope)
    case Clear => ClearTable(s)
    case Store => s.(ended := true, reader := Stored)
    case Announce => s.(reader := Done, inbox := if s.listening then s.inbox + [Closed] else s.inbox)
    case DropInbox => s.(listening := false)
    case WriterFails => s.(writing := false)
  }

  /** A step that is not enabled does not happen. */
  function Next(s: System, a: Action): System {
    if Enabled(s, a) then Effect(s, a) else s
  }

  /** Any interleaving of callers, reader and failures. */
  function Run(s: System, actions: seq<Action>): System
    decreases |actions|
  {
    if actions == [] then s else Next(Run(s, actions[..|actions| - 1]), actions[|actions| - 1])
  }

  // ---- what a run keeps ----

  /** The envelope of the first result for `id` among the lines from `since` on. */
  function FirstReply(lines: seq<Line>, since: nat, id: nat): Option<Json>
    decreases |lines|
  {
    if |lines| <= since then None
    else
      var earlier := FirstReply(lines[..|lines| - 1], since, id);
      var last := lines[|lines| - 1];
      if earlier.Some? then earlier
      else if last.Reply? && last.id == id then Some(last.envelope)
      else None
  }

  predicate InTable(s: System, c: nat) {
    c + 1 in s.table.waiting
  }

  predicate InHand(s: System, c: nat) {
    s.reader.Handing? && s.reader.call == c
  }

  /** The reader has closed the table. */
  predicate Shut(r: Reader) {
    r.Cleared? || r.Stored? || r.Done?
  }

  predicate WasRegistered(k: Call) {
    !k.stage.Numbered? && !k.stage.Refused?
  }

  /** Where the sender of a registered call is, and what the lines taken say about it. */
  predicate Tracked(s: System, c: nat)
    requires c < |s.calls|
  {
    var k := s.calls[c];
    var reply := FirstReply(s.lines, k.since, k.id);
    && k.since <= |s.lines|
    && (k.slot.Open? <==> InTable(s, c) || InHand(s, c))
    && (InTable(s, c) ==> reply.None? && !InHand(s, c))
    && (InHand(s, c) ==> reply == Some(s.reader.envelope))
    && (k.slot.Filled? ==> reply == Some(k.slot.envelope))
    && (k.slot.Dropped? && !k.stage.Unsent? && !k.stage.Abandoned? ==> reply.None? && s.table.closed)
    && (k.stage.Answered? ==> k.slot == Filled(k.stage.envelope))
    && (k.stage.Cut? ==> k.slot.Dropped?)
  }

  predicate Sound(s: System, c: nat)
    requires c < |s.calls|
  {
    var k := s.calls[c];
    && k.id == c + 1
    && (WasRegistered(k) ==> Tracked(s, c))
    && (!WasRegistered(k) ==> !InTable(s, c) && !InHand(s, c))
    && (k.stage.Numbered? ==> k.slot.Open?)
    && (k.stage.Refused? ==> k.slot.Dropped? && s.table.closed)
  }

  /** The pushed lines among the lines taken. */
  function Pushes(lines: seq<Line>): seq<Incoming>
    decreases |lines|
  {
    if lines == [] then []
    else
      var last := lines[|lines| - 1];
      Pushes(lines[..|lines| - 1]) + if last.Event? || last.Notice? then [Pushed(last)] else []
  }

  predicate TableSound(s: System) {
    && s.next == |s.calls| + 1
    && (forall id :: id in s.table.waiting ==> 1 <= id <= |s.calls| && s.table.waiting[id] == id - 1)
    && (s.table.closed <==> Shut(s.reader))
    && (s.table.closed ==> s.table.waiting == map[])
    && (s.ended <==> (s.reader.Stored? || s.reader.Done?))
    && (s.reader.Handing? ==> s.reader.call < |s.calls|)
  }

  /** The consumer has the pushed lines in order, up to one that found it gone, or all of them and then `Closed`. */
  predicate InboxSound(s: System) {
    var said := Pushes(s.lines);
    || (s.reader.Done? && s.inbox == said + [Closed])
    || (&& s.inbox <= said
        && |said| <= |s.inbox| + 1
        && (s.listening ==> s.inbox == said && !s.reader.Done?)
        && (s.inbox != said ==> s.reader.Stopping? || Shut(s.reader)))
  }

  predicate CallsSound(s: System) {
    forall c :: 0 <= c < |s.calls| ==> Sound(s, c)
  }

  /** A call past its queueing step has its message in the queue. */
  predicate WasQueued(k: Call) {
    k.stage.Awaiting? || k.stage.Cut? || k.stage.Answered? || k.stage.Abandoned?
  }

  /** An id in the queue is that of a queued call. */
  predicate SentAreQueued(calls: seq<Call>, sent: seq<nat>) {
    forall id :: id in sent ==> 1 <= id <= |calls| && WasQueued(calls[id - 1])
  }

  predicate QueuedAreSent(calls: seq<Call>, sent: seq<nat>) {
    forall c :: 0 <= c < |calls| && WasQueued(calls[c]) ==> calls[c].id in sent
  }

  predicate NoneTwice(sent: seq<nat>) {
    forall i, j :: 0 <= i < j < |sent| ==> sent[i] != sent[j]
  }

  /** Exactly the calls that got past their queueing step were sent, each once. */
  predicate SentSound(s: System) {
    SentAreQueued(s.calls, s.sent) && QueuedAreSent(s.calls, s.sent) && NoneTwice(s.sent)
  }

  predicate Healthy(s: System) {
    TableSound(s) && CallsSound(s) && InboxSound(s) && SentSound(s)
  }
}
