/** Sequenced publication of tables between services: congress/dse2/data_service.py.  Messages
    may arrive late, more than once, in any order, or never. */
module PubSub {
  import opened Options
  import opened Datalog

  datatype Tuple = Tuple(fields: seq<Const>)

  type Table = set<Tuple>

  /** A whole table, or what to add to the one before and what to delete from it. */
  datatype Payload = Snapshot(rows: Table) | Difference(toAdd: Table, toDel: Table)

  datatype Msg = Msg(seqnum: nat, data: Payload)

  /** A table of a publisher, as a subscriber addresses it. */
  datatype Channel = Channel(publisher: Name, table: Name)

  type Queue = multiset<Msg>

  /** What a subscriber has for one channel: the number it has processed, the messages it keeps
      for later, and its copy of the table. */
  datatype Receiver = Receiver(seqnum: Option<nat>, queue: Queue, replica: Table)

  function Apply(replica: Table, data: Payload): Table {
    match data
    case Snapshot(rows) => rows
    case Difference(toAdd, toDel) => replica - toDel + toAdd
  }

  ghost function ApplyRun(replica: Table, run: seq<Msg>): Table
    decreases |run|
  {
    if run == [] then replica else ApplyRun(Apply(replica, run[0].data), run[1..])
  }

  // ----- draining the queue

  /** The order of the priority queue: by number, and differences before snapshots. */
  predicate Before(m: Msg, n: Msg) {
    m.seqnum < n.seqnum || (m.seqnum == n.seqnum && (m.data.Difference? || n.data.Snapshot?))
  }

  predicate First(queue: Queue, m: Msg) {
    m in queue && forall n :: n in queue ==> Before(m, n)
  }

  /** No message comes before the first: none with a lower number, and no difference with the same
      number before a snapshot. */
  lemma FirstIs(queue: Queue, m: Msg)
    ensures First(queue, m) <==> m in queue && forall n :: n in queue ==>
      m.seqnum <= n.seqnum && (m.seqnum == n.seqnum && m.data.Snapshot? ==> n.data.Snapshot?)
  {
  }

  /** Queued messages with the numbers after r, one of each, first in the order of the queue. */
  ghost predicate IsRun(queue: Queue, r: nat, run: seq<Msg>) {
    forall i :: 0 <= i < |run| ==>
      && run[i] in queue && run[i].seqnum == r + 1 + i
      && forall n :: n in queue && n.seqnum == run[i].seqnum ==> Before(run[i], n)
  }

  /** What is left of a queue above a number. */
  ghost predicate Above(queue: Queue, k: nat, left: Queue) {
    forall m :: left[m] == if m.seqnum > k then queue[m] else 0
  }

  ghost predicate HasNumber(queue: Queue, k: nat) {
    exists m :: m in queue && m.seqnum == k
  }

  ghost predicate Settled(b: Receiver, a: Receiver, r: nat, run: seq<Msg>) {
    && IsRun(b.queue, r, run)
    && !HasNumber(b.queue, r + |run| + 1)
    && a.seqnum == Some(r + |run|)
    && Above(b.queue, r + |run|, a.queue)
    && a.replica == ApplyRun(b.replica, run)
  }

  /** From b to a by taking messages off the queue while they are of use.  A queued difference
      numbered 0 counts as a reset. */
  ghost predicate Settles(b: Receiver, a: Receiver)
    requires b.seqnum.Some?
  {
    if HasNumber(b.queue, 0) then
      exists z :: z in b.queue && z.seqnum == 0 && a == Receiver(Some(0), multiset{}, Apply(b.replica, z.data))
    else
      exists run :: Settled(b, a, b.seqnum.value, run)
  }

  lemma SettlesEmpty(b: Receiver)
    requires b.seqnum.Some? && b.queue == multiset{}
    ensures Settles(b, b)
  {
    assert Settled(b, b, b.seqnum.value, []);
  }

  lemma SettlesReset(b: Receiver, a: Receiver, z: Msg)
    requires b.seqnum.Some? && z in b.queue && z.seqnum == 0
    requires a == Receiver(Some(0), multiset{}, Apply(b.replica, z.data))
    ensures Settles(b, a)
  {
  }

  lemma SettlesOld(b: Receiver, a: Receiver, m: Msg)
    requires b.seqnum.Some? && First(b.queue, m) && 0 < m.seqnum <= b.seqnum.value
    requires Settles(b.(queue := b.queue - multiset{m}), a)
    ensures Settles(b, a)
  {
    var c := b.(queue := b.queue - multiset{m});
    var run :| Settled(c, a, b.seqnum.value, run);
    RunWithOld(b.queue, b.seqnum.value, run, m);
    AboveOld(b.queue, b.seqnum.value + |run|, a.queue, m);
    hide IsRun, Above;
    assert Settled(b, a, b.seqnum.value, run);
  }

  lemma RunWithOld(queue: Queue, r: nat, run: seq<Msg>, m: Msg)
    requires IsRun(queue - multiset{m}, r, run) && m.seqnum <= r
    ensures IsRun(queue, r, run)
  {
    forall n: Msg | n in queue && n.seqnum > r
      ensures n in queue - multiset{m}
    {
    }
  }

  lemma AboveOld(queue: Queue, k: nat, left: Queue, m: Msg)
    requires Above(queue - multiset{m}, k, left) && m.seqnum <= k
    ensures Above(queue, k, left)
  {
  }

  lemma SettlesNext(b: Receiver, a: Receiver, m: Msg)
    requires b.seqnum.Some? && First(b.queue, m) && m.seqnum == b.seqnum.value + 1
    requires Settles(Receiver(Some(m.seqnum), b.queue - multiset{m}, Apply(b.replica, m.data)), a)
    ensures Settles(b, a)
  {
    var c := Receiver(Some(m.seqnum), b.queue - multiset{m}, Apply(b.replica, m.data));
    var run :| Settled(c, a, m.seqnum, run);
    var longer := [m] + run;
    assert longer[1..] == run;
    RunNext(b.queue, run, m);
    AboveOld(b.queue, m.seqnum + |run|, a.queue, m);
    hide IsRun, Above;
    assert Settled(b, a, b.seqnum.value, longer);
  }

  lemma RunNext(queue: Queue, run: seq<Msg>, m: Msg)
    requires First(queue, m) && m.seqnum > 0 && IsRun(queue - multiset{m}, m.seqnum, run)
    ensures IsRun(queue, m.seqnum - 1, [m] + run)
  {
    RunWithOld(queue, m.seqnum, run, m);
    var longer := [m] + run;
    forall i | 0 <= i < |longer|
      ensures longer[i] in queue && longer[i].seqnum == m.seqnum + i
      ensures forall n :: n in queue && n.seqnum == longer[i].seqnum ==> Before(longer[i], n)
    {
      if i > 0 {
        assert longer[i] == run[i - 1];
      }
    }
  }

  lemma SettlesLater(b: Receiver, m: Msg)
    requires b.seqnum.Some? && First(b.queue, m) && m.seqnum > b.seqnum.value + 1
    ensures Settles(b, b)
  {
    assert Settled(b, b, b.seqnum.value, []);
  }

  // ----- receiving

  /** From b to a on receiving a message, which may have no number. */
  ghost predicate Receives(b: Receiver, seqnum: Option<nat>, data: Payload, a: Receiver) {
    if seqnum.None? then a == b.(replica := Apply(b.replica, data))
    else
      var n := seqnum.value;
      if b.seqnum.None? then
        if data.Snapshot? then Settles(Receiver(seqnum, b.queue, Apply(b.replica, data)), a)
        else a == b.(queue := b.queue + multiset{Msg(n, data)})
      else if n == 0 then a == Receiver(Some(0), multiset{}, Apply(b.replica, data))
      else if n <= b.seqnum.value then Settles(b, a)
      else if n == b.seqnum.value + 1 then Settles(Receiver(seqnum, b.queue, Apply(b.replica, data)), a)
      else a == b.(queue := b.queue + multiset{Msg(n, data)})
  }

  /** A message without a number is processed at once, and changes nothing else. */
  lemma UnnumberedReceived(b: Receiver, data: Payload, a: Receiver)
    ensures Receives(b, None, data, a) <==>
      && a.seqnum == b.seqnum && a.queue == b.queue
      && a.replica == if data.Snapshot? then data.rows else (b.replica - data.toDel) + data.toAdd
  {
  }

  // ----- publishing

  /** What a publisher has for one table: the last number sent and the last data published. */
  datatype Outbox = Outbox(seqnum: Option<nat>, last: Option<Table>)

  function NextNumber(o: Outbox): nat {
    if o.seqnum.Some? then o.seqnum.value + 1 else 0
  }

  /** The message sent, if any, and the outbox afterwards. */
  function PublishDifference(o: Outbox, data: Table): (Option<Msg>, Outbox) {
    var before := if o.last.Some? then o.last.value else {};
    if data == before then (None, o.(last := Some(data)))
    else (Some(Msg(NextNumber(o), Difference(data - before, before - data))), Outbox(Some(NextNumber(o)), Some(data)))
  }

  /** The last data published are not refreshed. */
  function PublishSnapshot(o: Outbox, data: Table): (Option<Msg>, Outbox) {
    (Some(Msg(NextNumber(o), Snapshot(data))), o.(seqnum := Some(NextNumber(o))))
  }

  function Reply(o: Outbox, snapshot: Table): (Option<(nat, Table)>, Outbox) {
    if o.seqnum.None? then (Some((0, snapshot)), Outbox(Some(0), Some(snapshot)))
    else if o.last.None? then (None, o)
    else (Some((o.seqnum.value, o.last.value)), o)
  }

  /** What publishing does, told from the outbox before and after: each message has the next number.
      A snapshot is always sent, and leaves the last data alone.  A difference becomes the last
      data, is not sent iff there is none, and leads from the data before to the new data. */
  ghost predicate Published(b: Outbox, data: Table, useSnapshot: bool, msg: Option<Msg>, a: Outbox) {
    var before := if b.last.Some? then b.last.value else {};
    && (msg.Some? ==>
        && a.seqnum == Some(msg.value.seqnum)
        && msg.value.seqnum == if b.seqnum.Some? then b.seqnum.value + 1 else 0)
    && (msg.None? ==> a.seqnum == b.seqnum)
    && if useSnapshot then msg.Some? && msg.value.data == Snapshot(data) && a.last == b.last
      else
        && a.last == Some(data) && (msg.None? <==> data == before)
        && (msg.Some? ==>
            && msg.value.data.Difference? && msg.value.data.toDel <= before && msg.value.data.toAdd !! before
            && before - msg.value.data.toDel + msg.value.data.toAdd == data)
  }

  lemma DifferencePublishes(o: Outbox, data: Table)
    ensures var (msg, a) := PublishDifference(o, data); Published(o, data, false, msg, a)
  {
  }

  /** A new subscriber is told the current number and the last data; the first one makes the
      snapshot number 0.  There is no answer iff only snapshots have been published. */
  ghost predicate Replied(b: Outbox, snapshot: Table, r: Option<(nat, Table)>, a: Outbox) {
    && a == (if b.seqnum.None? then Outbox(Some(0), Some(snapshot)) else b)
    && (r.None? <==> b.seqnum.Some? && b.last.None?)
    && (r.Some? ==> Some(r.value.0) == a.seqnum && Some(r.value.1) == a.last)
  }

  class DataService {
    const serviceId: Name
    /** For each channel subscribed to: the messages kept for later, the number of the last
        message processed, and the copy of the table that processing keeps. */
    var msgQueues: map<Channel, Queue>
    var receiverSeqnums: map<Channel, nat>
    var replicas: map<Channel, Table>
    /** For each table published: the last number sent and the last data published. */
    var senderSeqnums: map<Name, nat>
    var lastPublishedData: map<Name, Table>

    constructor (serviceId: Name)
      ensures forall ch :: View(ch) == Receiver(None, multiset{}, {})
      ensures senderSeqnums == map[] && lastPublishedData == map[]
    {
      this.serviceId := serviceId;
      msgQueues := map[];
      receiverSeqnums := map[];
      replicas := map[];
      senderSeqnums := map[];
      lastPublishedData := map[];
    }

    /** What this service has for a channel. */
    ghost function View(ch: Channel): Receiver
      reads `msgQueues, `receiverSeqnums, `replicas
    {
      Receiver(
        if ch in receiverSeqnums then Some(receiverSeqnums[ch]) else None,
        if ch in msgQueues then msgQueues[ch] else multiset{},
        if ch in replicas then replicas[ch] else {})
    }

    // ----- publishing

    /** What this service has for a table that it publishes. */
    ghost function OutboxOf(table: Name): Outbox
      reads `senderSeqnums, `lastPublishedData
    {
      Outbox(
        if table in senderSeqnums then Some(senderSeqnums[table]) else None,
        if table in lastPublishedData then Some(lastPublishedData[table]) else None)
    }

    /** Send the data of a table, or only what has changed since the last time, if anything. */
    method Publish(table: Name, data: Table, useSnapshot: bool) returns (msg: Option<Msg>)
      modifies `senderSeqnums, `lastPublishedData
      ensures !useSnapshot ==> (msg, OutboxOf(table)) == PublishDifference(old(OutboxOf(table)), data)
      ensures useSnapshot ==> (msg, OutboxOf(table)) == PublishSnapshot(old(OutboxOf(table)), data)
      ensures Published(old(OutboxOf(table)), data, useSnapshot, msg, OutboxOf(table))
      ensures forall t :: t != table ==> OutboxOf(t) == old(OutboxOf(t))
    {
      DifferencePublishes(OutboxOf(table), data);
      var payload := Snapshot(data);
      if !useSnapshot {
        var toAdd, toDel := data, {};
        if table in lastPublishedData {
          toAdd := data - lastPublishedData[table];
          toDel := lastPublishedData[table] - data;
        }
        ghost var before := if table in lastPublishedData then lastPublishedData[table] else {};
        assert toAdd == data - before && toDel == before - data;
        assert toAdd == {} && toDel == {} <==> data == before by {
          SameTable(data, before);
        }
        lastPublishedData := lastPublishedData[table := data];
        if |toAdd| == 0 && |toDel| == 0 {
          return None;
        }
        payload := Difference(toAdd, toDel);
      }
      var seqnum := IncrementGetSeqnum(table);
      return Some(Msg(seqnum, payload));
    }

    method IncrementGetSeqnum(table: Name) returns (seqnum: nat)
      modifies `senderSeqnums
      ensures senderSeqnums == old(senderSeqnums)[table := seqnum] && seqnum == NextNumber(old(OutboxOf(table)))
    {
      seqnum := if table in senderSeqnums then senderSeqnums[table] + 1 else 0;
      senderSeqnums := senderSeqnums[table := seqnum];
    }

    /** The current number and data of a table, for a new subscriber.  None stands for the
        exception raised when the table has only been published by snapshots. */
    method GetLastPublishedDataWithSeqnum(table: Name, snapshot: Table) returns (r: Option<(nat, Table)>)
      modifies `senderSeqnums, `lastPublishedData
      ensures (r, OutboxOf(table)) == Reply(old(OutboxOf(table)), snapshot)
      ensures Replied(old(OutboxOf(table)), snapshot, r, OutboxOf(table))
      ensures forall t :: t != table ==> OutboxOf(t) == old(OutboxOf(t))
    {
      if table !in senderSeqnums {
        senderSeqnums := senderSeqnums[table := 0];
        lastPublishedData := lastPublishedData[table := snapshot];
      }
      if table !in lastPublishedData {
        return None;
      }
      return Some((senderSeqnums[table], lastPublishedData[table]));
    }

    // ----- subscribing

    method Unsubscribe(ch: Channel)
      modifies `msgQueues, `receiverSeqnums
      ensures View(ch) == Receiver(None, multiset{}, old(View(ch)).replica)
      ensures forall c :: c != ch ==> View(c) == old(View(c))
    {
      ClearMsgQueue(ch);
      ClearReceiverSeqnum(ch);
    }

    method ClearMsgQueue(ch: Channel)
      modifies `msgQueues
      ensures View(ch) == old(View(ch)).(queue := multiset{})
      ensures forall c :: c != ch ==> View(c) == old(View(c))
    {
      if ch in msgQueues {
        msgQueues := msgQueues - {ch};
      }
    }

    method ClearReceiverSeqnum(ch: Channel)
      modifies `receiverSeqnums
      ensures View(ch) == old(View(ch)).(seqnum := None)
      ensures forall c :: c != ch ==> View(c) == old(View(c))
    {
      if ch in receiverSeqnums {
        receiverSeqnums := receiverSeqnums - {ch};
      }
    }

    /** Process the data of a message: what the policy engine does with it. */
    method ReceiveData(ch: Channel, data: Payload)
      modifies `replicas
      ensures View(ch) == old(View(ch)).(replica := Apply(old(View(ch)).replica, data))
      ensures forall c :: c != ch ==> View(c) == old(View(c))
    {
      replicas := replicas[ch := Apply(if ch in replicas then replicas[ch] else {}, data)];
    }

    method SetSeqnum(ch: Channel, seqnum: nat)
      modifies `receiverSeqnums
      ensures View(ch) == old(View(ch)).(seqnum := Some(seqnum))
      ensures forall c :: c != ch ==> View(c) == old(View(c))
    {
      receiverSeqnums := receiverSeqnums[ch := seqnum];
    }

    method AddToMsgQueue(ch: Channel, msg: Msg)
      modifies `msgQueues
      ensures View(ch) == old(View(ch)).(queue := old(View(ch)).queue + multiset{msg})
      ensures forall c :: c != ch ==> View(c) == old(View(c))
    {
      if ch !in msgQueues {
        msgQueues := msgQueues[ch := multiset{}];
      }
      msgQueues := msgQueues[ch := msgQueues[ch] + multiset{msg}];
    }

    /** Take the first message off the queue, if there is a queue and it is not empty. */
    method GetNowait(ch: Channel) returns (msg: Option<Msg>)
      modifies `msgQueues
      ensures msg.None? ==> old(View(ch)).queue == multiset{} && View(ch) == old(View(ch))
      ensures msg.Some? ==> First(old(View(ch)).queue, msg.value)
      ensures msg.Some? ==> View(ch) == old(View(ch)).(queue := old(View(ch)).queue - multiset{msg.value})
      ensures forall c :: c != ch ==> View(c) == old(View(c))
    {
      if ch !in msgQueues || msgQueues[ch] == multiset{} {
        return None;
      }
      FirstExists(msgQueues[ch]);
      var m :| m in msgQueues[ch] && First(msgQueues[ch], m);
      msgQueues := msgQueues[ch := msgQueues[ch] - multiset{m}];
      return Some(m);
    }

    /** Process queued messages as far as they follow on. */
    method ProcessQueuedMsg(ch: Channel)
      requires View(ch).seqnum.Some?
      modifies `msgQueues, `receiverSeqnums, `replicas
      ensures Settles(old(View(ch)), View(ch))
      ensures forall c :: c != ch ==> View(c) == old(View(c))
      decreases |View(ch).queue|, 0
    {
      ghost var b := View(ch);
      var msg := GetNowait(ch);
      if msg.None? {
        SettlesEmpty(b);
        return;
      }
      var m := msg.value;
      ReceiveDataSequenced(ch, m.data, Some(m.seqnum));
      if m.seqnum == 0 {
        SettlesReset(b, View(ch), m);
      } else if m.seqnum <= b.seqnum.value {
        SettlesOld(b, View(ch), m);
      } else if m.seqnum == b.seqnum.value + 1 {
        SettlesNext(b, View(ch), m);
      } else {
        assert b.queue - multiset{m} + multiset{m} == b.queue;
        SettlesLater(b, m);
      }
    }

    method ReceiveDataSequenced(ch: Channel, data: Payload, seqnum: Option<nat>)
      modifies `msgQueues, `receiverSeqnums, `replicas
      ensures Receives(old(View(ch)), seqnum, data, View(ch))
      ensures forall c :: c != ch ==> View(c) == old(View(c))
      decreases |View(ch).queue|, 1
    {
      if seqnum.None? {
        ReceiveData(ch, data);
      } else if ch !in receiverSeqnums {
        if data.Snapshot? {
          SetSeqnum(ch, seqnum.value);
          ReceiveData(ch, data);
          ProcessQueuedMsg(ch);
        } else {
          AddToMsgQueue(ch, Msg(seqnum.value, data));
        }
      } else if seqnum.value == 0 {
        SetSeqnum(ch, seqnum.value);
        ClearMsgQueue(ch);
        ReceiveData(ch, data);
      } else if seqnum.value <= receiverSeqnums[ch] {
        ProcessQueuedMsg(ch);
      } else if seqnum.value == receiverSeqnums[ch] + 1 {
        SetSeqnum(ch, seqnum.value);
        ReceiveData(ch, data);
        ProcessQueuedMsg(ch);
      } else {
        AddToMsgQueue(ch, Msg(seqnum.value, data));
      }
    }
  }

  lemma {:induction false} FirstExists(queue: Queue)
    requires queue != multiset{}
    ensures exists m :: First(queue, m)
    decreases |queue|
  {
    var m :| m in queue;
    var rest := queue - multiset{m};
    assert queue == rest + multiset{m};
    if rest == multiset{} {
      assert First(queue, m);
    } else {
      FirstExists(rest);
      var n :| First(rest, n);
      FirstMore(rest, m, n);
    }
  }

  lemma FirstMore(rest: Queue, m: Msg, n: Msg)
    requires First(rest, n)
    ensures First(rest + multiset{m}, if Before(m, n) then m else n)
  {
  }

  lemma SameTable(a: Table, b: Table)
    ensures a - b == {} && b - a == {} <==> a == b
  {
    if a - b == {} && b - a == {} {
      forall r
        ensures r in a <==> r in b
      {
        assert r !in a - b && r !in b - a;
      }
    }
  }

  // ----- the system: one table, its publisher, a network and a subscriber

  /** history[n] is the table that the publisher published under number n. */
  datatype Net = Net(outbox: Outbox, history: seq<Table>, sent: set<Msg>, receiver: Receiver)

  datatype Action = Publish(data: Table) | Subscribe(snapshot: Table) | Deliver(msg: Msg) | Unsubscribe

  const START := Net(Outbox(None, None), [], {}, Receiver(None, multiset{}, {}))

  /** Publishing by differences; answering a new subscriber, whose snapshot travels like any
      message; delivering a message sent at some time; and unsubscribing. */
  ghost predicate NetStep(b: Net, action: Action, a: Net) {
    match action
    case Publish(data) =>
      var (msg, outbox) := PublishDifference(b.outbox, data);
      a == if msg.None? then b.(outbox := outbox)
        else b.(outbox := outbox, history := b.history + [data], sent := b.sent + {msg.value})
    case Subscribe(snapshot) =>
      var (answer, outbox) := Reply(b.outbox, snapshot);
      answer.Some?
      && a == b.(outbox := outbox, history := if b.history == [] then [snapshot] else b.history,
          sent := b.sent + {Msg(answer.value.0, Snapshot(answer.value.1))})
    case Deliver(msg) =>
      && msg in b.sent
      && a == b.(receiver := a.receiver) && Receives(b.receiver, Some(msg.seqnum), msg.data, a.receiver)
    case Unsubscribe =>
      a == b.(receiver := Receiver(None, multiset{}, b.receiver.replica))
  }

  ghost predicate Run(nets: seq<Net>, actions: seq<Action>) {
    && |nets| == |actions| + 1
    && nets[0] == START
    && forall i :: 0 <= i < |actions| ==> NetStep(nets[i], actions[i], nets[i + 1])
  }

  /** The one kind of message that breaks the protocol: the publisher's first, if it published
      before anyone asked. */
  predicate DifferenceZero(m: Msg) {
    m.seqnum == 0 && m.data.Difference?
  }

  /** A message says what the history says. */
  ghost predicate Honest(history: seq<Table>, m: Msg) {
    && m.seqnum < |history|
    && match m.data
      case Snapshot(rows) => rows == history[m.seqnum]
      case Difference(toAdd, toDel) =>
        var before := if m.seqnum == 0 then {} else history[m.seqnum - 1];
        toAdd == history[m.seqnum] - before && toDel == before - history[m.seqnum]
  }

  ghost predicate InStep(o: Outbox, history: seq<Table>) {
    if o.seqnum.None? then history == [] && (o.last == None || o.last == Some({}))
    else |history| == o.seqnum.value + 1 && o.last == Some(history[o.seqnum.value])
  }

  /** Nothing in the queue is of use yet. */
  ghost predicate Resting(v: Receiver) {
    v.seqnum.Some? ==> forall m :: m in v.queue ==> m.seqnum > v.seqnum.value + 1
  }

  /** A subscriber's copy is the table published under its number. */
  ghost predicate Faithful(history: seq<Table>, v: Receiver) {
    v.seqnum.Some? ==> v.seqnum.value < |history| && v.replica == history[v.seqnum.value]
  }

  ghost predicate SafeReceiver(history: seq<Table>, v: Receiver) {
    && (forall m :: m in v.queue ==> Honest(history, m) && !DifferenceZero(m))
    && (v.seqnum.None? ==> forall m :: m in v.queue ==> m.data.Difference?)
    && Resting(v) && Faithful(history, v)
  }

  ghost predicate Safe(net: Net) {
    && InStep(net.outbox, net.history)
    && (forall m :: m in net.sent ==> Honest(net.history, m))
    && SafeReceiver(net.history, net.receiver)
  }

  lemma HonestApply(history: seq<Table>, m: Msg)
    requires Honest(history, m) && !DifferenceZero(m)
    ensures m.data.Snapshot? || m.seqnum > 0
    ensures Apply(if m.seqnum > 0 then history[m.seqnum - 1] else {}, m.data) == history[m.seqnum]
  {
  }

  lemma {:induction false} HonestRun(history: seq<Table>, queue: Queue, r: nat, run: seq<Msg>)
    requires r < |history| && IsRun(queue, r, run)
    requires forall m :: m in queue ==> Honest(history, m) && !DifferenceZero(m)
    ensures r + |run| < |history| && ApplyRun(history[r], run) == history[r + |run|]
    decreases |run|
  {
    if run != [] {
      HonestApply(history, run[0]);
      forall i | 0 <= i < |run[1..]|
        ensures run[1..][i] in queue && run[1..][i].seqnum == r + 1 + 1 + i
        ensures forall n :: n in queue && n.seqnum == run[1..][i].seqnum ==> Before(run[1..][i], n)
      {
        assert run[1..][i] == run[i + 1];
      }
      HonestRun(history, queue, r + 1, run[1..]);
    }
  }

  /** Draining a queue of honest messages leads from a faithful copy to a faithful copy, and
      leaves nothing of use in the queue. */
  lemma SettlesFaithful(history: seq<Table>, b: Receiver, a: Receiver)
    requires b.seqnum.Some? && Settles(b, a) && Faithful(history, b)
    requires forall m :: m in b.queue ==> Honest(history, m) && m.seqnum > 0
    ensures a.seqnum.Some? && Faithful(history, a) && Resting(a)
    ensures forall m :: m in a.queue ==> m in b.queue
  {
    var r := b.seqnum.value;
    var run :| Settled(b, a, r, run);
    HonestRun(history, b.queue, r, run);
    forall m | m in a.queue
      ensures m in b.queue && m.seqnum > r + |run| + 1
    {
      assert a.queue[m] == if m.seqnum > r + |run| then b.queue[m] else 0;
    }
  }

  // ----- safety over every run

  lemma PublishSafe(b: Net, data: Table, a: Net)
    requires Safe(b) && NetStep(b, Action.Publish(data), a)
    ensures Safe(a)
  {
    var (msg, outbox) := PublishDifference(b.outbox, data);
    if msg.Some? {
      var m := msg.value;
      assert forall k :: 0 <= k < |b.history| ==> a.history[k] == b.history[k];
      assert Honest(a.history, m);
    }
  }

  /** What is published is what the history goes on with, if anything has changed. */
  lemma PublishRecords(b: Net, data: Table, a: Net)
    requires InStep(b.outbox, b.history) && NetStep(b, Action.Publish(data), a)
    ensures InStep(a.outbox, a.history)
    ensures b.history == [] && data == {} ==> a.history == []
    ensures b.history != [] || data != {} ==> a.history != [] && a.history[|a.history| - 1] == data
    ensures a.history == b.history || a.history == b.history + [data]
  {
    DifferencePublishes(b.outbox, data);
  }

  /** Every subscription is answered with the last number and table. */
  lemma SubscribeAnswers(b: Net, snapshot: Table)
    requires InStep(b.outbox, b.history)
    ensures var h := if b.history == [] then [snapshot] else b.history;
      && Reply(b.outbox, snapshot).0 == Some((|h| - 1, h[|h| - 1]))
      && NetStep(b, Subscribe(snapshot), Net(Reply(b.outbox, snapshot).1, h,
        b.sent + {Msg(|h| - 1, Snapshot(h[|h| - 1]))}, b.receiver))
  {
  }

  lemma {:induction false} OutboxInStep(nets: seq<Net>, actions: seq<Action>, k: nat)
    requires Run(nets, actions) && k < |nets|
    ensures InStep(nets[k].outbox, nets[k].history)
    decreases k
  {
    if k > 0 {
      OutboxInStep(nets, actions, k - 1);
      assert NetStep(nets[k - 1], actions[k - 1], nets[k]);
      if actions[k - 1].Publish? {
        PublishRecords(nets[k - 1], actions[k - 1].data, nets[k]);
      }
    }
  }

  /** Until something else is published the history ends in the data published last, unless
      nothing has been published or asked for but no rows. */
  lemma {:induction false} HistoryEnds(nets: seq<Net>, actions: seq<Action>, i: nat, k: nat)
    requires Run(nets, actions) && i < k < |nets| && actions[i].Publish?
    requires forall j :: i < j < k ==> !actions[j].Publish?
    requires nets[i].history != [] || actions[i].data != {}
    ensures var h := nets[k].history; h != [] && h[|h| - 1] == actions[i].data
    decreases k
  {
    OutboxInStep(nets, actions, i);
    if k == i + 1 {
      PublishRecords(nets[i], actions[i].data, nets[k]);
    } else {
      HistoryEnds(nets, actions, i, k - 1);
      assert NetStep(nets[k - 1], actions[k - 1], nets[k]);
    }
  }

  lemma SubscribeSafe(b: Net, snapshot: Table, a: Net)
    requires Safe(b) && NetStep(b, Subscribe(snapshot), a)
    ensures Safe(a)
  {
  }

  lemma ReceiveSafe(history: seq<Table>, v: Receiver, msg: Msg, w: Receiver)
    requires SafeReceiver(history, v) && Receives(v, Some(msg.seqnum), msg.data, w)
    requires Honest(history, msg) && !DifferenceZero(msg)
    ensures SafeReceiver(history, w)
  {
    HonestApply(history, msg);
    var taken := Receiver(Some(msg.seqnum), v.queue, Apply(v.replica, msg.data));
    if v.seqnum.None? {
      if msg.data.Snapshot? {
        SettlesFaithful(history, taken, w);
      } else {
        assert w.queue == v.queue + multiset{msg};
      }
    } else if msg.seqnum == 0 {
    } else if msg.seqnum <= v.seqnum.value {
      SettlesFaithful(history, v, w);
    } else if msg.seqnum == v.seqnum.value + 1 {
      SettlesFaithful(history, taken, w);
    } else {
      assert w.queue == v.queue + multiset{msg};
    }
  }

  lemma StepSafe(b: Net, action: Action, a: Net)
    requires Safe(b) && NetStep(b, action, a)
    requires action.Deliver? ==> !DifferenceZero(action.msg)
    ensures Safe(a)
  {
    match action
    case Publish(data) => PublishSafe(b, data, a);
    case Subscribe(snapshot) => SubscribeSafe(b, snapshot, a);
    case Deliver(msg) => ReceiveSafe(b.history, b.receiver, msg, a.receiver);
    case Unsubscribe =>
  }

  /** Whatever is published, lost, repeated or reordered, and however often the subscriber comes
      and goes: as long as no difference numbered 0 is delivered, a subscriber that holds number
      r has the r-th table published, and nothing it has queued is of use. */
  lemma {:induction false} RunSafe(nets: seq<Net>, actions: seq<Action>, k: nat)
    requires Run(nets, actions) && k < |nets|
    requires forall i :: 0 <= i < |actions| && actions[i].Deliver? ==> !DifferenceZero(actions[i].msg)
    ensures Safe(nets[k])
    ensures var v := nets[k].receiver;
      v.seqnum.Some? ==> v.replica == nets[k].history[v.seqnum.value] && Resting(v)
    decreases k
  {
    if k > 0 {
      RunSafe(nets, actions, k - 1);
      StepSafe(nets[k - 1], actions[k - 1], nets[k]);
    }
  }

  /** A subscriber that holds the last number has the data published last. */
  lemma CaughtUp(nets: seq<Net>, actions: seq<Action>, i: nat, k: nat)
    requires Run(nets, actions) && i < k < |nets| && actions[i].Publish?
    requires forall j :: i < j < k ==> !actions[j].Publish?
    requires nets[i].history != [] || actions[i].data != {}
    requires forall j :: 0 <= j < |actions| && actions[j].Deliver? ==> !DifferenceZero(actions[j].msg)
    ensures nets[k].history != []
    ensures nets[k].receiver.seqnum == Some(|nets[k].history| - 1) ==> nets[k].receiver.replica == actions[i].data
  {
    RunSafe(nets, actions, k);
    HistoryEnds(nets, actions, i, k);
  }

  /** A difference numbered 0 resets the number but not the copy: the copy is right afterwards
      iff all that the subscriber had was published at first. */
  lemma DifferenceZeroExactly(b: Net, m: Msg, a: Net)
    requires Safe(b) && NetStep(b, Deliver(m), a) && DifferenceZero(m) && b.receiver.seqnum.Some?
    ensures a.receiver.seqnum == Some(0)
    ensures Faithful(a.history, a.receiver) <==> b.history[b.receiver.seqnum.value] <= b.history[0]
  {
    assert Honest(b.history, m);
    assert m.data.toAdd == b.history[0] - {} == b.history[0] && m.data.toDel == {} - b.history[0] == {};
    assert a.receiver.replica == b.receiver.replica + b.history[0];
    assert b.receiver.replica == b.history[b.receiver.seqnum.value];
  }

  /** The same when the difference had been queued before any snapshot came. */
  lemma QueuedDifferenceZeroExactly(b: Net, s: Msg, m: Msg, a: Net)
    requires InStep(b.outbox, b.history) && b.receiver.seqnum.None?
    requires forall n :: n in b.sent || n in b.receiver.queue ==> Honest(b.history, n)
    requires m in b.receiver.queue && DifferenceZero(m)
    requires forall n :: n in b.receiver.queue ==> n.data.Difference?
    requires NetStep(b, Deliver(s), a) && s.data.Snapshot?
    ensures a.receiver.seqnum == Some(0) && a.receiver.queue == multiset{} && s.seqnum < |b.history|
    ensures Faithful(a.history, a.receiver) <==> b.history[s.seqnum] <= b.history[0]
  {
    assert Honest(b.history, s) && Honest(b.history, m);
    var taken := Receiver(Some(s.seqnum), b.receiver.queue, Apply(b.receiver.replica, s.data));
    assert HasNumber(taken.queue, 0);
    var z :| z in taken.queue && z.seqnum == 0
      && a.receiver == Receiver(Some(0), multiset{}, Apply(taken.replica, z.data));
    assert Honest(b.history, z) && z.data.toAdd == b.history[0] && z.data.toDel == {};
    assert a.receiver.replica == b.history[s.seqnum] + b.history[0];
  }

  /** Such a run exists: two tables are published before anyone asks, and the first difference
      comes after the snapshot of the second. */
  lemma DifferenceZeroBreaks(x: Tuple, y: Tuple) returns (nets: seq<Net>, actions: seq<Action>)
    requires x != y
    ensures Run(nets, actions) && |nets| == 6
    ensures nets[5].receiver.seqnum == Some(0) && nets[5].history == [{x}, {y}] && nets[5].receiver.replica == {x, y}
  {
    var d0, d1, s1 := Msg(0, Difference({x}, {})), Msg(1, Difference({y}, {x})), Msg(1, Snapshot({y}));
    actions := [Action.Publish({x}), Action.Publish({y}), Subscribe({}), Deliver(s1), Deliver(d0)];
    var n1 := Net(Outbox(Some(0), Some({x})), [{x}], {d0}, START.receiver);
    var n2 := Net(Outbox(Some(1), Some({y})), [{x}, {y}], {d0, d1}, START.receiver);
    var n3 := n2.(sent := {d0, d1, s1});
    var n4 := n3.(receiver := Receiver(Some(1), multiset{}, {y}));
    var n5 := n4.(receiver := Receiver(Some(0), multiset{}, {x, y}));
    nets := [START, n1, n2, n3, n4, n5];
    assert {x} - {} == {x} && {} - {x} == {} && {y} - {x} == {y} && {x} - {y} == {x};
    assert NetStep(START, actions[0], n1);
    assert NetStep(n1, actions[1], n2);
    assert NetStep(n2, actions[2], n3);
    SettlesEmpty(n4.receiver);
    assert NetStep(n3, actions[3], n4);
    assert {y} - {} + {x} == {x, y};
    assert NetStep(n4, actions[4], n5);
  }

  // ----- only what was delivered counts, not the order

  /** A new subscriber's states while messages are delivered to it. */
  ghost predicate Deliveries(states: seq<Receiver>, msgs: seq<Msg>) {
    && |states| == |msgs| + 1
    && states[0].seqnum == None && states[0].queue == multiset{}
    && forall i :: 0 <= i < |msgs| ==> Receives(states[i], Some(msgs[i].seqnum), msgs[i].data, states[i + 1])
  }

  /** No delivery resets the subscriber: number 0 comes only as the snapshot that starts it. */
  ghost predicate NoReset(states: seq<Receiver>, msgs: seq<Msg>)
    requires |states| == |msgs| + 1
  {
    forall i :: 0 <= i < |msgs| && msgs[i].seqnum == 0 ==> msgs[i].data.Snapshot? && states[i].seqnum.None?
  }

  /** Every message delivered has been used, has become old, or waits for one that is missing. */
  ghost predicate Accounted(v: Receiver, msgs: seq<Msg>) {
    && (forall m :: m in v.queue ==> m in msgs && m.seqnum > 0)
    && Resting(v)
    && (v.seqnum.None? ==> forall m :: m in msgs ==> m.data.Difference? && m in v.queue)
    && (v.seqnum.Some? ==>
        && (forall m :: m in msgs ==> m.seqnum <= v.seqnum.value || m in v.queue)
        && (exists m :: m in msgs && m.seqnum == v.seqnum.value)
        && (exists m :: m in msgs && m.data.Snapshot? && m.seqnum <= v.seqnum.value))
  }

  lemma SettlesAccounted(b: Receiver, a: Receiver, msgs: seq<Msg>)
    requires b.seqnum.Some? && Settles(b, a)
    requires forall m :: m in b.queue ==> m in msgs && m.seqnum > 0
    requires forall m :: m in msgs ==> m.seqnum <= b.seqnum.value || m in b.queue
    requires exists m :: m in msgs && m.seqnum == b.seqnum.value
    requires exists m :: m in msgs && m.data.Snapshot? && m.seqnum <= b.seqnum.value
    ensures Accounted(a, msgs)
  {
    var r := b.seqnum.value;
    var run :| Settled(b, a, r, run);
    forall m | m in a.queue
      ensures m in b.queue && m.seqnum > r + |run| + 1
    {
      assert a.queue[m] == if m.seqnum > r + |run| then b.queue[m] else 0;
    }
    forall m | m in msgs
      ensures m.seqnum <= r + |run| || m in a.queue
    {
      assert a.queue[m] == if m.seqnum > r + |run| then b.queue[m] else 0;
    }
    if run != [] {
      assert run[|run| - 1] in b.queue;
    }
  }

  lemma ReceiveAccounted(b: Receiver, msgs: seq<Msg>, m: Msg, a: Receiver)
    requires Accounted(b, msgs) && Receives(b, Some(m.seqnum), m.data, a)
    requires m.seqnum == 0 ==> m.data.Snapshot? && b.seqnum.None?
    ensures Accounted(a, msgs + [m])
  {
    var more := msgs + [m];
    assert m in more && forall n :: n in more <==> n in msgs || n == m;
    var taken := Receiver(Some(m.seqnum), b.queue, Apply(b.replica, m.data));
    if b.seqnum.None? {
      if m.data.Snapshot? {
        SettlesAccounted(taken, a, more);
      } else {
        assert a.queue == b.queue + multiset{m};
      }
    } else if m.seqnum <= b.seqnum.value {
      SettlesAccounted(b, a, more);
    } else if m.seqnum == b.seqnum.value + 1 {
      SettlesAccounted(taken, a, more);
    } else {
      assert a.queue == b.queue + multiset{m};
    }
  }

  lemma {:induction false} AllAccounted(states: seq<Receiver>, msgs: seq<Msg>, k: nat)
    requires Deliveries(states, msgs) && NoReset(states, msgs) && k <= |msgs|
    ensures Accounted(states[k], msgs[..k])
    decreases k
  {
    if k > 0 {
      AllAccounted(states, msgs, k - 1);
      assert msgs[..k] == msgs[..k - 1] + [msgs[k - 1]];
      ReceiveAccounted(states[k - 1], msgs[..k - 1], msgs[k - 1], states[k]);
    }
  }

  lemma {:induction false} AllSafe(history: seq<Table>, states: seq<Receiver>, msgs: seq<Msg>, k: nat)
    requires Deliveries(states, msgs) && NoReset(states, msgs) && k <= |msgs|
    requires forall m :: m in msgs ==> Honest(history, m)
    ensures SafeReceiver(history, states[k])
    decreases k
  {
    if k > 0 {
      AllSafe(history, states, msgs, k - 1);
      assert msgs[k - 1] in msgs;
      ReceiveSafe(history, states[k - 1], msgs[k - 1], states[k]);
    }
  }

  ghost predicate Contains(msgs: seq<Msg>, k: nat) {
    exists m :: m in msgs && m.seqnum == k
  }

  /** The queue holds what has been delivered above the subscriber's number, as often as it has
      been delivered. */
  ghost predicate Counted(v: Receiver, msgs: Queue) {
    if v.seqnum.None? then v.queue == msgs else Above(msgs, v.seqnum.value, v.queue)
  }

  lemma SettlesCounted(b: Receiver, a: Receiver, msgs: Queue)
    requires b.seqnum.Some? && Settles(b, a) && !HasNumber(b.queue, 0)
    requires forall m: Msg :: m.seqnum > b.seqnum.value ==> b.queue[m] == msgs[m]
    ensures Counted(a, msgs)
  {
    var r := b.seqnum.value;
    var run :| Settled(b, a, r, run);
    forall m: Msg
      ensures a.queue[m] == if m.seqnum > r + |run| then msgs[m] else 0
    {
      assert a.queue[m] == if m.seqnum > r + |run| then b.queue[m] else 0;
    }
  }

  lemma ReceiveCounted(b: Receiver, msgs: Queue, m: Msg, a: Receiver)
    requires Counted(b, msgs) && !HasNumber(b.queue, 0) && Receives(b, Some(m.seqnum), m.data, a)
    requires m.seqnum == 0 ==> m.data.Snapshot? && b.seqnum.None?
    ensures Counted(a, msgs + multiset{m})
  {
    var more := msgs + multiset{m};
    var taken := Receiver(Some(m.seqnum), b.queue, Apply(b.replica, m.data));
    forall n: Msg | b.seqnum.Some?
      ensures b.queue[n] == if n.seqnum > b.seqnum.value then msgs[n] else 0
    {
    }
    if b.seqnum.None? {
      if m.data.Snapshot? {
        SettlesCounted(taken, a, more);
      }
    } else if m.seqnum <= b.seqnum.value {
      SettlesCounted(b, a, more);
    } else if m.seqnum == b.seqnum.value + 1 {
      SettlesCounted(taken, a, more);
    }
  }

  lemma {:induction false} AllCounted(states: seq<Receiver>, msgs: seq<Msg>, k: nat)
    requires Deliveries(states, msgs) && NoReset(states, msgs) && k <= |msgs|
    ensures Counted(states[k], multiset(msgs[..k]))
    decreases k
  {
    hide Receives;
    if k > 0 {
      hide Counted;
      AllCounted(states, msgs, k - 1);
      AllAccounted(states, msgs, k - 1);
      assert msgs[..k] == msgs[..k - 1] + [msgs[k - 1]];
      assert !HasNumber(states[k - 1].queue, 0);
      ReceiveCounted(states[k - 1], multiset(msgs[..k - 1]), msgs[k - 1], states[k]);
    }
  }

  /** Where a subscriber ends that has had a snapshot s, all numbers up to n, and none numbered
      n + 1: at n, and its queue holds exactly what else was delivered above n.  In whatever order
      things came and however often, if no snapshot lies before s or beyond the gap. */
  lemma ConvergesToGap(history: seq<Table>, states: seq<Receiver>, msgs: seq<Msg>, s: nat, n: nat)
    requires Deliveries(states, msgs) && NoReset(states, msgs)
    requires forall m :: m in msgs ==> Honest(history, m)
    requires exists m :: m in msgs && m.data.Snapshot? && m.seqnum == s
    requires forall m :: m in msgs && m.data.Snapshot? ==> s <= m.seqnum <= n
    requires (forall k :: s < k <= n ==> Contains(msgs, k)) && !Contains(msgs, n + 1)
    ensures var v := states[|msgs|];
      v.seqnum == Some(n) && Above(multiset(msgs), n, v.queue) && n < |history| && v.replica == history[n]
  {
    assert msgs[..|msgs|] == msgs;
    AllSafe(history, states, msgs, |msgs|);
    AllAccounted(states, msgs, |msgs|);
    AllCounted(states, msgs, |msgs|);
    NeverBeyondGap(states, msgs, s, n, |msgs|);
    var v := states[|msgs|];
    NextIsMissing(v, msgs);
    var r := v.seqnum.value;
    assert !(s < r + 1 <= n);
  }

  /** While number n + 1 is missing, a subscriber does not get past n. */
  lemma {:induction false} NeverBeyondGap(states: seq<Receiver>, msgs: seq<Msg>, s: nat, n: nat, k: nat)
    requires Deliveries(states, msgs) && NoReset(states, msgs) && k <= |msgs| && !Contains(msgs, n + 1)
    requires forall m :: m in msgs && m.data.Snapshot? ==> m.seqnum <= n
    ensures states[k].seqnum.Some? ==> states[k].seqnum.value <= n
    decreases k
  {
    if k > 0 {
      NeverBeyondGap(states, msgs, s, n, k - 1);
      AllAccounted(states, msgs, k - 1);
      assert msgs[k - 1] in msgs;
      forall m | m in states[k - 1].queue
        ensures m.seqnum != n + 1
      {
        assert m in msgs[..k - 1] && m in msgs;
      }
      NotPastGap(states[k - 1], msgs[k - 1], states[k], n);
    }
  }

  lemma NotPastGap(b: Receiver, m: Msg, a: Receiver, n: nat)
    requires Receives(b, Some(m.seqnum), m.data, a) && (b.seqnum.Some? ==> b.seqnum.value <= n)
    requires !HasNumber(b.queue, n + 1) && m.seqnum != n + 1 && (m.data.Snapshot? ==> m.seqnum <= n)
    ensures a.seqnum.Some? ==> a.seqnum.value <= n
  {
    var taken := Receiver(Some(m.seqnum), b.queue, Apply(b.replica, m.data));
    if b.seqnum.None? {
      if m.data.Snapshot? {
        SettlesBeforeGap(taken, a, n);
      }
    } else if m.seqnum == 0 {
    } else if m.seqnum <= b.seqnum.value {
      SettlesBeforeGap(b, a, n);
    } else if m.seqnum == b.seqnum.value + 1 {
      SettlesBeforeGap(taken, a, n);
    }
  }

  lemma SettlesBeforeGap(b: Receiver, a: Receiver, n: nat)
    requires b.seqnum.Some? && b.seqnum.value <= n && Settles(b, a) && !HasNumber(b.queue, n + 1)
    ensures a.seqnum.Some? && a.seqnum.value <= n
  {
    if !HasNumber(b.queue, 0) {
      var r := b.seqnum.value;
      var run :| Settled(b, a, r, run);
      if r + |run| > n {
        RunHas(b.queue, r, run, n - r);
      }
    }
  }

  lemma RunHas(queue: Queue, r: nat, run: seq<Msg>, i: nat)
    requires IsRun(queue, r, run) && i < |run|
    ensures HasNumber(queue, r + 1 + i)
  {
    assert run[i] in queue;
  }

  /** With nothing delivered above n the queue is drained. */
  lemma Converges(history: seq<Table>, states: seq<Receiver>, msgs: seq<Msg>, s: nat, n: nat)
    requires Deliveries(states, msgs) && NoReset(states, msgs)
    requires forall m :: m in msgs ==> Honest(history, m)
    requires exists m :: m in msgs && m.data.Snapshot? && m.seqnum == s
    requires forall m :: m in msgs ==> m.seqnum <= n && (m.data.Snapshot? ==> m.seqnum >= s)
    requires forall k :: s < k <= n ==> Contains(msgs, k)
    ensures var v := states[|msgs|];
      v.seqnum == Some(n) && v.queue == multiset{} && n < |history| && v.replica == history[n]
  {
    ConvergesToGap(history, states, msgs, s, n);
    var v := states[|msgs|];
    forall m: Msg
      ensures v.queue[m] == 0
    {
      assert v.queue[m] == if m.seqnum > n then multiset(msgs)[m] else 0;
    }
  }

  /** With a snapshot beyond a gap the order decides: after it the earlier snapshot is old, but
      before it the later one has to wait. */
  lemma OrderDecides(history: seq<Table>, s: nat, t: nat) returns (first: seq<Receiver>, last: seq<Receiver>)
    requires 0 < s && s + 1 < t < |history|
    ensures var early, late := Msg(s, Snapshot(history[s])), Msg(t, Snapshot(history[t]));
      && Honest(history, early) && Honest(history, late)
      && Deliveries(first, [early, late]) && NoReset(first, [early, late])
      && Deliveries(last, [late, early]) && NoReset(last, [late, early])
      && first[2].seqnum == Some(s) && last[2].seqnum == Some(t)
  {
    var early, late := Msg(s, Snapshot(history[s])), Msg(t, Snapshot(history[t]));
    var none := Receiver(None, multiset{}, {});
    var atS, atT := Receiver(Some(s), multiset{}, history[s]), Receiver(Some(t), multiset{}, history[t]);
    SettlesEmpty(atS);
    SettlesEmpty(atT);
    first := [none, atS, atS.(queue := multiset{late})];
    last := [none, atT, atT];
    assert atS.queue + multiset{late} == multiset{late};
  }

  lemma NextIsMissing(v: Receiver, msgs: seq<Msg>)
    requires Accounted(v, msgs) && v.seqnum.Some?
    ensures !Contains(msgs, v.seqnum.value + 1)
  {
  }

  lemma RunFromQueue(queue: Queue, r: nat, run: seq<Msg>)
    requires IsRun(queue, r, run) && run != []
    ensures queue != multiset{}
  {
    assert run[0] in queue;
  }

  /** A snapshot numbered 0 that comes to a subscriber with a number makes it forget all that
      came before: it is as if that snapshot were the first message ever. */
  lemma ResetForgets(b: Receiver, rows: Table, a: Receiver, fresh': Receiver, a': Receiver)
    requires b.seqnum.Some? && Receives(b, Some(0), Snapshot(rows), a)
    requires fresh'.seqnum.None? && fresh'.queue == multiset{} && Receives(fresh', Some(0), Snapshot(rows), a')
    ensures a == a'
  {
    var taken := Receiver(Some(0), fresh'.queue, rows);
    var run :| Settled(taken, a', 0, run);
    if run != [] {
      RunFromQueue(taken.queue, 0, run);
    }
    forall m: Msg
      ensures a'.queue[m] == 0
    {
      assert a'.queue[m] == if m.seqnum > 0 then taken.queue[m] else 0;
    }
  }
}
