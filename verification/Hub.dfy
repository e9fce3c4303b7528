/**
  The WebSocket hub: one goroutine that adds and drops clients under the write lock, any number
  of broadcasts under the read lock, and the clients' buffered channels. Every access that
  another goroutine can come between is its own step.
 */
module Hub {
  import opened Common

  type Message = string

  /** A registered connection; id stands for the pointer. */
  datatype Client = Client(id: nat, serverID: string, capacity: nat)

  /** What a broadcast carries and to which server's clients, or to all. */
  datatype Cast = Cast(serverID: Option<string>, message: Message)

  predicate Addressed(cast: Cast, c: Client) {
    cast.serverID == None || cast.serverID == Some(c.serverID)
  }

  /** Where run() is; the Has states, Closing and Unlocking hold the write lock. */
  datatype Pc =
    | Idle
    | WantAdd(c: Client) | HasAdd(c: Client)
    | WantDrop(c: Client) | HasDrop(c: Client) | Closing(c: Client)
    | Unlocking
    | Relaying(b: nat)

  /** A broadcast in progress: the clients it has come to, and the one it is about to send to. */
  datatype Reader = Reader(seen: set<Client>, at: Option<Client>)

  /** For every client: the broadcasts that came to it, and which of them wait in its channel or were received. */
  datatype Books = Books(offered: map<Client, seq<nat>>, buffer: map<Client, seq<nat>>, received: map<Client, seq<nat>>)

  datatype Hub = Hub(
    pc: Pc,
    writing: bool,
    clients: set<Client>,
    closed: set<Client>,
    readers: map<nat, Reader>,
    sent: map<nat, Cast>,
    books: Books,
    panicked: bool)

  const START := Hub(Idle, false, {}, {}, map[], map[], Books(map[], map[], map[]), false)

  datatype Step =
    | AcceptAdd(c: Client)
    | AcceptDrop(c: Client)
    | Lock
    | Work
    | Unlock
    | Begin(b: nat, cast: Cast)
    | BeginRelay(b: nat, message: Message)
    | Pick(b: nat, c: Client)
    | Send(b: nat)
    | Finish(b: nat)
    | Receive(c: Client)

  function At(m: map<Client, seq<nat>>, c: Client): seq<nat> {
    if c in m then m[c] else []
  }

  predicate Enabled(s: Hub, e: Step) {
    !s.panicked &&
    match e
    case AcceptAdd(c) => s.pc.Idle?
    case AcceptDrop(c) => s.pc.Idle?
    case Lock => (s.pc.WantAdd? || s.pc.WantDrop?) && !s.writing && s.readers == map[]
    case Work => s.pc.HasAdd? || s.pc.HasDrop? || s.pc.Closing?
    case Unlock => s.pc.Unlocking?
    case Begin(b, cast) => !s.writing && b !in s.sent
    case BeginRelay(b, message) => s.pc.Idle? && !s.writing && b !in s.sent
    case Pick(b, c) => b in s.readers && s.readers[b].at == None && c in s.clients && c !in s.readers[b].seen && b in s.sent
    case Send(b) => b in s.readers && s.readers[b].at.Some?
    case Finish(b) => b in s.readers && s.readers[b].at == None && s.clients <= s.readers[b].seen
    case Receive(c) => At(s.books.buffer, c) != []
  }

  function Next(s: Hub, e: Step): Hub
    requires Enabled(s, e)
  {
    match e
    case AcceptAdd(c) => s.(pc := WantAdd(c))
    case AcceptDrop(c) => s.(pc := WantDrop(c))
    case Lock => s.(writing := true, pc := if s.pc.WantAdd? then HasAdd(s.pc.c) else HasDrop(s.pc.c))
    case Work => Worked(s)
    case Unlock => s.(writing := false, pc := Idle)
    case Begin(b, cast) => s.(readers := s.readers[b := Reader({}, None)], sent := s.sent[b := cast])
    case BeginRelay(b, message) =>
      s.(readers := s.readers[b := Reader({}, None)], sent := s.sent[b := Cast(None, message)], pc := Relaying(b))
    case Pick(b, c) =>
      var at := if Addressed(s.sent[b], c) then Some(c) else None;
      s.(readers := s.readers[b := Reader(s.readers[b].seen + {c}, at)])
    case Send(b) => Sent(s, b, s.readers[b].at.value)
    case Finish(b) => s.(readers := s.readers - {b}, pc := if s.pc == Relaying(b) then Idle else s.pc)
    case Receive(c) =>
      var (queue, taken) := (At(s.books.buffer, c), At(s.books.received, c));
      s.(books := s.books.(buffer := s.books.buffer[c := queue[1..]], received := s.books.received[c := taken + queue[..1]]))
  }

  /** One statement under the write lock. */
  function Worked(s: Hub): Hub {
    match s.pc
    case HasAdd(c) => s.(clients := s.clients + {c}, pc := Unlocking)
    case HasDrop(c) => if c in s.clients then s.(clients := s.clients - {c}, pc := Closing(c)) else s.(pc := Unlocking)
    case Closing(c) => if c in s.closed then s.(panicked := true) else s.(closed := s.closed + {c}, pc := Unlocking)
    case _ => s
  }

  /** The send with a default case: dropped when the buffer is full, a panic when the channel is closed. */
  function Sent(s: Hub, b: nat, c: Client): Hub
    requires b in s.readers
  {
    if c in s.closed then s.(panicked := true)
    else
      s.(readers := s.readers[b := s.readers[b].(at := None)], books := Offered(s.books, b, c))
  }

  /** A full channel leaves the broadcast out. */
  function Offered(books: Books, b: nat, c: Client): Books {
    var queue := At(books.buffer, c);
    books.(offered := books.offered[c := At(books.offered, c) + [b]],
           buffer := if |queue| < c.capacity then books.buffer[c := queue + [b]] else books.buffer)
  }

  /** The client that a step adds has not had its channel closed; a client registered once qualifies. */
  predicate AddsOpen(s: Hub, e: Step) {
    e == Work && s.pc.HasAdd? ==> s.pc.c !in s.closed
  }

  predicate Possible(s: Hub, run: seq<Step>)
    decreases |run|
  {
    run == [] || (Enabled(s, run[0]) && Possible(Next(s, run[0]), run[1..]))
  }

  function Exec(s: Hub, run: seq<Step>): Hub
    requires Possible(s, run)
    decreases |run|
  {
    if run == [] then s else Exec(Next(s, run[0]), run[1..])
  }

  /** An interleaving that adds only clients with open channels. */
  predicate Legal(s: Hub, run: seq<Step>)
    ensures Legal(s, run) ==> Possible(s, run)
    decreases |run|
  {
    run == [] || (Enabled(s, run[0]) && AddsOpen(s, run[0]) && Legal(Next(s, run[0]), run[1..]))
  }

  // ---------------------------------------------------------------- the lock

  predicate HoldsLock(pc: Pc) {
    pc.HasAdd? || pc.HasDrop? || pc.Closing? || pc.Unlocking?
  }

  ghost predicate Guarded(s: Hub) {
    && !s.panicked
    && s.clients !! s.closed
    && (s.writing <==> HoldsLock(s.pc))
    && (s.writing ==> s.readers == map[])
    && (s.pc.Closing? ==> s.pc.c !in s.closed && s.pc.c !in s.clients)
    && (s.pc.Relaying? ==> s.pc.b in s.readers)
    && (forall b | b in s.readers :: b in s.sent && s.readers[b].seen <= s.clients)
    && (forall b | b in s.readers && s.readers[b].at.Some? ::
          s.readers[b].at.value in s.readers[b].seen && Addressed(s.sent[b], s.readers[b].at.value))
  }

  /** No step of any goroutine sends on a closed channel or closes one twice. */
  lemma GuardedStep(s: Hub, e: Step)
    requires Guarded(s) && Enabled(s, e) && AddsOpen(s, e)
    ensures Guarded(Next(s, e))
  {
  }

  lemma {:induction false} NeverPanics(s: Hub, run: seq<Step>)
    requires Guarded(s) && Legal(s, run)
    ensures Guarded(Exec(s, run)) && !Exec(s, run).panicked
    decreases |run|
  {
    if run != [] {
      GuardedStep(s, run[0]);
      NeverPanics(Next(s, run[0]), run[1..]);
    }
  }

  /** No client is registered that has been registered before. */
  predicate FirstTimes(registered: set<Client>, run: seq<Step>)
    decreases |run|
  {
    run == [] ||
    ((run[0].AcceptAdd? ==> run[0].c !in registered) && FirstTimes(Grown(registered, run[0]), run[1..]))
  }

  ghost predicate Known(s: Hub, registered: set<Client>) {
    && s.clients <= registered && s.closed <= registered
    && (s.pc.WantAdd? || s.pc.HasAdd? ==> s.pc.c in registered && s.pc.c !in s.closed)
    && (s.pc.Closing? ==> s.pc.c in registered)
  }

  /** Every interleaving in which each client registers once is legal, so none of them panics. */
  lemma {:induction false} RegisteredOnceIsLegal(s: Hub, registered: set<Client>, run: seq<Step>)
    requires Guarded(s) && Known(s, registered) && Possible(s, run) && FirstTimes(registered, run)
    ensures Legal(s, run)
    decreases |run|
  {
    if run != [] {
      GuardedStep(s, run[0]);
      KnownStep(s, registered, run[0]);
      RegisteredOnceIsLegal(Next(s, run[0]), Grown(registered, run[0]), run[1..]);
    }
  }

  function Grown(registered: set<Client>, e: Step): set<Client> {
    if e.AcceptAdd? then registered + {e.c} else registered
  }

  lemma KnownStep(s: Hub, registered: set<Client>, e: Step)
    requires Guarded(s) && Known(s, registered) && Enabled(s, e)
    requires e.AcceptAdd? ==> e.c !in registered
    ensures AddsOpen(s, e) && Known(Next(s, e), Grown(registered, e))
  {
    match e
    case Work => assert s.pc.HasAdd? || s.pc.HasDrop? || s.pc.Closing?;
    case Send(b) => assert s.readers[b].at.value in s.clients;
    case AcceptAdd(c) =>
    case _ =>
  }

  /** While any broadcast runs, nobody joins or leaves and no channel is closed. */
  lemma MembersFixedWhileReading(s: Hub, e: Step)
    requires Guarded(s) && Enabled(s, e) && s.readers != map[]
    ensures Next(s, e).clients == s.clients && Next(s, e).closed == s.closed
  {
    assert !s.writing;
  }

  /** The clients that the hub or its current turn has to do with. */
  function Seen(s: Hub): set<Client> {
    s.clients + s.closed + if s.pc.HasAdd? then {s.pc.c} else {}
  }

  lemma OneStep(s: Hub, e: Step, rest: seq<Step>)
    requires Enabled(s, e) && Possible(Next(s, e), rest)
    ensures Possible(s, [e] + rest) && Exec(s, [e] + rest) == Exec(Next(s, e), rest)
  {
    assert ([e] + rest)[1..] == rest;
  }

  /** Add the client, unlock, and then remove it. */
  function AddThenDrop(c: Client): seq<Step> {
    [Work] + ([Unlock] + ([AcceptDrop(c)] + ([Lock] + ([Work] + ([Work] + [])))))
  }

  lemma AddingClosedPanics(s: Hub)
    requires Guarded(s) && s.pc.HasAdd? && s.pc.c in s.closed
    ensures Possible(s, AddThenDrop(s.pc.c)) && Exec(s, AddThenDrop(s.pc.c)).panicked
  {
    var c := s.pc.c;
    var s1 := Next(s, Work);
    var s2 := Next(s1, Unlock);
    var s3 := Next(s2, AcceptDrop(c));
    var s4 := Next(s3, Lock);
    var s5 := Next(s4, Work);
    assert c in s4.clients && s5.pc == Closing(c);
    OneStep(s5, Work, []);
    OneStep(s4, Work, [Work] + []);
    OneStep(s3, Lock, [Work] + ([Work] + []));
    OneStep(s2, AcceptDrop(c), [Lock] + ([Work] + ([Work] + [])));
    OneStep(s1, Unlock, [AcceptDrop(c)] + ([Lock] + ([Work] + ([Work] + []))));
    OneStep(s, Work, [Unlock] + ([AcceptDrop(c)] + ([Lock] + ([Work] + ([Work] + [])))));
  }

  lemma AddThenDropRegistersNobody(c: Client, registered: set<Client>)
    ensures FirstTimes(registered, AddThenDrop(c))
  {
    var run := AddThenDrop(c);
    var r1, r2, r3, r4, r5 := run[1..], run[1..][1..], run[1..][1..][1..], run[1..][1..][1..][1..], run[1..][1..][1..][1..][1..];
    assert r5 == [Work] && r5[1..] == [] && FirstTimes(registered, r5);
    assert r4[0] == Work && r3[0] == Lock && r2[0] == AcceptDrop(c) && r1[0] == Unlock;
    assert FirstTimes(registered, r4) && FirstTimes(registered, r3) && FirstTimes(registered, r2) && FirstTimes(registered, r1);
  }

  /**
    At the moment a client is about to be added, with only new clients registered from then on:
    no interleaving whatever ever panics if and only if that client's channel is still open.
   */
  lemma NoPanicAheadIff(s: Hub)
    requires Guarded(s) && s.pc.HasAdd?
    ensures (forall run | Possible(s, run) && FirstTimes(Seen(s), run) :: !Exec(s, run).panicked) <==>
            s.pc.c !in s.closed
  {
    if s.pc.c in s.closed {
      AddingClosedPanics(s);
      AddThenDropRegistersNobody(s.pc.c, Seen(s));
    } else {
      forall run | Possible(s, run) && FirstTimes(Seen(s), run) ensures !Exec(s, run).panicked {
        RegisteredOnceIsLegal(s, Seen(s), run);
        NeverPanics(s, run);
      }
    }
  }

  // ---------------------------------------------------------------- what a client receives

  predicate Once(q: seq<nat>) {
    forall i, j | 0 <= i < j < |q| :: q[i] != q[j]
  }

  /** sub is q with some elements left out. */
  predicate Subsequence(sub: seq<nat>, q: seq<nat>) {
    if sub == [] then true
    else q != [] && ((sub[|sub| - 1] == q[|q| - 1] && Subsequence(sub[..|sub| - 1], q[..|q| - 1])) || Subsequence(sub, q[..|q| - 1]))
  }

  function Delivered(books: Books, c: Client): seq<nat> {
    At(books.received, c) + At(books.buffer, c)
  }

  predicate Came(reader: Reader, cast: Cast, c: Client) {
    c in reader.seen && reader.at != Some(c) && Addressed(cast, c)
  }

  /** Which broadcasts have come to a client: from those in progress, exactly the ones that have passed it. */
  ghost predicate Tracked(s: Hub, c: Client) {
    && Once(At(s.books.offered, c))
    && (forall b | b in At(s.books.offered, c) :: b in s.sent && Addressed(s.sent[b], c))
    && (forall b | b in s.readers :: b in s.sent && (b in At(s.books.offered, c) <==> Came(s.readers[b], s.sent[b], c)))
  }

  /** What of them is in the channel or has been received. */
  ghost predicate Queued(books: Books, c: Client) {
    && |At(books.buffer, c)| <= c.capacity
    && Subsequence(Delivered(books, c), At(books.offered, c))
    && (|At(books.offered, c)| <= c.capacity ==> Delivered(books, c) == At(books.offered, c))
  }

  lemma SubsequenceGrows(sub: seq<nat>, q: seq<nat>, x: nat)
    requires Subsequence(sub, q)
    ensures Subsequence(sub, q + [x]) && Subsequence(sub + [x], q + [x])
  {
    assert (q + [x])[..|q|] == q && (sub + [x])[..|sub|] == sub;
  }

  lemma QueuedOffer(books: Books, b: nat, c: Client)
    requires Queued(books, c)
    ensures Queued(Offered(books, b, c), c)
  {
    var q, sub, after := At(books.offered, c), Delivered(books, c), Offered(books, b, c);
    assert At(after.offered, c) == q + [b];
    SubsequenceGrows(sub, q, b);
    if |At(books.buffer, c)| < c.capacity {
      assert Delivered(after, c) == At(books.received, c) + (At(books.buffer, c) + [b]) == sub + [b];
    } else {
      assert Delivered(after, c) == sub;
      assert |q| + 1 > c.capacity by {
        assert |sub| >= c.capacity;
        SubsequenceShorter(sub, q);
      }
    }
  }

  lemma {:induction false} SubsequenceShorter(sub: seq<nat>, q: seq<nat>)
    requires Subsequence(sub, q)
    ensures |sub| <= |q|
    decreases |q|
  {
    if sub != [] {
      if Subsequence(sub, q[..|q| - 1]) {
        SubsequenceShorter(sub, q[..|q| - 1]);
      } else {
        SubsequenceShorter(sub[..|sub| - 1], q[..|q| - 1]);
      }
    }
  }

  lemma QueuedReceive(s: Hub, d: Client, c: Client)
    requires Enabled(s, Receive(d)) && Queued(s.books, c)
    ensures Queued(Next(s, Receive(d)).books, c)
  {
    var t := Next(s, Receive(d));
    if d == c {
      var queue := At(s.books.buffer, c);
      assert queue == queue[..1] + queue[1..];
      assert Delivered(t.books, c) == Delivered(s.books, c);
    } else {
      assert At(t.books.buffer, c) == At(s.books.buffer, c) && At(t.books.received, c) == At(s.books.received, c);
    }
  }

  lemma QueuedSend(s: Hub, b: nat, c: Client)
    requires Enabled(s, Send(b)) && Queued(s.books, c)
    ensures Queued(Next(s, Send(b)).books, c)
  {
    var d := s.readers[b].at.value;
    if d == c {
      QueuedOffer(s.books, b, c);
    } else {
      assert At(Offered(s.books, b, d).buffer, c) == At(s.books.buffer, c);
      assert At(Offered(s.books, b, d).offered, c) == At(s.books.offered, c);
    }
  }

  lemma OthersKeepBooks(s: Hub, e: Step)
    requires Enabled(s, e) && !e.Send? && !e.Receive?
    ensures Next(s, e).books == s.books
  {
  }

  lemma QueuedStep(s: Hub, e: Step, c: Client)
    requires Enabled(s, e) && Queued(s.books, c)
    ensures Queued(Next(s, e).books, c)
  {
    match e {
      case Send(b) => QueuedSend(s, b, c);
      case Receive(d) => QueuedReceive(s, d, c);
      case _ => OthersKeepBooks(s, e);
    }
  }

  lemma TrackedSend(s: Hub, b: nat, c: Client)
    requires Guarded(s) && Enabled(s, Send(b)) && Tracked(s, c)
    ensures Tracked(Next(s, Send(b)), c)
  {
    var t := Next(s, Send(b));
    var d := s.readers[b].at.value;
    assert d in s.clients;
    assert t.readers == s.readers[b := Reader(s.readers[b].seen, None)] && t.sent == s.sent;
    if d == c {
      assert At(t.books.offered, c) == At(s.books.offered, c) + [b];
      assert b !in At(s.books.offered, c);
    } else {
      assert At(t.books.offered, c) == At(s.books.offered, c);
    }
    forall x | x in t.readers
      ensures x in t.sent && (x in At(t.books.offered, c) <==> Came(t.readers[x], t.sent[x], c))
    {
      assert x in s.readers;
    }
  }

  lemma TrackedReaders(s: Hub, e: Step, c: Client)
    requires Guarded(s) && Enabled(s, e) && Tracked(s, c)
    requires e.Begin? || e.BeginRelay? || e.Pick? || e.Finish?
    ensures Tracked(Next(s, e), c)
  {
    var t := Next(s, e);
    assert t.books == s.books;
    forall x | x in t.readers
      ensures x in t.sent && (x in At(t.books.offered, c) <==> Came(t.readers[x], t.sent[x], c))
    {
      if x != e.b {
        assert x in s.readers && t.readers[x] == s.readers[x] && t.sent[x] == s.sent[x];
      }
    }
  }

  lemma TrackedStep(s: Hub, e: Step, c: Client)
    requires Guarded(s) && Enabled(s, e) && Tracked(s, c)
    ensures Tracked(Next(s, e), c)
  {
    match e {
      case Send(b) => TrackedSend(s, b, c);
      case Begin(_, _) => TrackedReaders(s, e, c);
      case BeginRelay(_, _) => TrackedReaders(s, e, c);
      case Pick(_, _) => TrackedReaders(s, e, c);
      case Finish(_) => TrackedReaders(s, e, c);
      case _ => assert Next(s, e).readers == s.readers && Next(s, e).sent == s.sent && Next(s, e).books.offered == s.books.offered;
    }
  }

  lemma {:induction false} BookedRun(s: Hub, run: seq<Step>, c: Client)
    requires Guarded(s) && Tracked(s, c) && Queued(s.books, c) && Legal(s, run)
    ensures Tracked(Exec(s, run), c) && Queued(Exec(s, run).books, c)
    decreases |run|
  {
    if run != [] {
      GuardedStep(s, run[0]);
      TrackedStep(s, run[0], c);
      QueuedStep(s, run[0], c);
      BookedRun(Next(s, run[0]), run[1..], c);
    }
  }

  /**
    In every interleaving from the start, what a client has received, with what still waits in
    its channel, is a subsequence of the broadcasts that came to it; each came at most once and
    was addressed to it; at most its capacity waits; and while no more have come than its
    capacity, none is missing.
   */
  lemma ReceivesSubsequence(run: seq<Step>, c: Client)
    requires Legal(START, run)
    ensures var s := Exec(START, run);
            && !s.panicked
            && Subsequence(Delivered(s.books, c), At(s.books.offered, c)) && Once(At(s.books.offered, c))
            && (forall b | b in At(s.books.offered, c) ::
                  b in s.sent && (s.sent[b].serverID == None || s.sent[b].serverID == Some(c.serverID)))
            && |At(s.books.buffer, c)| <= c.capacity
            && (|At(s.books.offered, c)| <= c.capacity ==> Delivered(s.books, c) == At(s.books.offered, c))
  {
    NeverPanics(START, run);
    BookedRun(START, run, c);
  }

  /** A broadcast that can finish has come to exactly the registered clients that it is addressed to. */
  lemma BroadcastCameToAll(run: seq<Step>, b: nat, c: Client)
    requires Legal(START, run) && Enabled(Exec(START, run), Finish(b)) && c in Exec(START, run).clients
    ensures var s := Exec(START, run);
            && b in s.sent
            && (b in At(s.books.offered, c) <==> s.sent[b].serverID == None || s.sent[b].serverID == Some(c.serverID))
  {
    NeverPanics(START, run);
    BookedRun(START, run, c);
  }

  // ---------------------------------------------------------------- the hub as an object

  /** A connection's channel. */
  class Connection {
    const serverID: string
    const capacity: nat
    var queue: seq<Message>
    var open: bool

    constructor (serverID: string, capacity: nat)
      ensures this.serverID == serverID && this.capacity == capacity && queue == [] && open
    {
      this.serverID, this.capacity, queue, open := serverID, capacity, [], true;
    }

    /** The guarded send: never blocks. */
    method Offer(message: Message)
      requires open
      modifies this`queue
      ensures queue == if |old(queue)| < capacity then old(queue) + [message] else old(queue)
    {
      if |queue| < capacity {
        queue := queue + [message];
      }
    }

    method Close()
      requires open
      modifies this`open
      ensures !open
    {
      open := false;
    }
  }

  class Manager {
    var clients: set<Connection>

    ghost predicate Valid()
      reads this, clients
    {
      forall c | c in clients :: c.open
    }

    constructor ()
      ensures Valid() && clients == {}
    {
      clients := {};
    }

    method Add(client: Connection)
      requires Valid() && client.open
      modifies this
      ensures Valid() && clients == old(clients) + {client}
    {
      clients := clients + {client};
    }

    /** Unregistering twice, or without having registered, closes nothing. */
    method Drop(client: Connection)
      requires Valid()
      modifies this, client
      ensures Valid() && clients == old(clients) - {client}
      ensures client.open == (old(client.open) && client !in old(clients))
      ensures client.queue == old(client.queue)
    {
      if client in clients {
        clients := clients - {client};
        client.Close();
      }
    }

    /** BroadcastToServer, or BroadcastToAll without a server; the clients come in any order. */
    method Broadcast(serverID: Option<string>, message: Message)
      requires Valid()
      modifies clients
      ensures Valid() && clients == old(clients)
      ensures forall c | c in clients ::
        c.queue == if (serverID == None || serverID == Some(c.serverID)) && |old(c.queue)| < c.capacity
                   then old(c.queue) + [message] else old(c.queue)
    {
      var rest := clients;
      while rest != {}
        invariant rest <= clients == old(clients) && Valid()
        invariant forall c | c in rest :: c.queue == old(c.queue)
        invariant forall c | c in clients - rest ::
          c.queue == if (serverID == None || serverID == Some(c.serverID)) && |old(c.queue)| < c.capacity
                     then old(c.queue) + [message] else old(c.queue)
        decreases |rest|
      {
        var client :| client in rest;
        if serverID == None || serverID == Some(client.serverID) {
          client.Offer(message);
        }
        rest := rest - {client};
      }
    }
  }
}
