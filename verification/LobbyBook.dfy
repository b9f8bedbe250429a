/** What the lobby server (server/live_server.py) does, event by event, and what its log says of
    whole runs: who may register an address, and what is relayed to whom. */
module LobbyBook {
  import opened LobbyMembers
  import opened Options

  type Byte = b: nat | b < 256
  type Bytes = seq<Byte>

  const LAST_CONSOLE_NUMBER: nat := 0xFFFE
  const NETWORK: nat := 0x0A4D_0000

  datatype Address = Address(host: string, port: nat)

  /** Limits a server operator sets; no password is the empty one. */
  datatype Settings = Settings(password: Bytes, maxConsoles: nat, maxSessions: nat, sessionsPerConsole: nat) {
    function MaxConnections(): nat { maxConsoles + 16 }
  }

  // ------------------------------------------------------------ bytes on the wire

  /** >I of four bytes. */
  function U32(data: Bytes, at: nat): nat
    requires at + 4 <= |data|
  {
    var a: nat, b: nat, c: nat, d: nat := data[at], data[at + 1], data[at + 2], data[at + 3];
    a * 0x100_0000 + b * 0x1_0000 + c * 0x100 + d
  }

  function IpOf(number: nat): nat {
    NETWORK + number
  }

  /** ip_bytes: 10.77.x.y. */
  function IpBytes(number: nat): Bytes
    requires number <= LAST_CONSOLE_NUMBER
  {
    [10, 77, number / 0x100, number % 0x100]
  }

  /** The four bytes of a source address name a console exactly when their value is its address. */
  lemma IpBytesName(data: Bytes, at: nat, number: nat)
    requires at + 4 <= |data| && number <= LAST_CONSOLE_NUMBER
    ensures data[at..at + 4] == IpBytes(number) <==> U32(data, at) == IpOf(number)
  {
    var four := data[at..at + 4];
    assert four == [four[0], four[1], four[2], four[3]];
    assert four[0] == data[at] && four[1] == data[at + 1] && four[2] == data[at + 2] && four[3] == data[at + 3];
  }

  // ------------------------------------------------------------ numbers

  /** Numbers tried after start, round and round. */
  function NumberAt(start: nat, k: nat): nat {
    if start + k <= LAST_CONSOLE_NUMBER then start + k else start + k - LAST_CONSOLE_NUMBER
  }

  lemma EveryNumberTried(start: nat, number: nat)
    requires 1 <= start <= LAST_CONSOLE_NUMBER && 1 <= number <= LAST_CONSOLE_NUMBER
    ensures exists k: nat :: k < LAST_CONSOLE_NUMBER && NumberAt(start, k) == number
  {
    var k: nat := if number >= start then number - start else number + LAST_CONSOLE_NUMBER - start;
    assert NumberAt(start, k) == number;
  }

  /** The number the next console gets: the first free one, round and round. */
  ghost predicate NextFree(next: nat, used: set<nat>, n: nat) {
    && 1 <= n <= LAST_CONSOLE_NUMBER && n !in used
    && exists k: nat :: n == NumberAt(next, k) && forall j: nat | j < k :: NumberAt(next, j) in used
  }

  lemma FreeInRange(next: nat, used: set<nat>, n: nat)
    requires NextFree(next, used, n)
    ensures 1 <= n <= LAST_CONSOLE_NUMBER && n !in used
  {
  }

  lemma OneNextFree(next: nat, used: set<nat>, m: nat, n: nat)
    requires NextFree(next, used, m) && NextFree(next, used, n)
    ensures m == n
  {
    var j: nat :| m == NumberAt(next, j) && forall i: nat | i < j :: NumberAt(next, i) in used;
    var k: nat :| n == NumberAt(next, k) && forall i: nat | i < k :: NumberAt(next, i) in used;
    assert j < k ==> NumberAt(next, j) in used;
    assert k < j ==> NumberAt(next, k) in used;
  }

  // ------------------------------------------------------------ requests

  datatype CreateArgs = CreateArgs(flags: int, open: int, closed: int, props: Bytes, contexts: Bytes) {
    /** slot_count and hex_bytes accept them. */
    predicate Fits() {
      0 <= open <= 64 && 0 <= closed <= 64 && |props| <= 4096 && |contexts| <= 1024
    }
  }

  /** Requests, with None for words that do not read as what they should be; hexadecimal words
      may have a sign. A session to be made has an id no other has. */
  datatype Request =
    | Create(args: Option<CreateArgs>, made: Bytes)
    | Search(limit: Option<int>)
    | Join(id: Option<Bytes>, slots: seq<Option<Slot>>)
    | Leave(id: Option<Bytes>, xuids: seq<Option<int>>)
    | Modify(id: Option<Bytes>, flags: Option<int>, open: int, closed: int)
    | SetState(id: Option<Bytes>, state: Option<string>)
    | Delete(id: Option<Bytes>)

  datatype Reply = Ok | Created(id: Bytes) | Found(ids: seq<Bytes>) | Error

  /** What can happen to a server. */
  datatype Event =
    | Opened(k: nat)
    | Password(k: nat, given: Bytes)
    | Greeting(k: nat, xuid: Option<int>, token: Bytes)
    | Asked(k: nat, request: Request)
    | Ended(k: nat)
    | Datagram(data: Bytes, address: Address)

  /** What came of an event: a connection taken, signed or closed; a console that arrived on one
      or left with it; a request answered; an address registered, with the token or without; a
      datagram relayed. */
  datatype Entry =
    | Connection(k: nat, signed: bool)
    | Signing(k: nat)
    | Closing(k: nat)
    | Arrival(k: nat, number: nat, xuid: int, token: Bytes)
    | Requested(k: nat, number: nat, request: Request, reply: Reply)
    | Departure(k: nat, number: nat)
    | Registration(number: nat, address: Address, full: bool)
    | Relay(data: Bytes, from: Address, to: Address)
    | Nothing

  // ------------------------------------------------------------ the book

  /** A live console: its player, its token, and whether a registration carried it. */
  datatype Credit = Credit(xuid: int, token: Bytes, used: bool)

  /** A session: its host's number, the words it was made with, its members and its state. */
  datatype Room = Room(host: nat, flags: int, open: int, closed: int, props: Bytes, contexts: Bytes,
                       members: map<int, bool>, state: string)

  /** A connection: its console's number, and whether it gave the password. */
  datatype Seat = Seat(console: Option<nat>, signed: bool)

  /** What a log leaves: the address each console registered last, the console each address
      leads to, the live consoles, the connections, where the search for a number starts, and
      the sessions with the order they were made in. */
  datatype Book = Book(udp: map<nat, Address>, holder: map<Address, nat>, live: map<nat, Credit>,
                       seats: map<nat, Seat>, next: nat, rooms: map<Bytes, Room>, order: seq<Bytes>)

  function Without(b: Book, n: nat): (r: Book)
    ensures r == b.(udp := r.udp, holder := r.holder)
  {
    b.(udp := b.udp - {n}, holder := map a | a in b.holder && b.holder[a] != n :: b.holder[a])
  }

  function Heard(b: Book, n: nat, a: Address): (r: Book)
    ensures r == b.(udp := r.udp, holder := r.holder)
  {
    if n in b.udp && b.udp[n] == a then b
    else
      var gone := if n in b.udp && b.udp[n] in b.holder && b.holder[b.udp[n]] == n then {b.udp[n]} else {};
      b.(udp := b.udp[n := a], holder := (b.holder - gone)[a := n])
  }

  function Used(b: Book, n: nat, full: bool): (r: Book)
    ensures r == b.(live := r.live)
  {
    if n in b.live then b.(live := b.live[n := b.live[n].(used := b.live[n].used || full)]) else b
  }

  function Signed(b: Book, k: nat): (r: Book)
    ensures r == b.(seats := r.seats)
  {
    if k in b.seats then b.(seats := b.seats[k := b.seats[k].(signed := true)]) else b
  }

  // ------------------------------------------------------------ what requests do

  /** The sessions a console hosts. */
  function Hosted(rooms: map<Bytes, Room>, n: nat): set<Bytes> {
    set id | id in rooms && rooms[id].host == n
  }

  /** Those of the ids that are kept. */
  function Kept(order: seq<Bytes>, kept: set<Bytes>): (ids: seq<Bytes>)
  {
    if order == [] then []
    else Kept(order[..|order| - 1], kept) + if order[|order| - 1] in kept then [order[|order| - 1]] else []
  }

  /** The ids of a set, each once, in the order they came. */
  ghost predicate OrderFits(order: seq<Bytes>, ids: set<Bytes>) {
    && (forall id :: id in order <==> id in ids)
    && forall i, j | 0 <= i < j < |order| :: order[i] != order[j]
  }

  ghost predicate Before(order: seq<Bytes>, one: Bytes, other: Bytes) {
    exists i, j :: 0 <= i < j < |order| && order[i] == one && order[j] == other
  }

  /** What is kept is in the same order. */
  lemma {:induction false} KeptOrder(order: seq<Bytes>, kept: set<Bytes>)
    ensures forall id :: id in Kept(order, kept) <==> id in order && id in kept
    ensures forall i, j | 0 <= i < j < |Kept(order, kept)| :: Before(order, Kept(order, kept)[i], Kept(order, kept)[j])
  {
    if order != [] {
      var before, last := order[..|order| - 1], order[|order| - 1];
      KeptOrder(before, kept);
      var ids := Kept(order, kept);
      forall i, j | 0 <= i < j < |ids| ensures Before(order, ids[i], ids[j]) {
        if j < |Kept(before, kept)| {
          assert ids[i] == Kept(before, kept)[i] && ids[j] == Kept(before, kept)[j];
          var a, b :| 0 <= a < b < |before| && before[a] == ids[i] && before[b] == ids[j];
          assert order[a] == ids[i] && order[b] == ids[j];
        } else {
          assert ids[i] in Kept(before, kept) && ids[i] in before;
          var a :| 0 <= a < |before| && before[a] == ids[i];
          assert order[a] == ids[i] && order[|order| - 1] == ids[j];
        }
      }
    }
  }

  lemma KeptFits(order: seq<Bytes>, ids: set<Bytes>, kept: set<Bytes>)
    requires OrderFits(order, ids) && kept <= ids
    ensures OrderFits(Kept(order, kept), kept) && |Kept(order, kept)| == |kept|
  {
    KeptOrder(order, kept);
    var some := Kept(order, kept);
    forall i, j | 0 <= i < j < |some| ensures some[i] != some[j] {
      assert Before(order, some[i], some[j]);
    }
    OnceEach(some, kept);
  }

  lemma {:induction false} OnceEach(order: seq<Bytes>, ids: set<Bytes>)
    requires OrderFits(order, ids)
    ensures |order| == |ids|
  {
    if order != [] {
      var last := order[|order| - 1];
      var before := order[..|order| - 1];
      assert OrderFits(before, ids - {last}) by {
        forall id ensures id in before <==> id in ids - {last} {
          assert order == before + [last];
        }
      }
      OnceEach(before, ids - {last});
    } else {
      assert ids == {};
    }
  }

  /** A departed console's sessions close, and it is a member of no other. */
  function Deserted(b: Book, n: nat): (r: Book)
    ensures r == b.(rooms := r.rooms, order := r.order)
  {
    var kept := b.rooms.Keys - Hosted(b.rooms, n);
    b.(rooms := map id | id in kept ::
         b.rooms[id].(members := if n in b.live then b.rooms[id].members - {b.live[n].xuid} else b.rooms[id].members),
       order := Kept(b.order, kept))
  }

  /** Members in open slots. */
  function Filled(room: Room): nat {
    |set xuid | xuid in room.members && !room.members[xuid]|
  }

  /** A session another console may find: waiting, with an open slot. */
  predicate Findable(rooms: map<Bytes, Room>, n: nat, id: Bytes) {
    id in rooms && rooms[id].host != n && rooms[id].state == "lobby" && Filled(rooms[id]) < rooms[id].open
  }

  function FindableTo(b: Book, n: nat): set<Bytes> {
    set id | id in b.rooms && Findable(b.rooms, n, id)
  }

  /** The first of the ids: at most fifty, and a limit below zero drops from the end instead. */
  function Limited(ids: seq<Bytes>, limit: int): (some: seq<Bytes>)
    ensures some <= ids
  {
    var most := if limit < 50 then limit else 50;
    if most >= 0 then ids[..if most < |ids| then most else |ids|]
    else if |ids| + most >= 0 then ids[..|ids| + most] else []
  }

  /** The answer to a request of console n. */
  function ReplyTo(s: Settings, b: Book, n: nat, request: Request): Reply {
    match request
    case Create(args, made) =>
      if |b.rooms| < s.maxSessions && |Hosted(b.rooms, n)| < s.sessionsPerConsole && args.Some? && args.value.Fits()
      then Created(made) else Error
    case Search(limit) =>
      if limit.Some? then Found(Limited(Kept(b.order, FindableTo(b, n)), limit.value)) else Error
    case Delete(id) => if id.Some? then Ok else Error
    case _ =>
      if request.id.Some? && request.id.value in b.rooms && ChangeOf(b.rooms[request.id.value], request).1 then Ok
      else Error
  }

  /** A session after JOIN, LEAVE, MODIFY or STATE, and whether that was accepted. */
  function ChangeOf(room: Room, request: Request): (Room, bool) {
    match request
    case Join(_, slots) =>
      var joined := Joined(room.members, slots);
      (room.(members := joined.0), joined.1)
    case Leave(_, xuids) =>
      var left := Left(room.members, xuids);
      (room.(members := left.0), left.1)
    case Modify(_, flags, open, closed) =>
      if flags.Some? && 0 <= open <= 64 && 0 <= closed <= 64
      then (room.(flags := flags.value, open := open, closed := closed), true) else (room, false)
    case SetState(_, state) =>
      if state.Some? then (room.(state := if |state.value| <= 16 then state.value else state.value[..16]), true)
      else (room, false)
    case _ => (room, false)
  }

  /** The sessions after a request of console n. */
  function Obeyed(b: Book, n: nat, request: Request, reply: Reply): Book {
    match request
    case Create(args, made) =>
      if reply.Created? && args.Some? then
        var a := args.value;
        b.(rooms := b.rooms[made := Room(n, a.flags, a.open, a.closed, a.props, a.contexts, map[], "lobby")],
           order := b.order + [made])
      else b
    case Search(_) => b
    case Delete(id) =>
      if id.Some? then b.(rooms := b.rooms - {id.value}, order := Kept(b.order, b.rooms.Keys - {id.value})) else b
    case _ =>
      if request.id.Some? && request.id.value in b.rooms then
        b.(rooms := b.rooms[request.id.value := ChangeOf(b.rooms[request.id.value], request).0])
      else b
  }

  function After(b: Book, e: Entry): Book {
    match e
    case Connection(k, signed) => b.(seats := b.seats[k := Seat(None, signed)])
    case Signing(k) => Signed(b, k)
    case Closing(k) => b.(seats := b.seats - {k})
    case Arrival(k, n, xuid, token) =>
      Without(b, n).(live := b.live[n := Credit(xuid, token, false)], seats := b.seats[k := Seat(Some(n), true)],
                     next := n % LAST_CONSOLE_NUMBER + 1)
    case Departure(k, n) => Deserted(Without(b, n), n).(live := b.live - {n}, seats := b.seats - {k})
    case Requested(_, n, request, reply) => Obeyed(b, n, request, reply)
    case Registration(n, a, full) => Used(Heard(b, n, a), n, full)
    case _ => b
  }

  const EMPTY := Book(map[], map[], map[], map[], 1, map[], [])

  function BookOf(log: seq<Entry>): Book {
    if log == [] then EMPTY else After(BookOf(log[..|log| - 1]), log[|log| - 1])
  }

  // ------------------------------------------------------------ what an event calls for

  /** A registration that counts, by the book: of a live console, with its token; or without one,
      where no password is asked and no token was used. */
  predicate RegistersBy(s: Settings, b: Book, data: Bytes) {
    && |data| >= 5 && data[0] == 0 && U32(data, 1) in b.live
    && var credit := b.live[U32(data, 1)];
      if |data| >= 13 then data[5..13] == credit.token else s.password == [] && !credit.used
  }

  /** A relayable datagram, by the book: from an address that leads to the console it names as
      its source, to a console that registered one. */
  predicate RelaysBy(b: Book, data: Bytes, from: Address) {
    && |data| >= 13 && data[0] == 1 && from in b.holder && U32(data, 7) == IpOf(b.holder[from])
    && U32(data, 1) >= NETWORK && U32(data, 1) - NETWORK in b.udp
  }

  /** HELLO makes a console: on a signed connection that is none yet, while there is room. */
  ghost predicate Welcomes(s: Settings, b: Book, k: nat, xuid: Option<int>) {
    && k in b.seats && b.seats[k] == Seat(None, true) && xuid.Some? && |b.live| < s.maxConsoles
    && exists n :: 1 <= n <= LAST_CONSOLE_NUMBER && n !in b.live
  }

  /** The end of a connection, and of its console. */
  function Ending(b: Book, k: nat): Entry {
    if k !in b.seats then Nothing
    else match b.seats[k].console
      case Some(n) => Departure(k, n)
      case None => Closing(k)
  }

  predicate WrongPassword(s: Settings, e: Event) {
    e.Password? && s.password != [] && e.given != s.password
  }

  /** A request is a console's, and a session it makes has a new id. */
  predicate Asks(b: Book, k: nat, request: Request) {
    k in b.seats && b.seats[k].console.Some? && (request.Create? ==> request.made !in b.rooms)
  }

  /** What the event calls for when the book is this, and nothing else. */
  ghost predicate Records(s: Settings, b: Book, event: Event, entry: Entry) {
    match event
    case Opened(k) =>
      entry == if k !in b.seats && |b.seats| < s.MaxConnections() then Connection(k, s.password == []) else Nothing
    case Password(k, _) =>
      entry == if WrongPassword(s, event) then Ending(b, k) else if k in b.seats then Signing(k) else Nothing
    case Greeting(k, xuid, token) =>
      if Welcomes(s, b, k, xuid) then
        && entry.Arrival? && entry == Arrival(k, entry.number, xuid.value, token)
        && NextFree(b.next, b.live.Keys, entry.number)
      else entry == Nothing
    case Asked(k, request) =>
      entry ==
        if Asks(b, k, request) then
          Requested(k, b.seats[k].console.value, request, ReplyTo(s, b, b.seats[k].console.value, request))
        else Nothing
    case Ended(k) => entry == Ending(b, k)
    case Datagram(data, address) =>
      entry ==
        if RegistersBy(s, b, data) then Registration(U32(data, 1), address, |data| >= 13)
        else if RelaysBy(b, data, address) then Relay(data, address, b.udp[U32(data, 1) - NETWORK])
        else Nothing
  }

  /** The log of a run. */
  ghost predicate Recorded(s: Settings, events: seq<Event>, log: seq<Entry>) {
    |log| == |events| && forall i | 0 <= i < |log| :: Records(s, BookOf(log[..i]), events[i], log[i])
  }

  lemma BookMore(log: seq<Entry>, entry: Entry)
    ensures BookOf(log + [entry]) == After(BookOf(log), entry)
    ensures (log + [entry])[..|log|] == log && forall j | 0 <= j < |log| :: (log + [entry])[..j] == log[..j]
  {
    hide After;
    assert (log + [entry])[..|log|] == log;
  }

  lemma AfterNothing(b: Book)
    ensures After(b, Nothing) == b && forall data, from, to :: After(b, Relay(data, from, to)) == b
  {
  }

  lemma RecordedIs(s: Settings, events: seq<Event>, log: seq<Entry>)
    requires |log| == |events| && forall i | 0 <= i < |log| :: Records(s, BookOf(log[..i]), events[i], log[i])
    ensures Recorded(s, events, log)
  {
  }

  /** A run has one log only. */
  lemma OneLog(s: Settings, events: seq<Event>, one: seq<Entry>, other: seq<Entry>, i: nat)
    requires Recorded(s, events, one) && Recorded(s, events, other) && i <= |events|
    ensures one[..i] == other[..i]
  {
    hide BookOf, RegistersBy, RelaysBy, Welcomes, NextFree;
    if i > 0 {
      OneLog(s, events, one, other, i - 1);
      var b := BookOf(one[..i - 1]);
      assert Records(s, b, events[i - 1], one[i - 1]) && Records(s, b, events[i - 1], other[i - 1]);
      if one[i - 1].Arrival? {
        OneNextFree(b.next, b.live.Keys, one[i - 1].number, other[i - 1].number);
      }
      assert one[..i] == one[..i - 1] + [one[i - 1]] && other[..i] == other[..i - 1] + [other[i - 1]];
    }
  }

  // ------------------------------------------------------------ the log read backwards

  /** An entry that begins or ends a console. */
  predicate Turns(e: Entry, n: nat) {
    (e.Arrival? || e.Departure?) && e.number == n
  }

  /** An entry after which an earlier registration of the console no longer counts. */
  predicate Concerns(e: Entry, n: nat) {
    Turns(e, n) || (e.Registration? && e.number == n)
  }

  /** The console arrived last at j and is still there. */
  ghost predicate ArrivedAt(log: seq<Entry>, n: nat, j: nat) {
    j < |log| && log[j].Arrival? && log[j].number == n && forall k | j < k < |log| :: !Turns(log[k], n)
  }

  predicate WithToken(e: Entry, n: nat) {
    e.Registration? && e.number == n && e.full
  }

  ghost predicate TokenUsed(log: seq<Entry>, n: nat, j: nat) {
    exists k :: j < k < |log| && WithToken(log[k], n)
  }

  ghost predicate LastRegistered(log: seq<Entry>, n: nat, a: Address, j: nat) {
    && j < |log| && log[j].Registration? && log[j].number == n && log[j].address == a
    && forall k | j < k < |log| :: !Concerns(log[k], n)
  }

  /** A registration from an address that was not the console's last. */
  ghost predicate Moves(log: seq<Entry>, j: nat) {
    && j < |log| && log[j].Registration?
    && forall i: nat | i < j :: !LastRegistered(log[..j], log[j].number, log[j].address, i)
  }

  ghost predicate MovesTo(log: seq<Entry>, j: nat, n: nat, a: Address) {
    j < |log| && Moves(log, j) && log[j].number == n && log[j].address == a
  }

  /** An entry after which what was said of the console and the address is past. */
  ghost predicate Ends(log: seq<Entry>, j: nat, n: nat, a: Address)
    requires j < |log|
  {
    Turns(log[j], n) || (Moves(log, j) && (log[j].number == n || log[j].address == a))
  }

  /** The console moved to the address at j, and since then neither did it move or go nor
      did another move there. */
  ghost predicate LedSince(log: seq<Entry>, n: nat, a: Address, j: nat) {
    MovesTo(log, j, n, a) && forall k | j < k < |log| :: !Ends(log, k, n, a)
  }

  lemma LiveAfter(b: Book, e: Entry, n: nat)
    ensures n in After(b, e).live <==> (e.Arrival? && e.number == n) || (n in b.live && !Turns(e, n))
    ensures n in b.live && !Turns(e, n) ==>
      After(b, e).live[n] == b.live[n].(used := b.live[n].used || WithToken(e, n))
    ensures e.Arrival? && e.number == n ==> After(b, e).live[n] == Credit(e.xuid, e.token, false)
  {
  }

  /** The live consoles are those that arrived and did not leave, each with the token it got. */
  lemma {:induction false} BookHasLive(log: seq<Entry>, n: nat)
    ensures n in BookOf(log).live <==> exists j: nat :: ArrivedAt(log, n, j)
    ensures forall j: nat | ArrivedAt(log, n, j) ::
      n in BookOf(log).live && BookOf(log).live[n] == Credit(log[j].xuid, log[j].token, TokenUsed(log, n, j))
  {
    if log != [] {
      hide After;
      var before, last := log[..|log| - 1], log[|log| - 1];
      BookHasLive(before, n);
      LiveAfter(BookOf(before), last, n);
      forall j: nat | j < |before| ensures ArrivedAt(log, n, j) <==> ArrivedAt(before, n, j) && !Turns(last, n) {
        assert log[|log| - 1] == last;
      }
      forall j: nat | j < |before|
        ensures TokenUsed(log, n, j) <==> TokenUsed(before, n, j) || WithToken(last, n)
      {
        if TokenUsed(before, n, j) {
          var k :| j < k < |before| && WithToken(before[k], n);
          assert WithToken(log[k], n);
        }
        if WithToken(last, n) {
          assert WithToken(log[|log| - 1], n);
        }
      }
      if last.Arrival? && last.number == n {
        assert ArrivedAt(log, n, |log| - 1) && !TokenUsed(log, n, |log| - 1);
      } else if exists j: nat :: ArrivedAt(before, n, j) {
        var j: nat :| ArrivedAt(before, n, j);
        assert ArrivedAt(log, n, j) <==> !Turns(last, n);
      }
    }
  }

  lemma LastAfter(b: Book, e: Entry, n: nat)
    ensures e.Registration? && e.number == n ==> n in After(b, e).udp && After(b, e).udp[n] == e.address
    ensures !Concerns(e, n) ==>
      (n in After(b, e).udp <==> n in b.udp) && (n in b.udp ==> After(b, e).udp[n] == b.udp[n])
    ensures Turns(e, n) ==> n !in After(b, e).udp
  {
  }

  /** The book has exactly the last registration of each console since it arrived. */
  lemma {:induction false} BookHasLast(log: seq<Entry>, n: nat, a: Address)
    ensures n in BookOf(log).udp && BookOf(log).udp[n] == a <==> exists j: nat :: LastRegistered(log, n, a, j)
  {
    if log != [] {
      hide After;
      var before, last := log[..|log| - 1], log[|log| - 1];
      BookHasLast(before, n, a);
      LastAfter(BookOf(before), last, n);
      if last.Registration? && last.number == n && last.address == a {
        assert LastRegistered(log, n, a, |log| - 1);
      } else if !Concerns(last, n) && exists j: nat :: LastRegistered(before, n, a, j) {
        var j: nat :| LastRegistered(before, n, a, j);
        assert LastRegistered(log, n, a, j);
      }
      if exists j: nat :: LastRegistered(log, n, a, j) {
        var j: nat :| LastRegistered(log, n, a, j);
        if j < |before| {
          assert LastRegistered(before, n, a, j) && !Concerns(log[|log| - 1], n);
        }
      }
    }
  }

  ghost predicate Agrees(b: Book, a: Address) {
    a in b.holder ==> b.holder[a] in b.udp && b.udp[b.holder[a]] == a
  }

  /** An address leads only to the console whose last it is. */
  lemma {:induction false} BookAgrees(log: seq<Entry>, a: Address)
    ensures Agrees(BookOf(log), a)
  {
    if log != [] {
      BookAgrees(log[..|log| - 1], a);
      AgreesAfter(BookOf(log[..|log| - 1]), log[|log| - 1], a);
    }
  }

  lemma AgreesAfter(b: Book, e: Entry, a: Address)
    requires Agrees(b, a)
    ensures Agrees(After(b, e), a)
  {
    if e.Registration? {
      AgreesHeard(b, e.number, e.address, a);
    }
    hide Heard;
  }

  lemma AgreesHeard(b: Book, n: nat, at: Address, a: Address)
    requires Agrees(b, a)
    ensures Agrees(Heard(b, n, at), a)
  {
  }

  lemma MovesIs(log: seq<Entry>, j: nat)
    requires j < |log| && log[j].Registration?
    ensures var b, n := BookOf(log[..j]), log[j].number;
      Moves(log, j) <==> !(n in b.udp && b.udp[n] == log[j].address)
  {
    BookHasLast(log[..j], log[j].number, log[j].address);
    hide LastRegistered;
  }

  ghost predicate LeadsTo(log: seq<Entry>, a: Address, n: nat) {
    exists j: nat :: LedSince(log, n, a, j)
  }

  lemma HolderAfter(b: Book, e: Entry, n: nat, a: Address)
    requires Agrees(b, a)
    ensures var moves := e.Registration? && !(e.number in b.udp && b.udp[e.number] == e.address);
      a in After(b, e).holder && After(b, e).holder[a] == n <==>
      if moves && (e.number == n || e.address == a) then e.number == n && e.address == a
      else a in b.holder && b.holder[a] == n && !Turns(e, n)
  {
  }

  /** An address leads to the console that moved there last, while it neither moved nor left. */
  lemma {:induction false} BookHasHolder(log: seq<Entry>, n: nat, a: Address)
    ensures a in BookOf(log).holder && BookOf(log).holder[a] == n <==> LeadsTo(log, a, n)
  {
    if log != [] {
      var before, last := log[..|log| - 1], log[|log| - 1];
      hide After, LedSince, MovesTo, LastRegistered, Agrees;
      BookHasHolder(before, n, a);
      BookAgrees(before, a);
      HolderAfter(BookOf(before), last, n, a);
      forall j: nat | j < |before| ensures Moves(log, j) <==> Moves(before, j) {
        assert log[..j] == before[..j];
      }
      if last.Registration? {
        MovesIs(log, |log| - 1);
      }
      LedOneMore(log, n, a);
    }
  }

  lemma LedOneMore(log: seq<Entry>, n: nat, a: Address)
    requires log != [] && forall j: nat | j < |log| - 1 :: Moves(log, j) <==> Moves(log[..|log| - 1], j)
    ensures LeadsTo(log, a, n) <==>
      || MovesTo(log, |log| - 1, n, a)
      || (LeadsTo(log[..|log| - 1], a, n) && !Ends(log, |log| - 1, n, a))
  {
    hide Moves;
    var before, last := log[..|log| - 1], log[|log| - 1];
    if LeadsTo(log, a, n) {
      var j: nat :| LedSince(log, n, a, j);
      if j < |before| {
        assert !Ends(log, |log| - 1, n, a);
        forall k | j < k < |before| ensures !Ends(before, k, n, a) {
          assert !Ends(log, k, n, a);
        }
        assert LedSince(before, n, a, j);
      }
    }
    if MovesTo(log, |log| - 1, n, a) {
      assert LedSince(log, n, a, |log| - 1);
    }
    if LeadsTo(before, a, n) && !Ends(log, |log| - 1, n, a) {
      var j: nat :| LedSince(before, n, a, j);
      forall k | j < k < |log| ensures !Ends(log, k, n, a) {
        assert k < |before| ==> !Ends(before, k, n, a) && log[k] == before[k] && Moves(log, k) == Moves(before, k);
      }
      assert log[j] == before[j] && Moves(log, j) == Moves(before, j);
      assert LedSince(log, n, a, j);
    }
  }

  // ------------------------------------------------------------ the sessions of a log

  /** CREATE was answered, and made the session. */
  predicate Makes(e: Entry, id: Bytes) {
    e.Requested? && e.request.Create? && e.request.args.Some? && e.reply.Created? && e.request.made == id
  }

  /** The session is deleted, or its host leaves. */
  predicate Drops(e: Entry, id: Bytes, host: nat) {
    || (e.Requested? && e.request.Delete? && e.request.id == Some(id))
    || (e.Departure? && e.number == host)
  }

  ghost predicate MadeAt(log: seq<Entry>, id: Bytes, j: nat) {
    && j < |log| && Makes(log[j], id)
    && forall k | j < k < |log| :: !Makes(log[k], id) && !Drops(log[k], id, log[j].number)
  }

  /** A request of this kind names another session, or none. */
  predicate Spares(request: Request, id: Bytes) {
    match request
    case Create(_, made) => made != id
    case Search(_) => true
    case _ => request.id != Some(id)
  }

  /** What a request changes, session by session: the rest of the book stays. */
  lemma RequestsDo(b: Book, n: nat, request: Request, reply: Reply, id: Bytes)
    ensures var after := Obeyed(b, n, request, reply);
      && after == b.(rooms := after.rooms, order := after.order)
      && (Spares(request, id) ==>
        && (id in after.rooms <==> id in b.rooms)
        && (id in b.rooms ==> after.rooms[id] == b.rooms[id]))
      && (request.Search? ==> after == b)
      && (request == Delete(Some(id)) ==> id !in after.rooms)
      && ((request.Join? || request.Leave?) && id in b.rooms ==>
        id in after.rooms && after.rooms[id] == b.rooms[id].(members := after.rooms[id].members))
      && (request.Join? && request.id == Some(id) && id in b.rooms ==>
        after.rooms[id].members == Joined(b.rooms[id].members, request.slots).0)
      && (request.Leave? && request.id == Some(id) && id in b.rooms ==>
        after.rooms[id].members == Left(b.rooms[id].members, request.xuids).0)
      && (request.Modify? && request.id == Some(id) && id in b.rooms ==>
        id in after.rooms && after.rooms[id] ==
          if request.flags.Some? && 0 <= request.open <= 64 && 0 <= request.closed <= 64
          then b.rooms[id].(flags := request.flags.value, open := request.open, closed := request.closed)
          else b.rooms[id])
      && (request.SetState? && request.id == Some(id) && id in b.rooms ==>
        id in after.rooms && after.rooms[id] == b.rooms[id].(state := after.rooms[id].state))
  {
    hide Joined, Left, Kept;
  }

  lemma RoomsAfter(b: Book, e: Entry, id: Bytes)
    ensures id in After(b, e).rooms <==>
      Makes(e, id) || (id in b.rooms && !Drops(e, id, b.rooms[id].host))
    ensures Makes(e, id) ==>
      var room, a := After(b, e).rooms[id], e.request.args.value;
      && room.host == e.number && room.props == a.props && room.contexts == a.contexts
      && room.flags == a.flags && room.open == a.open && room.closed == a.closed
      && room.members == map[] && room.state == "lobby"
    ensures !Makes(e, id) && id in b.rooms && id in After(b, e).rooms ==>
      var room, was := After(b, e).rooms[id], b.rooms[id];
      room.host == was.host && room.props == was.props && room.contexts == was.contexts
  {
    hide Kept, Without, Heard, Used, Signed, Obeyed, Deserted;
    if e.Requested? {
      RoomsObeyed(b, e.number, e.request, e.reply, id);
    } else if e.Departure? {
      RoomsDeserted(Without(b, e.number), e.number, id);
    }
  }

  lemma RoomsObeyed(b: Book, n: nat, request: Request, reply: Reply, id: Bytes)
    ensures var after, makes := Obeyed(b, n, request, reply).rooms,
        request.Create? && request.args.Some? && reply.Created? && request.made == id;
      && (id in after <==> makes || (id in b.rooms && request != Delete(Some(id))))
      && (makes ==>
        var a := request.args.value;
        after[id] == Room(n, a.flags, a.open, a.closed, a.props, a.contexts, map[], "lobby"))
      && (!makes && id in b.rooms && id in after ==>
        after[id].host == b.rooms[id].host && after[id].props == b.rooms[id].props
        && after[id].contexts == b.rooms[id].contexts)
  {
    hide Kept, Joined, Left;
  }

  lemma RoomsDeserted(b: Book, n: nat, id: Bytes)
    ensures var after := Deserted(b, n).rooms;
      && (id in after <==> id in b.rooms && b.rooms[id].host != n)
      && (id in after ==> after[id] == b.rooms[id].(members := after[id].members))
  {
    hide Kept;
  }

  /** The sessions of a log are those made and neither deleted nor left by their host since, each
      with the host and the words that made it. */
  lemma {:induction false} BookHasRoom(log: seq<Entry>, id: Bytes)
    ensures id in BookOf(log).rooms <==> exists j: nat :: MadeAt(log, id, j)
    ensures forall j: nat | MadeAt(log, id, j) ::
      && id in BookOf(log).rooms
      && BookOf(log).rooms[id].host == log[j].number
      && BookOf(log).rooms[id].props == log[j].request.args.value.props
      && BookOf(log).rooms[id].contexts == log[j].request.args.value.contexts
  {
    if log != [] {
      hide After;
      var before, last := log[..|log| - 1], log[|log| - 1];
      BookHasRoom(before, id);
      RoomsAfter(BookOf(before), last, id);
      forall j: nat | j < |before|
        ensures MadeAt(log, id, j) <==> MadeAt(before, id, j) && !Makes(last, id) && !Drops(last, id, log[j].number)
      {
        assert log[|log| - 1] == last;
      }
      if Makes(last, id) {
        assert MadeAt(log, id, |log| - 1);
      } else if exists j: nat :: MadeAt(before, id, j) {
        var j: nat :| MadeAt(before, id, j);
        assert MadeAt(log, id, j) <==> !Drops(last, id, log[j].number);
      }
    }
  }

  // ------------------------------------------------------------ whole runs

  /** A datagram registers console n, after this log: n arrived and is there, and the datagram
      has the token n arrived with; or it has none, where no password is asked and no
      registration of n since its arrival had one. */
  ghost predicate Counts(s: Settings, log: seq<Entry>, e: Event, n: nat) {
    && e.Datagram? && |e.data| >= 5 && e.data[0] == 0 && U32(e.data, 1) == n
    && exists j: nat ::
      && ArrivedAt(log, n, j)
      && if |e.data| >= 13 then e.data[5..13] == log[j].token else s.password == [] && !TokenUsed(log, n, j)
  }

  lemma CountsIs(s: Settings, log: seq<Entry>, e: Event, n: nat)
    ensures Counts(s, log, e, n) <==> e.Datagram? && RegistersBy(s, BookOf(log), e.data) && U32(e.data, 1) == n
  {
    BookHasLive(log, n);
    hide BookOf, ArrivedAt, TokenUsed, U32;
  }

  /** In every run exactly the datagrams that count are registrations. */
  lemma RegisteredExactly(s: Settings, events: seq<Event>, log: seq<Entry>, i: nat, n: nat)
    requires Recorded(s, events, log) && i < |log|
    ensures log[i].Registration? && log[i].number == n <==> Counts(s, log[..i], events[i], n)
    ensures log[i].Registration? ==>
      events[i].Datagram? && log[i] == Registration(log[i].number, events[i].address, |events[i].data| >= 13)
  {
    CountsIs(s, log[..i], events[i], n);
    hide BookOf, RegistersBy, Counts, RelaysBy, U32, Welcomes, NextFree;
    assert Records(s, BookOf(log[..i]), events[i], log[i]);
  }

  /** Console n registered last at r, from this address, and has not left since. */
  ghost predicate LastCounted(s: Settings, events: seq<Event>, log: seq<Entry>, n: nat, a: Address, r: nat)
    requires |events| == |log|
  {
    && r < |log| && Counts(s, log[..r], events[r], n) && events[r].address == a
    && forall k | r < k < |log| :: !Turns(log[k], n) && !Counts(s, log[..k], events[k], n)
  }

  ghost predicate Reaches(s: Settings, events: seq<Event>, log: seq<Entry>, n: nat, a: Address)
    requires |events| == |log|
  {
    exists r: nat :: LastCounted(s, events, log, n, a, r)
  }

  lemma LastCountedIs(s: Settings, events: seq<Event>, log: seq<Entry>, i: nat, n: nat, a: Address, r: nat)
    requires Recorded(s, events, log) && i <= |log|
    ensures LastCounted(s, events[..i], log[..i], n, a, r) <==> LastRegistered(log[..i], n, a, r)
  {
    hide Counts, Turns;
    if r < i {
      forall k | r <= k < i
        ensures log[..i][..k] == log[..k]
        ensures Counts(s, log[..k], events[k], n) <==> log[k].Registration? && log[k].number == n
        ensures log[k].Registration? ==> events[k].Datagram? && log[k].address == events[k].address
      {
        RegisteredExactly(s, events, log, k, n);
      }
      hide Recorded;
    }
  }

  lemma ReachesIs(s: Settings, events: seq<Event>, log: seq<Entry>, i: nat, n: nat, a: Address)
    requires Recorded(s, events, log) && i <= |log|
    ensures Reaches(s, events[..i], log[..i], n, a) <==> n in BookOf(log[..i]).udp && BookOf(log[..i]).udp[n] == a
  {
    hide LastCounted, LastRegistered, BookOf, Records;
    BookHasLast(log[..i], n, a);
    if Reaches(s, events[..i], log[..i], n, a) {
      var r: nat :| LastCounted(s, events[..i], log[..i], n, a, r);
      LastCountedIs(s, events, log, i, n, a, r);
    }
    if r: nat :| LastRegistered(log[..i], n, a, r) {
      LastCountedIs(s, events, log, i, n, a, r);
    }
  }

  /** In every run a datagram is relayed exactly when its address leads to the console it names
      as its source and the console it names as its destination is registered, and then it goes
      to the address of the last datagram that counted for that console. */
  lemma RelayedExactly(s: Settings, events: seq<Event>, log: seq<Entry>, i: nat, data: Bytes, from: Address,
      to: Address)
    requires Recorded(s, events, log) && i < |log|
    ensures log[i] == Relay(data, from, to) <==>
      && events[i] == Datagram(data, from) && |data| >= 13 && data[0] == 1
      && U32(data, 7) >= NETWORK && LeadsTo(log[..i], from, U32(data, 7) - NETWORK)
      && U32(data, 1) >= NETWORK && Reaches(s, events[..i], log[..i], U32(data, 1) - NETWORK, to)
  {
    hide BookOf, NextFree, Welcomes, LeadsTo, Reaches, U32;
    assert Records(s, BookOf(log[..i]), events[i], log[i]);
    if |data| >= 13 && U32(data, 7) >= NETWORK && U32(data, 1) >= NETWORK {
      BookHasHolder(log[..i], U32(data, 7) - NETWORK, from);
      ReachesIs(s, events, log, i, U32(data, 1) - NETWORK, to);
    }
  }

  lemma OrderAfter(s: Settings, b: Book, event: Event, entry: Entry)
    requires OrderFits(b.order, b.rooms.Keys) && Records(s, b, event, entry)
    ensures OrderFits(After(b, entry).order, After(b, entry).rooms.Keys)
  {
    hide OrderFits, NextFree, RegistersBy, RelaysBy, Welcomes, U32, Without, Heard, Used, Signed;
    hide ReplyTo, Obeyed, Deserted;
    match entry
    case Departure(_, n) => OrderDeserted(Without(b, n), n);
    case Requested(_, n, request, reply) => OrderObeyed(b, n, request, reply);
    case _ =>
  }

  lemma OrderDeserted(b: Book, n: nat)
    requires OrderFits(b.order, b.rooms.Keys)
    ensures OrderFits(Deserted(b, n).order, Deserted(b, n).rooms.Keys)
  {
    hide Kept, OrderFits, Hosted;
    KeptFits(b.order, b.rooms.Keys, b.rooms.Keys - Hosted(b.rooms, n));
    assert Deserted(b, n).rooms.Keys == b.rooms.Keys - Hosted(b.rooms, n);
  }

  lemma OrderObeyed(b: Book, n: nat, request: Request, reply: Reply)
    requires OrderFits(b.order, b.rooms.Keys) && (request.Create? ==> request.made !in b.rooms)
    ensures OrderFits(Obeyed(b, n, request, reply).order, Obeyed(b, n, request, reply).rooms.Keys)
  {
    hide Kept, OrderFits, Obeyed;
    ObeyedKeys(b, n, request, reply);
    if request.Create? {
      OneMore(b.order, b.rooms.Keys, request.made);
    } else if request.Delete? && request.id.Some? {
      KeptFits(b.order, b.rooms.Keys, b.rooms.Keys - {request.id.value});
    }
  }

  lemma ObeyedKeys(b: Book, n: nat, request: Request, reply: Reply)
    ensures var after, makes := Obeyed(b, n, request, reply), request.Create? && request.args.Some? && reply.Created?;
      && after.rooms.Keys == (if makes then b.rooms.Keys + {request.made}
        else if request.Delete? && request.id.Some? then b.rooms.Keys - {request.id.value} else b.rooms.Keys)
      && after.order == if makes then b.order + [request.made]
        else if request.Delete? && request.id.Some? then Kept(b.order, b.rooms.Keys - {request.id.value}) else b.order
  {
    hide Kept, ChangeOf;
  }

  lemma OneMore(order: seq<Bytes>, ids: set<Bytes>, id: Bytes)
    requires OrderFits(order, ids) && id !in ids
    ensures OrderFits(order + [id], ids + {id})
  {
  }

  lemma {:induction false} RunsInOrder(s: Settings, events: seq<Event>, log: seq<Entry>, i: nat)
    requires Recorded(s, events, log) && i <= |log|
    ensures OrderFits(BookOf(log[..i]).order, BookOf(log[..i]).rooms.Keys)
  {
    hide After, Records, OrderFits;
    if i > 0 {
      RunsInOrder(s, events, log, i - 1);
      BookMore(log[..i - 1], log[i - 1]);
      assert log[..i - 1] + [log[i - 1]] == log[..i];
      OrderAfter(s, BookOf(log[..i - 1]), events[i - 1], log[i - 1]);
    } else {
      NoneYet();
    }
  }

  lemma NoneYet()
    ensures OrderFits(BookOf([]).order, BookOf([]).rooms.Keys)
  {
  }

  /** In every run SEARCH finds sessions in the lobby with an open slot that another console
      hosts, each once, in the order they were made, and all of them unless the limit ends it. */
  lemma FoundExactly(s: Settings, events: seq<Event>, log: seq<Entry>, i: nat, n: nat, limit: int)
    requires Recorded(s, events, log) && i < |log| && log[i].Requested? && log[i].number == n
    requires log[i].request == Search(Some(limit))
    ensures log[i].reply.Found?
    ensures var rooms, order, ids := BookOf(log[..i]).rooms, BookOf(log[..i]).order, log[i].reply.ids;
      var all := set id | id in rooms && rooms[id].host != n && rooms[id].state == "lobby"
        && |set xuid | xuid in rooms[id].members && !rooms[id].members[xuid]| < rooms[id].open;
      && (forall id | id in ids :: id in all)
      && (forall x, y | 0 <= x < y < |ids| :: ids[x] != ids[y] && Before(order, ids[x], ids[y]))
      && |ids| == if limit >= 50 then (if |all| < 50 then |all| else 50)
        else if limit >= 0 then (if |all| < limit then |all| else limit)
        else if |all| + limit >= 0 then |all| + limit else 0
  {
    hide BookOf, Kept, RegistersBy, RelaysBy, Welcomes, NextFree, U32, After;
    var b := BookOf(log[..i]);
    assert Records(s, b, events[i], log[i]);
    assert log[i].reply == Found(Limited(Kept(b.order, FindableTo(b, n)), limit));
    RunsInOrder(s, events, log, i);
    hide Recorded, Records, Limited, OrderFits, FindableTo, Before;
    FindableIs(b, n);
    InRooms(b, n);
    KeptFits(b.order, b.rooms.Keys, FindableTo(b, n));
    KeptOrder(b.order, FindableTo(b, n));
    LimitedIs(Kept(b.order, FindableTo(b, n)), limit);
    OrderApart(Kept(b.order, FindableTo(b, n)), FindableTo(b, n));
  }

  lemma FindableIs(b: Book, n: nat)
    ensures var rooms := b.rooms;
      FindableTo(b, n) == set id | id in rooms && rooms[id].host != n && rooms[id].state == "lobby"
        && |set xuid | xuid in rooms[id].members && !rooms[id].members[xuid]| < rooms[id].open
  {
  }

  lemma InRooms(b: Book, n: nat)
    ensures FindableTo(b, n) <= b.rooms.Keys
  {
  }

  lemma OrderApart(order: seq<Bytes>, ids: set<Bytes>)
    requires OrderFits(order, ids)
    ensures forall i, j | 0 <= i < j < |order| :: order[i] != order[j]
  {
  }

  lemma LimitedIs(ids: seq<Bytes>, limit: int)
    ensures Limited(ids, limit) <= ids
    ensures |Limited(ids, limit)| == if limit >= 50 then (if |ids| < 50 then |ids| else 50)
      else if limit >= 0 then (if |ids| < limit then |ids| else limit)
      else if |ids| + limit >= 0 then |ids| + limit else 0
  {
  }

  /** A connection ends only when it is ended or gives a wrong password: no refused request or
      HELLO closes it. */
  lemma EndsOnly(s: Settings, events: seq<Event>, log: seq<Entry>, i: nat, k: nat)
    requires Recorded(s, events, log) && i < |log| && k in BookOf(log[..i]).seats
    ensures k !in BookOf(log[..i + 1]).seats <==>
      events[i] == Ended(k) || (WrongPassword(s, events[i]) && events[i].k == k)
  {
    hide BookOf, NextFree, Welcomes, RegistersBy, RelaysBy, After, U32;
    BookMore(log[..i], log[i]);
    assert log[..i] + [log[i]] == log[..i + 1];
    SeatsAfter(BookOf(log[..i]), log[i], k);
    assert Records(s, BookOf(log[..i]), events[i], log[i]);
  }

  lemma SeatsAfter(b: Book, e: Entry, k: nat)
    requires k in b.seats
    ensures k !in After(b, e).seats <==> (e.Closing? || e.Departure?) && e.k == k
  {
  }
}
